/** The pure pieces of the admin dashboard (frontend/app/dashboard/page.tsx):
    the search filter over the loaded users, the status the block/unblock
    button asks for, and the status badge text. `toLowerCase` and
    `toUpperCase` are modelled on ASCII letters only. */
module Dashboard {
  import opened Wrappers
  import UserModel

  /** A user as the dashboard receives it from GET /admin/users (the JSON
      carries the status as a plain string). */
  datatype UserRow = UserRow(
    id: nat, fullName: string, username: string, email: string, phone: string,
    status: string, createdAt: nat, lastLoginAt: Option<nat>)

  // ------------------------------------------------------------ ASCII case

  predicate IsUpper(c: char) { 'A' <= c <= 'Z' }
  predicate IsLower(c: char) { 'a' <= c <= 'z' }

  function LowerChar(c: char): (d: char)
    ensures !IsUpper(d)
    ensures IsUpper(c) ==> d as int == c as int + 32
    ensures !IsUpper(c) ==> d == c
  {
    if IsUpper(c) then (c as int + 32) as char else c
  }

  function UpperChar(c: char): (d: char)
    ensures !IsLower(d)
    ensures IsLower(c) ==> d as int == c as int - 32
    ensures !IsLower(c) ==> d == c
  {
    if IsLower(c) then (c as int - 32) as char else c
  }

  /** `s.toLowerCase()`. */
  function Lower(s: string): (r: string)
    ensures |r| == |s|
    ensures forall i :: 0 <= i < |s| ==> r[i] == LowerChar(s[i])
  {
    if s == [] then [] else [LowerChar(s[0])] + Lower(s[1..])
  }

  // ------------------------------------------------------------ substring

  /** `hay.includes(needle)`: `needle` occurs in `hay` at some position. */
  predicate Includes(hay: string, needle: string)
    decreases |hay|
  {
    needle <= hay || (hay != [] && Includes(hay[1..], needle))
  }

  /** `Includes` means: there is a position where `needle` starts. */
  lemma {:induction false} IncludesAt(hay: string, needle: string)
    ensures Includes(hay, needle) <==> exists i :: 0 <= i <= |hay| && needle <= hay[i..]
  {
    if hay != [] {
      IncludesAt(hay[1..], needle);
      if exists i :: 0 <= i <= |hay| && needle <= hay[i..] {
        var i :| 0 <= i <= |hay| && needle <= hay[i..];
        if i > 0 {
          assert hay[1..][i - 1..] == hay[i..];
        }
      }
    }
  }

  /** The empty string is included in every string. */
  lemma IncludesEmpty(hay: string)
    ensures Includes(hay, "")
  {
  }

  // --------------------------------------------------------------- filter

  /** The predicate of `users.filter(...)`: the lower-cased search term occurs
      in the lower-cased full name, email or username. */
  predicate Matches(u: UserRow, term: string)
  {
    var t := Lower(term);
    Includes(Lower(u.fullName), t) || Includes(Lower(u.email), t) || Includes(Lower(u.username), t)
  }

  /** `a` is `b` with some elements dropped and the rest in the same order. */
  predicate Subsequence<T(==)>(a: seq<T>, b: seq<T>)
    decreases |b|
  {
    a == [] || (b != [] && ((a[0] == b[0] && Subsequence(a[1..], b[1..])) || Subsequence(a, b[1..])))
  }

  /** `filteredUsers`: the users that match the search term, in list order. */
  function FilterUsers(users: seq<UserRow>, term: string): (r: seq<UserRow>)
    ensures Subsequence(r, users)
    ensures forall u :: u in r <==> u in users && Matches(u, term)
    ensures forall u :: multiset(r)[u] == (if Matches(u, term) then multiset(users)[u] else 0)
  {
    if users == [] then []
    else
      var rest := FilterUsers(users[1..], term);
      assert users == [users[0]] + users[1..];
      if Matches(users[0], term) then [users[0]] + rest
      else
        rest
  }

  /** An empty search box shows every user. */
  lemma {:induction false} FilterEmptyTerm(users: seq<UserRow>)
    ensures FilterUsers(users, "") == users
  {
    if users != [] {
      FilterEmptyTerm(users[1..]);
    }
  }

  /** Filtering the filtered list with the same term changes nothing. */
  lemma {:induction false} FilterIdempotent(users: seq<UserRow>, term: string)
    ensures FilterUsers(FilterUsers(users, term), term) == FilterUsers(users, term)
  {
    if users != [] {
      FilterIdempotent(users[1..], term);
    }
  }

  // ------------------------------------------------------ block / unblock

  /** The status the row's button sends to PATCH /admin/users/:id/status:
      "blocked" for an active user, "active" for anything else. */
  function ToggleTarget(status: string): (r: string)
    ensures UserModel.ParseStatus(r).Some?
    ensures r == "blocked" <==> status == "active"
    ensures r != status
  {
    if status == "active" then "blocked" else "active"
  }

  /** For a stored status, the button asks for the other one; pressing it
      twice comes back to where it started. */
  lemma ToggleFlips(s: UserModel.Status)
    ensures var sent := ToggleTarget(UserModel.StatusName(s));
            && UserModel.ParseStatus(sent) == Some(if s.Active? then UserModel.Blocked else UserModel.Active)
            && ToggleTarget(sent) == UserModel.StatusName(s)
  {
  }

  // ---------------------------------------------------------- status badge

  /** `status.charAt(0).toUpperCase() + status.slice(1)`. */
  function Label(status: string): (r: string)
    ensures |r| == |status|
    ensures status != [] ==> r[0] == UpperChar(status[0]) && r[1..] == status[1..]
  {
    if status == [] then [] else [UpperChar(status[0])] + status[1..]
  }

  /** Lower-casing the first character undoes the badge when the status did
      not start with a capital letter: the badge loses nothing. */
  lemma LabelRoundTrip(status: string)
    requires status == [] || !IsUpper(status[0])
    ensures var r := Label(status);
            (if r == [] then [] else [LowerChar(r[0])] + r[1..]) == status
  {
  }

  /** The badges of the two stored statuses. */
  lemma StatusLabels()
    ensures Label(UserModel.StatusName(UserModel.Active)) == "Active"
    ensures Label(UserModel.StatusName(UserModel.Blocked)) == "Blocked"
  {
  }
}
