/** The handlers of backend/index.js as transitions of the account table:
    each takes the table before the request and gives the table after it
    together with the reply. The class in service.dfy performs the same
    steps in place and is proved against these functions. */
module Lifecycle {
  import opened Wrappers
  import opened UserModel
  import opened Crypto
  import opened ApiError
  import opened Auth

  /** The table after a request and the reply sent for it. */
  datatype Step<T> = Step(table: Table, reply: Result<T, Error>)

  /** The body of POST /register. */
  datatype Registration = Registration(
    fullName: string, username: string, email: string, phone: string, password: string)

  /** The body of PUT /admin/users/:id. */
  datatype ProfileEdit = ProfileEdit(
    fullName: string, username: string, email: string, phone: string)

  /** What GET /me sends: `_id` (kept by the select unless excluded) and the
      four selected fields. There is no password field to leak. */
  datatype Profile = Profile(
    id: Id, fullName: string, username: string, email: string, status: Status)

  /** The `$or: [{ email }, { username }]` filter of register and edit. */
  predicate Claims(a: Account, username: string, email: string)
  {
    a.email == email || a.username == username
  }

  /** Register's duplicate check: some account has the email or the username. */
  predicate Taken(t: Table, username: string, email: string)
  {
    exists k :: k in t && Claims(t[k], username, email)
  }

  /** Edit's duplicate check, which skips the edited account (`_id: { $ne: id }`). */
  predicate TakenByOther(t: Table, id: Id, username: string, email: string)
  {
    exists k :: k in t && k != id && Claims(t[k], username, email)
  }

  // ---------------------------------------------------------------- register

  /** POST /register: refuse when the email or the username is already taken;
      otherwise store a new account under the newId id. */
  function Register(c: Primitives, t: Table, newId: Id, r: Registration, salt: nat, now: Time)
    : (s: Step<()>)
    requires newId !in t
    ensures s.reply.Err? <==> Taken(t, r.username, r.email)
    ensures s.reply.Err? ==> s.reply.error == DuplicateIdentity && s.table == t
    ensures s.reply.Ok? ==> s.table.Keys == t.Keys + {newId}
                            && (forall k :: k in t ==> s.table[k] == t[k])
    ensures s.reply.Ok? ==>
              var a := s.table[newId];
              && a.id == newId
              && a.fullName == r.fullName && a.username == r.username
              && a.email == r.email && a.phone == r.phone
              && a.password == c.hash(r.password, salt)
              && a.status == Active && a.lastLoginAt == None
              && a.createdAt == now && a.updatedAt == now
  {
    if Taken(t, r.username, r.email) then Step(t, Err(DuplicateIdentity))
    else
      var a := NewAccount(newId, r.fullName, r.username, r.email, r.phone,
                          c.hash(r.password, salt), now);
      Step(t[newId := a], Ok(()))
  }

  /** Registration keeps both unique indexes. */
  lemma RegisterKeepsConsistent(c: Primitives, t: Table, newId: Id, r: Registration, salt: nat, now: Time)
    requires newId !in t && Consistent(t)
    ensures Consistent(Register(c, t, newId, r, salt, now).table)
  {
  }

  /** The stored password is a hash that the plain text verifies against, and
      never the plain text itself. */
  lemma RegisterStoresHash(c: Primitives, t: Table, newId: Id, r: Registration, salt: nat, now: Time)
    requires newId !in t && c.Sound()
    requires Register(c, t, newId, r, salt, now).reply.Ok?
    ensures var stored := Register(c, t, newId, r, salt, now).table[newId].password;
            stored != r.password && c.verify(r.password, stored)
  {
  }

  /** Registering again with the username of an account just registered is
      refused and changes nothing, whatever the other fields are. */
  lemma RegisterTwiceSameUsername(c: Primitives, t: Table, newId: Id, newId': Id,
                                  r: Registration, r': Registration, salt: nat, salt': nat,
                                  now: Time, now': Time)
    requires newId !in t
    requires Register(c, t, newId, r, salt, now).reply.Ok?
    requires newId' !in Register(c, t, newId, r, salt, now).table
    requires r'.username == r.username
    ensures var t' := Register(c, t, newId, r, salt, now).table;
            Register(c, t', newId', r', salt', now') == Step(t', Err(DuplicateIdentity))
  {
  }

  // ------------------------------------------------------------------- login

  /** The login filter `$or: [{ email: login }, { username: login }]`. */
  predicate Identifies(a: Account, login: string)
  {
    a.email == login || a.username == login
  }

  /** Every account the login filter matches; `findOne` returns one of them. */
  function Candidates(t: Table, login: string): set<Id>
  {
    set k | k in t && Identifies(t[k], login)
  }

  /** A successful login stamps `lastLoginAt` and, through the schema's
      timestamps, `updatedAt`. */
  function Stamped(a: Account, now: Time): Account
  {
    a.(lastLoginAt := Some(now), updatedAt := now)
  }

  /** POST /login once `findOne` has answered `found`: no account is "Invalid
      credentials"; a blocked account is refused before its password is
      compared; a wrong password is "Invalid credentials"; otherwise the
      account is stamped and a token for its id is returned. */
  function LoginAt(c: Primitives, t: Table, found: Option<Id>, password: string, now: Time)
    : (s: Step<string>)
    requires found.Some? ==> found.value in t
    ensures found.None? ==> s == Step(t, Err(InvalidCredentials))
    ensures s.reply.Err? ==> s.table == t
    ensures found.Some? && t[found.value].status.Blocked? ==> s.reply == Err(AccountBlocked)
    ensures s.reply.Ok? <==> found.Some? && t[found.value].status.Active?
                             && c.verify(password, t[found.value].password)
    ensures (found.Some? && t[found.value].status.Active?
             && !c.verify(password, t[found.value].password))
              ==> s.reply == Err(InvalidCredentials)
    ensures s.reply.Ok? ==>
              && s.reply.value == c.sign(found.value)
              && s.table.Keys == t.Keys
              && (forall k :: k in t && k != found.value ==> s.table[k] == t[k])
              && s.table[found.value] == t[found.value].(lastLoginAt := Some(now), updatedAt := now)
  {
    match found
    case None => Step(t, Err(InvalidCredentials))
    case Some(k) =>
      var a := t[k];
      if a.status.Blocked? then Step(t, Err(AccountBlocked))
      else if !c.verify(password, a.password) then Step(t, Err(InvalidCredentials))
      else Step(t[k := Stamped(a, now)], Ok(c.sign(k)))
  }

  /** Login keeps both unique indexes: only timestamps change. */
  lemma LoginKeepsConsistent(c: Primitives, t: Table, found: Option<Id>, password: string, now: Time)
    requires found.Some? ==> found.value in t
    requires Consistent(t)
    ensures Consistent(LoginAt(c, t, found, password, now).table)
  {
  }

  /** The token a login returns authenticates, through the middleware, as the
      account that logged in, and GET /me then shows that account's profile,
      which the login itself did not change. */
  lemma LoginThenMe(c: Primitives, t: Table, k: Id, password: string, now: Time, scheme: string)
    requires k in t && c.Sound() && ' ' !in scheme
    requires LoginAt(c, t, Some(k), password, now).reply.Ok?
    ensures var s := LoginAt(c, t, Some(k), password, now);
            && Authenticate(c, Some(scheme + " " + s.reply.value)) == Ok(k)
            && Lookup(s.table, k) == Ok(Project(t[k]))
  {
  }

  /** An account just registered is among the login matches for its username
      and for its email, and logging in as it with the registered password
      succeeds. Its username picks it alone unless an older account has that
      string as its email. */
  lemma RegisterThenLogin(c: Primitives, t: Table, newId: Id, r: Registration, salt: nat,
                          now: Time, later: Time)
    requires newId !in t && c.Sound()
    requires Register(c, t, newId, r, salt, now).reply.Ok?
    ensures var t' := Register(c, t, newId, r, salt, now).table;
            && newId in Candidates(t', r.username)
            && newId in Candidates(t', r.email)
            && LoginAt(c, t', Some(newId), r.password, later).reply == Ok(c.sign(newId))
    ensures (forall k :: k in t ==> t[k].email != r.username) ==>
              Candidates(Register(c, t, newId, r, salt, now).table, r.username) == {newId}
  {
  }

  /** The filter of login can match two different accounts of a consistent
      table: one by its email, another by its username. */
  lemma LoginMayMatchTwo()
    ensures var t := map[
              0 := NewAccount(0, "A", "ana", "x", "", "h0", 0),
              1 := NewAccount(1, "B", "x", "b@b", "", "h1", 0)];
            Consistent(t) && Candidates(t, "x") == {0, 1}
  {
  }

  // ---------------------------------------------------------------------- me

  /** The projection of GET /me's select. */
  function Project(a: Account): Profile
  {
    Profile(a.id, a.fullName, a.username, a.email, a.status)
  }

  /** GET /me after the middleware: `findById(...).select(...)`. */
  function Lookup(t: Table, id: Id): (r: Result<Profile, Error>)
    ensures r.Err? <==> id !in t
    ensures r.Err? ==> r.error == NotFound
    ensures r.Ok? ==> && r.value.id == t[id].id
                      && r.value.fullName == t[id].fullName
                      && r.value.username == t[id].username
                      && r.value.email == t[id].email
                      && r.value.status == t[id].status
  {
    if id in t then Ok(Project(t[id])) else Err(NotFound)
  }

  // -------------------------------------------------------------- set status

  /** PATCH /admin/users/:id/status: `findByIdAndUpdate(id, { status })`.
      An absent id changes nothing and is still answered with success. */
  function SetStatus(t: Table, id: Id, status: Status, now: Time): (s: Step<()>)
    ensures s.reply == Ok(())
    ensures s.table.Keys == t.Keys
    ensures forall k :: k in t && k != id ==> s.table[k] == t[k]
    ensures id in t ==> s.table[id] == t[id].(status := status, updatedAt := now)
  {
    if id in t then Step(t[id := t[id].(status := status, updatedAt := now)], Ok(()))
    else Step(t, Ok(()))
  }

  /** A second identical status request has the effect of one request made
      at its own time: table and reply alike. */
  lemma SetStatusIdempotent(t: Table, id: Id, status: Status, now: Time, later: Time)
    ensures SetStatus(SetStatus(t, id, status, now).table, id, status, later)
            == SetStatus(t, id, status, later)
  {
  }

  /** A status change keeps both unique indexes. */
  lemma SetStatusKeepsConsistent(t: Table, id: Id, status: Status, now: Time)
    requires Consistent(t)
    ensures Consistent(SetStatus(t, id, status, now).table)
  {
  }

  /** Once blocked, an account is refused at login whatever password is given. */
  lemma BlockThenLogin(c: Primitives, t: Table, k: Id, now: Time, password: string, later: Time)
    requires k in t
    ensures var t' := SetStatus(t, k, Blocked, now).table;
            LoginAt(c, t', Some(k), password, later) == Step(t', Err(AccountBlocked))
  {
  }

  // ------------------------------------------------------------------ delete

  /** DELETE /admin/users/:id: `findByIdAndDelete(id)`. An absent id changes
      nothing and is still answered with success. */
  function Delete(t: Table, id: Id): (s: Step<()>)
    ensures s.reply == Ok(())
    ensures s.table.Keys == t.Keys - {id}
    ensures forall k :: k in s.table ==> s.table[k] == t[k]
  {
    Step(t - {id}, Ok(()))
  }

  /** Deletion keeps both unique indexes. */
  lemma DeleteKeepsConsistent(t: Table, id: Id)
    requires Consistent(t)
    ensures Consistent(Delete(t, id).table)
  {
  }

  /** A token issued before a deletion still authenticates, but GET /me for
      it now answers "User not found". */
  lemma DeleteThenMe(c: Primitives, t: Table, id: Id, scheme: string)
    requires c.Sound() && ' ' !in scheme
    ensures Authenticate(c, Some(scheme + " " + c.sign(id))) == Ok(id)
    ensures Lookup(Delete(t, id).table, id) == Err(NotFound)
  {
  }

  // -------------------------------------------------------------------- edit

  /** PUT /admin/users/:id: refuse when another account has the new email or
      username; otherwise overwrite the four profile fields. For an absent id
      every stored account is "another" one, so the check can still refuse;
      when it passes, nothing changes. */
  function Edit(t: Table, id: Id, e: ProfileEdit, now: Time): (s: Step<()>)
    ensures s.reply.Err? <==> TakenByOther(t, id, e.username, e.email)
    ensures s.reply.Err? ==> s.reply.error == DuplicateIdentity
    ensures s.reply.Err? || id !in t ==> s.table == t
    ensures s.table.Keys == t.Keys
    ensures forall k :: k in t && k != id ==> s.table[k] == t[k]
    ensures s.reply.Ok? && id in t ==>
              var a, b := t[id], s.table[id];
              && b.fullName == e.fullName && b.username == e.username
              && b.email == e.email && b.phone == e.phone
              && b.updatedAt == now
              && b.id == a.id && b.password == a.password && b.status == a.status
              && b.lastLoginAt == a.lastLoginAt && b.createdAt == a.createdAt
  {
    if TakenByOther(t, id, e.username, e.email) then Step(t, Err(DuplicateIdentity))
    else if id in t then
      var a := t[id].(fullName := e.fullName, username := e.username, email := e.email,
                      phone := e.phone, updatedAt := now);
      Step(t[id := a], Ok(()))
    else Step(t, Ok(()))
  }

  /** An edit keeps both unique indexes. */
  lemma EditKeepsConsistent(t: Table, id: Id, e: ProfileEdit, now: Time)
    requires Consistent(t)
    ensures Consistent(Edit(t, id, e, now).table)
  {
  }

  /** Keeping an account's own username and email never counts as a duplicate. */
  lemma EditKeepingIdentity(t: Table, id: Id, e: ProfileEdit, now: Time)
    requires Consistent(t) && id in t
    requires e.username == t[id].username && e.email == t[id].email
    ensures Edit(t, id, e, now).reply == Ok(())
  {
  }
}
