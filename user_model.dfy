/** The `User` record of backend/models/User.js: the stored fields, the
    `status` enum with its default, the `lastLoginAt` default, the automatic
    timestamps, and the two unique indexes (username, email). */
module UserModel {
  import opened Wrappers

  /** A document `_id`. The store hands out fresh ones; here they are naturals. */
  type Id = nat

  /** A point in time (the `Date` values of the schema), as a natural number. */
  type Time = nat

  /** The `status` enum: only "active" and "blocked" are allowed values. */
  datatype Status = Active | Blocked

  /** The string the schema stores and the JSON carries for a status. */
  function StatusName(s: Status): string
  {
    match s
    case Active => "active"
    case Blocked => "blocked"
  }

  /** The enum validator: which strings are statuses at all, and which. */
  function ParseStatus(name: string): (r: Option<Status>)
    ensures r.Some? ==> StatusName(r.value) == name
    ensures r.None? ==> forall s: Status :: StatusName(s) != name
  {
    if name == "active" then Some(Active)
    else if name == "blocked" then Some(Blocked)
    else None
  }

  /** Every status is written as a string the enum validator accepts, and it
      reads back as the same status. */
  lemma StatusNameRoundTrip(s: Status)
    ensures ParseStatus(StatusName(s)) == Some(s)
  {
  }

  /** One stored account. `password` holds the bcrypt hash, never the plain
      text; `lastLoginAt` is null until the first successful login;
      `createdAt`/`updatedAt` are the schema's automatic timestamps. */
  datatype Account = Account(
    id: Id,
    fullName: string,
    username: string,
    email: string,
    phone: string,
    password: string,
    status: Status,
    lastLoginAt: Option<Time>,
    createdAt: Time,
    updatedAt: Time)

  /** A freshly created document: the given fields, the schema defaults for
      `status` and `lastLoginAt`, and both timestamps set to the creation time. */
  function NewAccount(id: Id, fullName: string, username: string, email: string,
                      phone: string, passwordHash: string, now: Time): Account
  {
    Account(id, fullName, username, email, phone, passwordHash, Active, None, now, now)
  }

  /** The collection, keyed by `_id`. */
  type Table = map<Id, Account>

  /** Every document is stored under its own `_id`. */
  ghost predicate KeyedById(t: Table)
  {
    forall k :: k in t ==> t[k].id == k
  }

  /** The unique index on `username`. */
  ghost predicate UniqueUsernames(t: Table)
  {
    forall j, k :: j in t && k in t && t[j].username == t[k].username ==> j == k
  }

  /** The unique index on `email`. */
  ghost predicate UniqueEmails(t: Table)
  {
    forall j, k :: j in t && k in t && t[j].email == t[k].email ==> j == k
  }

  /** What the schema guarantees of the whole collection at all times. */
  ghost predicate Consistent(t: Table)
  {
    KeyedById(t) && UniqueUsernames(t) && UniqueEmails(t)
  }
}
