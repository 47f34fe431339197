/** The Express handlers of backend/index.js as methods of one object that
    owns the `users` collection. Each method performs the handler's steps in
    order (the duplicate or identity lookup, the checks, the write) and is
    proved to leave the collection as the matching function of Lifecycle
    says, and to keep the schema's unique indexes. */
module Service {
  import opened Wrappers
  import opened UserModel
  import opened Crypto
  import opened ApiError
  import opened Auth
  import Lifecycle
  import Listing

  class AccountService {
    /** bcrypt and the JWT signer with its process-wide secret. */
    const crypto: Primitives
    /** The `users` collection, by `_id`. */
    var accounts: Table
    /** The next `_id` the store will hand out. */
    var nextId: Id

    /** The schema's guarantees hold, the primitives keep their contract, and
        every stored `_id` was handed out already. */
    ghost predicate Valid()
      reads this
    {
      && crypto.Sound()
      && Consistent(accounts)
      && (forall k :: k in accounts ==> k < nextId)
    }

    /** An empty collection served with the given primitives. */
    constructor (crypto: Primitives)
      requires crypto.Sound()
      ensures Valid()
      ensures this.crypto == crypto && accounts == map[] && nextId == 0
    {
      this.crypto := crypto;
      accounts := map[];
      nextId := 0;
    }

    /** POST /register. */
    method Register(r: Lifecycle.Registration, salt: nat, now: Time) returns (reply: Result<(), Error>)
      requires Valid()
      modifies this
      ensures Valid()
      ensures nextId >= old(nextId)
      ensures var s := Lifecycle.Register(crypto, old(accounts), old(nextId), r, salt, now);
              accounts == s.table && reply == s.reply
    {
      if Lifecycle.Taken(accounts, r.username, r.email) {
        return Err(DuplicateIdentity);
      }
      var hash := crypto.hash(r.password, salt);
      var id := nextId;
      accounts := accounts[id := NewAccount(id, r.fullName, r.username, r.email, r.phone, hash, now)];
      nextId := nextId + 1;
      reply := Ok(());
    }

    /** POST /login. `found` is the account `findOne` answered with: one of
        the accounts whose email or username is `login`, chosen by the store. */
    method Login(login: string, password: string, now: Time)
      returns (reply: Result<string, Error>, ghost found: Option<Id>)
      requires Valid()
      modifies this
      ensures Valid()
      ensures nextId == old(nextId)
      ensures found.None? <==> Lifecycle.Candidates(old(accounts), login) == {}
      ensures found.Some? ==> found.value in Lifecycle.Candidates(old(accounts), login)
      ensures var s := Lifecycle.LoginAt(crypto, old(accounts), found, password, now);
              accounts == s.table && reply == s.reply
    {
      var matches := set k | k in accounts && Lifecycle.Identifies(accounts[k], login);
      if matches == {} {
        found := None;
        return Err(InvalidCredentials), found;
      }
      var k :| k in matches;
      found := Some(k);
      var user := accounts[k];
      if user.status.Blocked? {
        return Err(AccountBlocked), found;
      }
      var ok := crypto.verify(password, user.password);
      if !ok {
        return Err(InvalidCredentials), found;
      }
      accounts := accounts[k := Lifecycle.Stamped(user, now)];
      reply := Ok(crypto.sign(k));
    }

    /** GET /me: the middleware, then `findById(id).select(...)`. */
    method Me(authorization: Option<string>) returns (reply: Result<Lifecycle.Profile, Error>)
      ensures Authenticate(crypto, authorization).Err? ==>
                reply == Err(Authenticate(crypto, authorization).error)
      ensures Authenticate(crypto, authorization).Ok? ==>
                reply == Lifecycle.Lookup(accounts, Authenticate(crypto, authorization).value)
    {
      var who := Authenticate(crypto, authorization);
      if who.Err? {
        return Err(who.error);
      }
      var id := who.value;
      if id !in accounts {
        return Err(NotFound);
      }
      reply := Ok(Lifecycle.Project(accounts[id]));
    }

    /** GET /admin/users: every account, newest first. */
    method List() returns (rows: seq<Account>)
      requires Valid()
      ensures Listing.NewestFirst(rows)
      ensures Listing.DistinctIds(rows)
      ensures forall i :: 0 <= i < |rows| ==> rows[i].id in accounts && accounts[rows[i].id] == rows[i]
      ensures forall k :: k in accounts ==> accounts[k] in rows
    {
      rows := Listing.ListAll(accounts, nextId);
    }

    /** PATCH /admin/users/:id/status. */
    method SetStatus(id: Id, status: Status, now: Time) returns (reply: Result<(), Error>)
      requires Valid()
      modifies this
      ensures Valid()
      ensures nextId == old(nextId)
      ensures var s := Lifecycle.SetStatus(old(accounts), id, status, now);
              accounts == s.table && reply == s.reply
    {
      if id in accounts {
        accounts := accounts[id := accounts[id].(status := status, updatedAt := now)];
      }
      reply := Ok(());
    }

    /** DELETE /admin/users/:id. */
    method Delete(id: Id) returns (reply: Result<(), Error>)
      requires Valid()
      modifies this
      ensures Valid()
      ensures nextId == old(nextId)
      ensures var s := Lifecycle.Delete(old(accounts), id);
              accounts == s.table && reply == s.reply
    {
      accounts := accounts - {id};
      reply := Ok(());
    }

    /** PUT /admin/users/:id. */
    method Edit(id: Id, e: Lifecycle.ProfileEdit, now: Time) returns (reply: Result<(), Error>)
      requires Valid()
      modifies this
      ensures Valid()
      ensures nextId == old(nextId)
      ensures var s := Lifecycle.Edit(old(accounts), id, e, now);
              accounts == s.table && reply == s.reply
    {
      if Lifecycle.TakenByOther(accounts, id, e.username, e.email) {
        return Err(DuplicateIdentity);
      }
      if id in accounts {
        var user := accounts[id];
        accounts := accounts[id := user.(fullName := e.fullName, username := e.username,
                                         email := e.email, phone := e.phone, updatedAt := now)];
      }
      reply := Ok(());
    }
  }
}
