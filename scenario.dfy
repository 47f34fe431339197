/** A client of AccountService: one account's life from registration to
    deletion, with what each reply must be, derived from the methods'
    contracts alone. */
module Scenario {
  import opened Wrappers
  import opened UserModel
  import opened Crypto
  import opened ApiError
  import opened Auth
  import Lifecycle
  import opened Service

  method AccountLife(crypto: Primitives, salt: nat)
    requires crypto.Sound()
  {
    var service := new AccountService(crypto);
    var ana := Lifecycle.Registration("Ana Lee", "ana", "ana@x.com", "555", "Secret1");
    var ack := service.Register(ana, salt, 1);
    assert ack == Ok(());
    var id := 0;
    assert service.accounts.Keys == {id};

    // Same username, another email: a duplicate, and nothing changes.
    ack := service.Register(ana.(email := "ana2@x.com"), salt, 2);
    assert ack == Err(DuplicateIdentity);

    // Logging in by username finds the one account and returns its token.
    var reply;
    ghost var found;
    assert Lifecycle.Candidates(service.accounts, "ana") == {id};
    reply, found := service.Login("ana", "Secret1", 3);
    assert found == Some(id);
    assert reply == Ok(crypto.sign(id));

    // The token authenticates as the account; /me shows its profile.
    var me := service.Me(Some("Bearer " + reply.value));
    assert me == Ok(Lifecycle.Profile(id, "Ana Lee", "ana", "ana@x.com", Active));

    // Blocked: the right password no longer yields a token.
    ack := service.SetStatus(id, Blocked, 4);
    assert Lifecycle.Candidates(service.accounts, "ana") == {id};
    reply, found := service.Login("ana", "Secret1", 5);
    assert found == Some(id);
    assert reply == Err(AccountBlocked);

    // Deleted: the old token still decodes, but /me finds nobody.
    ack := service.Delete(id);
    me := service.Me(Some("Bearer " + crypto.sign(id)));
    assert me == Err(NotFound);
  }
}
