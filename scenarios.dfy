/** Client runs against a fresh database, stating what a caller observes from
    the handlers' contracts alone. */
module Scenarios {
  import opened Http
  import opened Tables
  import opened Crypto
  import opened Auth
  import opened Api

  /** Registers `cred` on `store` and logs in; returns the cookies of the session. */
  method SignUp(store: Store, cred: Credentials, salt: string, ts: TokenService, hasher: PasswordHasher)
    returns (cookies: map<string, string>)
    requires store.Valid()
    requires IssuedTokensDecode(ts) && VerifiesOwnHash(hasher)
    requires cred.email != ""
    requires forall u :: u in store.users ==> u.email != cred.email
    modifies store
    ensures store.Valid()
    ensures store.resumes == old(store.resumes)
    ensures store.users == WithUser(old(store.users), cred.email, hasher.hash(cred.password, salt))
    ensures Authenticate(store.users, cookies, ts) == Ok(User(|old(store.users)| + 1, cred.email, hasher.hash(cred.password, salt)))
  {
    var _ := store.Register(cred, salt, hasher);
    WithUserKeepsValid(old(store.users), cred.email, hasher.hash(cred.password, salt));
    RegisterThenLogin(old(store.users), cred, salt, ts, hasher);
    var session := Login(store.users, cred, ts, hasher);
    LoginCookieAuthenticates(store.users, cred, ts, hasher);
    cookies := map[AccessCookie := session.value.cookie.value];
  }

  const Alice := Credentials("alice@example.com", "alice-password")
  const Bob := Credentials("bob@example.com", "bob-password")

  /** Registering the same email twice: the second call is refused with 400 and
      the users table keeps exactly one row. */
  method RegisterTwice(hasher: PasswordHasher) returns (first: Reply<()>, second: Reply<()>, userCount: nat)
    ensures first == Ok(()) && second == Err(EmailTaken)
    ensures second.error.Status() == 400
    ensures userCount == 1
  {
    var store := new Store();
    first := store.Register(Alice, "salt-1", hasher);
    second := store.Register(Alice, "salt-2", hasher);
    userCount := |store.users|;
  }

  /** A resume created with a title and context is read back unchanged, with the
      first rowid and the creator as owner. */
  method CreateThenGet(ts: TokenService, hasher: PasswordHasher) returns (got: Reply<Resume>)
    requires IssuedTokensDecode(ts) && VerifiesOwnHash(hasher)
    ensures got == Ok(Resume(1, "T", "C", 1))
  {
    var store := new Store();
    var alice := SignUp(store, Alice, "salt", ts, hasher);
    var _ := store.AddResume(alice, ts, ResumeForm("T", "C"));
    got := store.GetResume(alice, ts, 1);
  }

  /** Improving twice appends the marker twice. */
  method ImproveTwice(ts: TokenService, hasher: PasswordHasher) returns (first: Reply<string>, second: Reply<string>)
    requires IssuedTokensDecode(ts) && VerifiesOwnHash(hasher)
    ensures first == Ok("hi [Improved]")
    ensures second == Ok("hi [Improved] [Improved]")
  {
    var store := new Store();
    var alice := SignUp(store, Alice, "salt", ts, hasher);
    var _ := store.AddResume(alice, ts, ResumeForm("CV", "hi"));
    first := store.ImproveResume(alice, ts, 1);
    assert "hi" + ImprovedMarker == "hi [Improved]";
    second := store.ImproveResume(alice, ts, 1);
    assert "hi [Improved]" + ImprovedMarker == "hi [Improved] [Improved]";
  }

  /** Another user's resume is invisible: every owner-scoped route answers 404,
      the listing is empty, and the owner still reads the resume unchanged. */
  method OtherUserSeesNotFound(ts: TokenService, hasher: PasswordHasher)
    returns (got: Reply<Resume>, updated: Reply<()>, deleted: Reply<()>, improved: Reply<string>,
             listed: Reply<seq<Resume>>, kept: Reply<Resume>)
    requires IssuedTokensDecode(ts) && VerifiesOwnHash(hasher)
    ensures got == Err(NotFound) && updated == Err(NotFound)
    ensures deleted == Err(NotFound) && improved == Err(NotFound)
    ensures got.error.Status() == 404
    ensures listed == Ok([])
    ensures kept == Ok(Resume(1, "T", "C", 1))
  {
    var store := new Store();
    var alice := SignUp(store, Alice, "salt-a", ts, hasher);
    var _ := store.AddResume(alice, ts, ResumeForm("T", "C"));
    ghost var aliceRow := store.users[0];
    var bob := SignUp(store, Bob, "salt-b", ts, hasher);
    ghost var row := Resume(1, "T", "C", 1);
    assert store.resumes == [row];
    assert Authenticate(store.users, bob, ts).value.id == 2;
    assert FindOwnedResume(store.resumes, 1, 2) == None;
    got := store.GetResume(bob, ts, 1);
    updated := store.UpdateResume(bob, ts, 1, ResumeForm("X", "Y"));
    assert store.resumes == [row];
    deleted := store.DeleteResume(bob, ts, 1);
    assert store.resumes == [row];
    improved := store.ImproveResume(bob, ts, 1);
    assert store.resumes == [row];
    listed := store.ListResumes(bob, ts);
    assert store.users[0] == aliceRow;
    assert Authenticate(store.users, alice, ts) == Ok(aliceRow);
    kept := store.GetResume(alice, ts, 1);
  }

  /** The rowid of a deleted newest resume is given to the next resume created,
      as SQLite does for a table without AUTOINCREMENT. */
  method DeletedNewestIdIsReused(ts: TokenService, hasher: PasswordHasher) returns (deleted: Reply<()>, got: Reply<Resume>)
    requires IssuedTokensDecode(ts) && VerifiesOwnHash(hasher)
    ensures deleted == Ok(())
    ensures got == Ok(Resume(1, "New", "fresh", 1))
  {
    var store := new Store();
    var alice := SignUp(store, Alice, "salt", ts, hasher);
    var _ := store.AddResume(alice, ts, ResumeForm("Old", "stale"));
    deleted := store.DeleteResume(alice, ts, 1);
    var _ := store.AddResume(alice, ts, ResumeForm("New", "fresh"));
    got := store.GetResume(alice, ts, 1);
  }
}
