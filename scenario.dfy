/**
 A client of the store: the walk-through the application is meant to support,
 checked against the handlers' contracts alone. Alice registers, logs in,
 sees an empty profile, adds a link that then appears in her listing and on
 her profile; Bob registers, logs in, and may neither edit nor delete it;
 an unknown profile is not found.
 */
module Scenario {
  import opened Wrappers
  import opened Models
  import Forms
  import Passwords
  import opened App
  import Listings

  /** A newcomer registers with a free username and email, then logs in. */
  method SignUp(store: Store, username: string, email: string, password: string, salt: string)
      returns (id: UserId)
    requires store.Valid() && store.isEmail(email)
    requires Forms.UsernameValid(username) && Forms.NewPasswordValid(password) && Forms.DataRequired(email)
    requires |email| <= EmailWidth
    requires Passwords.Separator !in salt && |salt| <= 16
    requires |store.digest(Passwords.Method, salt, password)| <= 64
    requires !UsernameTaken(store.users, username) && !EmailTaken(store.users, email)
    modifies store
    ensures store.Valid() && store.links == old(store.links)
    ensures id !in old(store.users) && id in store.users && store.users[id].username == username
    ensures store.users.Keys == old(store.users).Keys + {id} && store.users[id].email == email
    ensures store.currentUser == Some(id)
  {
    var form := Forms.RegisterForm(username, email, password, password);
    assert Forms.RegisterValid(form, store.isEmail);
    var hash := Passwords.GeneratePasswordHash(password, salt, store.digest);
    assert |hash| <= PasswordWidth;
    assert CanInsertUser(store.users, store.NewUser(form, salt));
    id := store.nextUserId;
    var r := store.Register(Some(form), salt);
    assert store.users[id] == User(username, email, hash);

    Passwords.CheckGenerated(password, password, salt, store.digest);
    assert Passwords.CheckPasswordHash(store.users[id].password, password, store.digest);
    assert store.CredentialsMatch(email, password);
    r := store.Login(Some(Forms.LoginForm(email, password, false)));
    assert WellFormed(store.users, store.links);
  }

  /** On an empty store no profile exists; Alice signs up, and her profile shows no links. */
  method AliceSignsUp(store: Store) returns (alice: UserId)
    requires store.Valid() && store.users == map[] && store.links == map[]
    requires store.isEmail("alice@x.com")
    requires |store.digest(Passwords.Method, "saltA", "secret1")| <= 64
    modifies store
    ensures store.Valid() && store.users.Keys == {alice}
    ensures store.users[alice].username == "alice" && store.users[alice].email == "alice@x.com"
    ensures store.links == map[] && store.currentUser == Some(alice)
  {
    var r := store.Profile("nonexistent");
    assert r == NotFound;

    assert !Forms.IsSpace("alice"[0]) && !Forms.IsSpace("alice@x.com"[0]) && !Forms.IsSpace("secret1"[0]);
    alice := SignUp(store, "alice", "alice@x.com", "secret1", "saltA");
    r := store.Profile("alice");
    assert LinksOf(map[], alice) == map[];
    assert r == Listing(map[]);
  }

  /** Alice adds a link; her listing and her profile then show it. */
  method AliceAddsBlog(store: Store, alice: UserId) returns (blogId: LinkId)
    requires store.Valid() && store.users.Keys == {alice} && store.users[alice].username == "alice"
    requires store.links == map[] && store.currentUser == Some(alice)
    requires store.isUrl("https://alice.dev")
    modifies store
    ensures store.Valid() && store.users == old(store.users) && store.currentUser == Some(alice)
    ensures store.links == map[blogId := Link("Blog", "https://alice.dev", alice)]
  {
    assert !Forms.IsSpace("Blog"[0]) && !Forms.IsSpace("https://alice.dev"[0]);
    var blog := Link("Blog", "https://alice.dev", alice);
    blogId := store.nextLinkId;
    var r := store.ManageLinks(Some(Forms.LinkForm("Blog", "https://alice.dev")));
    assert store.links == map[][blogId := blog];
    Listings.ListingAfterAdd(map[], blogId, blog, alice);
    r := store.ManageLinks(None);
    assert r == Listing(map[blogId := blog]);
    r := store.Profile("alice");
    assert r == Listing(map[blogId := blog]);
  }

  /** Alice logs out; the link page then sends to the login page. */
  method AliceLogsOut(store: Store)
    requires store.Valid() && store.currentUser.Some?
    modifies store
    ensures store.Valid() && store.users == old(store.users) && store.links == old(store.links)
    ensures store.currentUser == None
  {
    var r := store.Logout();
    assert r == Redirect(Home);
    r := store.ManageLinks(None);
    assert r == Redirect(LoginPage);
  }

  /** Bob signs up next to Alice. */
  method BobSignsUp(store: Store, alice: UserId) returns (bob: UserId)
    requires store.Valid() && store.users.Keys == {alice}
    requires store.users[alice].username == "alice" && store.users[alice].email == "alice@x.com"
    requires store.isEmail("bob@x.com")
    requires |store.digest(Passwords.Method, "saltB", "secret2")| <= 64
    modifies store
    ensures store.Valid() && store.links == old(store.links)
    ensures store.currentUser == Some(bob) && bob != alice
  {
    assert !Forms.IsSpace("bob"[0]) && !Forms.IsSpace("bob@x.com"[0]) && !Forms.IsSpace("secret2"[0]);
    bob := SignUp(store, "bob", "bob@x.com", "secret2", "saltB");
  }

  /** Bob may not edit Alice's link, and it stays as it was. */
  method BobCannotEdit(store: Store, alice: UserId, bob: UserId, blogId: LinkId)
    requires store.Valid() && store.currentUser == Some(bob) && bob != alice
    requires store.links == map[blogId := Link("Blog", "https://alice.dev", alice)]
    modifies store
    ensures store.Valid() && store.currentUser == Some(bob) && store.links == old(store.links)
  {
    var r := store.EditLink(blogId, Some(Forms.LinkForm("Blog", "https://bob.dev")));
    assert r == Unauthorized;
  }

  /** Bob may not delete Alice's link, and it stays as it was. */
  method BobCannotDelete(store: Store, alice: UserId, bob: UserId, blogId: LinkId)
    requires store.Valid() && store.currentUser == Some(bob) && bob != alice
    requires store.links == map[blogId := Link("Blog", "https://alice.dev", alice)]
    modifies store
    ensures store.links == old(store.links)
  {
    var r := store.DeleteLink(blogId);
    assert r == Unauthorized;
  }

  /** The whole walk-through, from an empty store. */
  method AliceAndBob(isEmail: string -> bool, isUrl: string -> bool, digest: Passwords.Digest)
    requires isEmail("alice@x.com") && isEmail("bob@x.com") && isUrl("https://alice.dev")
    requires |digest(Passwords.Method, "saltA", "secret1")| <= 64
    requires |digest(Passwords.Method, "saltB", "secret2")| <= 64
  {
    var store := new Store(isEmail, isUrl, digest);
    var alice := AliceSignsUp(store);
    var blogId := AliceAddsBlog(store, alice);
    AliceLogsOut(store);
    var bob := BobSignsUp(store, alice);
    BobCannotEdit(store, alice, bob, blogId);
    BobCannotDelete(store, alice, bob, blogId);
    assert store.links[blogId] == Link("Blog", "https://alice.dev", alice);
  }
}
