/**
 The request handlers of the link-in-bio application over an in-memory store.
 The store holds the `user` and `link` tables as maps and the session's
 current user; each handler is a method that changes the store in place and
 returns a response code in place of a rendered page. A request either carries
 a submitted form (`Some(form)`) or does not (`None`, a plain page load).
 */
module App {
  import opened Wrappers
  import opened Models
  import Forms
  import Passwords

  /** The pages a handler redirects to. */
  datatype Target = Home | LoginPage | ProfilePage(username: string) | ManageLinksPage

  datatype Response =
    | Ok                                  // the page is rendered with its form
    | Listing(links: map<LinkId, Link>)   // the page is rendered showing these links
    | Redirect(to: Target)
    | NotFound
    | Unauthorized
    | BadCredentials
    | Conflict                            // the store refused to commit the new row

  /**
   The links owned by `owner`: the rows of `link` whose `user_id` is `owner`,
   each listed unchanged, and no other row.
   */
  function LinksOf(links: map<LinkId, Link>, owner: UserId): (r: map<LinkId, Link>)
    ensures forall id :: id in r ==> id in links && r[id] == links[id] && r[id].userId == owner
    ensures forall id :: id in links && links[id].userId == owner ==> id in r
  {
    map id | id in links && links[id].userId == owner :: links[id]
  }

  /** Every user's key is below `next`, and every user passed the registration form's checks. */
  ghost predicate UsersAdmitted(users: map<UserId, User>, next: UserId, isEmail: string -> bool) {
    0 < next &&
    forall id :: id in users ==>
      0 < id < next && Forms.UsernameValid(users[id].username) && Forms.EmailValid(users[id].email, isEmail)
  }

  /** Every link's key is below `next`, and every link passed the link form's checks. */
  ghost predicate LinksAdmitted(links: map<LinkId, Link>, next: LinkId, isUrl: string -> bool) {
    0 < next &&
    forall id :: id in links ==>
      0 < id < next && Forms.LinkNameValid(links[id].name) && Forms.LinkUrlValid(links[id].url, isUrl)
  }

  /** Replacing a link's name and url with ones that pass the link form keeps the invariants on links. */
  lemma EditKeepsInvariant(users: map<UserId, User>, links: map<LinkId, Link>, next: LinkId, isUrl: string -> bool,
                           id: LinkId, name: string, url: string)
    requires LinksWellFormed(users, links) && LinksAdmitted(links, next, isUrl) && id in links
    requires Forms.LinkNameValid(name) && Forms.LinkUrlValid(url, isUrl)
    ensures LinksWellFormed(users, links[id := links[id].(name := name, url := url)])
    ensures LinksAdmitted(links[id := links[id].(name := name, url := url)], next, isUrl)
  {
  }

  class Store {
    var users: map<UserId, User>
    var links: map<LinkId, Link>
    /** The user the session is logged in as, if any. */
    var currentUser: Option<UserId>
    /** The next primary key each table hands out. */
    var nextUserId: UserId
    var nextLinkId: LinkId

    /** The form library's `Email()` and `URL()` checks, and the password digest. */
    const isEmail: string -> bool
    const isUrl: string -> bool
    const digest: Passwords.Digest

    /**
     The schema's constraints hold, every key was handed out before, every row
     passed the form that created it, and the session names an existing user.
     */
    ghost predicate Valid()
      reads this
    {
      && WellFormed(users, links)
      && UsersAdmitted(users, nextUserId, isEmail)
      && LinksAdmitted(links, nextLinkId, isUrl)
      && (currentUser.Some? ==> currentUser.value in users)
    }

    /** An empty store with nobody logged in. */
    constructor (isEmail: string -> bool, isUrl: string -> bool, digest: Passwords.Digest)
      ensures Valid()
      ensures users == map[] && links == map[] && currentUser == None
      ensures this.isEmail == isEmail && this.isUrl == isUrl && this.digest == digest
    {
      users, links, currentUser := map[], map[], None;
      nextUserId, nextLinkId := 1, 1;
      this.isEmail, this.isUrl, this.digest := isEmail, isUrl, digest;
    }

    /**
     The row registration inserts: the form's username and email, and the
     salted hash of the password, which the form's password then checks against.
     */
    function NewUser(f: Forms.RegisterForm, salt: string): (u: User)
      ensures u.username == f.username && u.email == f.email
      ensures Passwords.Separator !in salt ==> Passwords.CheckPasswordHash(u.password, f.password, digest)
    {
      var u := User(f.username, f.email, Passwords.GeneratePasswordHash(f.password, salt, digest));
      if Passwords.Separator in salt then u
      else
        Passwords.CheckGenerated(f.password, f.password, salt, digest);
        u
    }

    /** Some user has this email and `password` checks against that user's stored hash. */
    ghost function CredentialsMatch(email: string, password: string): (r: bool)
      reads this
      ensures r ==> EmailTaken(users, email)
    {
      exists id :: id in users && users[id].email == email
        && Passwords.CheckPasswordHash(users[id].password, password, digest)
    }

    /** The first user with this email, if any. */
    method UserByEmail(email: string) returns (r: Option<UserId>)
      ensures r.Some? ==> r.value in users && users[r.value].email == email
      ensures r.None? <==> !EmailTaken(users, email)
    {
      if id :| id in users && users[id].email == email {
        r := Some(id);
      } else {
        r := None;
      }
    }

    /** The first user with this username, if any. */
    method UserByUsername(username: string) returns (r: Option<UserId>)
      ensures r.Some? ==> r.value in users && users[r.value].username == username
      ensures r.None? <==> !UsernameTaken(users, username)
    {
      if id :| id in users && users[id].username == username {
        r := Some(id);
      } else {
        r := None;
      }
    }

    /**
     Registration. A valid form inserts one user under a fresh key, with the
     hash of the password in place of the password; the session and the links
     are untouched and nobody is logged in by it. The handler itself does not
     look for a taken username or email: the unique columns make the commit
     fail, and then nothing changes.
     */
    method Register(form: Option<Forms.RegisterForm>, salt: string) returns (res: Response)
      requires Valid()
      requires Passwords.Separator !in salt
      modifies this`users, this`nextUserId
      ensures Valid()
      ensures res == Ok <==> !(form.Some? && Forms.RegisterValid(form.value, isEmail))
      ensures res == Redirect(LoginPage) <==>
        form.Some? && Forms.RegisterValid(form.value, isEmail) && CanInsertUser(old(users), NewUser(form.value, salt))
      ensures res == Ok || res == Redirect(LoginPage) || res == Conflict
      ensures res == Redirect(LoginPage) ==>
        && old(nextUserId) !in old(users)
        && users == old(users)[old(nextUserId) := NewUser(form.value, salt)]
      ensures res != Redirect(LoginPage) ==> users == old(users) && nextUserId == old(nextUserId)
    {
      if form.Some? && Forms.RegisterValid(form.value, isEmail) {
        var u := NewUser(form.value, salt);
        var usernameTaken := UserByUsername(u.username);
        var emailTaken := UserByEmail(u.email);
        if usernameTaken.None? && emailTaken.None? && UserFits(u) {
          InsertUserKeepsWellFormed(users, links, nextUserId, u);
          users := users[nextUserId := u];
          nextUserId := nextUserId + 1;
          res := Redirect(LoginPage);
        } else {
          res := Conflict;
        }
      } else {
        res := Ok;
      }
    }

    /**
     Login. With a valid form it succeeds exactly when a user has the given
     email and the password checks against that user's hash; success logs that
     user in and redirects to their profile, failure leaves the session alone.
     Stored data never changes.
     */
    method Login(form: Option<Forms.LoginForm>) returns (res: Response)
      requires Valid()
      modifies this`currentUser
      ensures Valid()
      ensures res == Ok <==> !(form.Some? && Forms.LoginValid(form.value, isEmail))
      ensures form.Some? && Forms.LoginValid(form.value, isEmail) ==>
        (res.Redirect? <==> CredentialsMatch(form.value.email, form.value.password))
      ensures res.Redirect? ==>
        && currentUser.Some? && currentUser.value in users && users[currentUser.value].email == form.value.email
        && res == Redirect(ProfilePage(users[currentUser.value].username))
        && Passwords.CheckPasswordHash(users[currentUser.value].password, form.value.password, digest)
      ensures !res.Redirect? ==> currentUser == old(currentUser)
      ensures res == Ok || res.Redirect? || res == BadCredentials
    {
      if form.Some? && Forms.LoginValid(form.value, isEmail) {
        var found := UserByEmail(form.value.email);
        if found.Some? && Passwords.CheckPasswordHash(users[found.value].password, form.value.password, digest) {
          currentUser := found;
          res := Redirect(ProfilePage(users[found.value].username));
        } else {
          res := BadCredentials;
        }
      } else {
        res := Ok;
      }
    }

    /** Logout ends the session; logged out, it sends to the login page. Stored data never changes. */
    method Logout() returns (res: Response)
      requires Valid()
      modifies this`currentUser
      ensures Valid()
      ensures currentUser == None
      ensures res == if old(currentUser).Some? then Redirect(Home) else Redirect(LoginPage)
    {
      if currentUser.None? {
        res := Redirect(LoginPage);
      } else {
        currentUser := None;
        res := Redirect(Home);
      }
    }

    /**
     The public profile: not found when no user has the username, otherwise
     exactly the links that user owns. Needs no session.
     */
    method Profile(username: string) returns (res: Response)
      ensures res == NotFound <==> !UsernameTaken(users, username)
      ensures res != NotFound ==>
        exists id :: id in users && users[id].username == username && res == Listing(LinksOf(links, id))
    {
      var found := UserByUsername(username);
      if found.None? {
        res := NotFound;
      } else {
        res := Listing(LinksOf(links, found.value));
      }
    }

    /**
     Adding and listing one's links. A valid form adds one link under a fresh
     key, owned by the current user; otherwise the page lists exactly the
     current user's links. Needs a session.
     */
    method ManageLinks(form: Option<Forms.LinkForm>) returns (res: Response)
      requires Valid()
      modifies this`links, this`nextLinkId
      ensures Valid()
      ensures currentUser.None? ==> res == Redirect(LoginPage)
      ensures currentUser.Some? && form.Some? && Forms.LinkValid(form.value, isUrl) ==>
        && res == Redirect(ManageLinksPage)
        && old(nextLinkId) !in old(links)
        && links == old(links)[old(nextLinkId) := Link(form.value.name, form.value.url, currentUser.value)]
      ensures currentUser.Some? && !(form.Some? && Forms.LinkValid(form.value, isUrl)) ==>
        res == Listing(LinksOf(links, currentUser.value))
      ensures res != Redirect(ManageLinksPage) ==> links == old(links) && nextLinkId == old(nextLinkId)
    {
      if currentUser.None? {
        res := Redirect(LoginPage);
      } else if form.Some? && Forms.LinkValid(form.value, isUrl) {
        links := links[nextLinkId := Link(form.value.name, form.value.url, currentUser.value)];
        nextLinkId := nextLinkId + 1;
        res := Redirect(ManageLinksPage);
      } else {
        res := Listing(LinksOf(links, currentUser.value));
      }
    }

    /**
     Editing a link. A missing link is not found; a link of someone else is
     refused and nothing changes; the owner's valid form replaces that link's
     name and url and nothing else; otherwise the page shows the link.
     Needs a session.
     */
    method EditLink(linkId: LinkId, form: Option<Forms.LinkForm>) returns (res: Response)
      requires Valid()
      modifies this`links
      ensures Valid()
      ensures currentUser.None? ==> res == Redirect(LoginPage)
      ensures currentUser.Some? && linkId !in old(links) ==> res == NotFound
      ensures currentUser.Some? && linkId in old(links) && old(links)[linkId].userId != currentUser.value ==>
        res == Unauthorized
      ensures currentUser.Some? && linkId in old(links) && old(links)[linkId].userId == currentUser.value
              && form.Some? && Forms.LinkValid(form.value, isUrl) ==>
        && res == Redirect(ManageLinksPage)
        && links == old(links)[linkId := old(links)[linkId].(name := form.value.name, url := form.value.url)]
      ensures currentUser.Some? && linkId in old(links) && old(links)[linkId].userId == currentUser.value
              && !(form.Some? && Forms.LinkValid(form.value, isUrl)) ==>
        res == Listing(map[linkId := old(links)[linkId]])
      ensures res != Redirect(ManageLinksPage) ==> links == old(links)
    {
      if currentUser.None? {
        res := Redirect(LoginPage);
      } else if linkId !in links {
        res := NotFound;
      } else if links[linkId].userId != currentUser.value {
        res := Unauthorized;
      } else if form.Some? && Forms.LinkValid(form.value, isUrl) {
        EditKeepsInvariant(users, links, nextLinkId, isUrl, linkId, form.value.name, form.value.url);
        links := links[linkId := links[linkId].(name := form.value.name, url := form.value.url)];
        res := Redirect(ManageLinksPage);
      } else {
        res := Listing(map[linkId := links[linkId]]);
      }
    }

    /**
     Deleting a link. A missing link is not found; a link of someone else is
     refused and nothing changes; the owner's link, and only it, is removed.
     Needs a session.
     */
    method DeleteLink(linkId: LinkId) returns (res: Response)
      requires Valid()
      modifies this`links
      ensures Valid()
      ensures currentUser.None? ==> res == Redirect(LoginPage)
      ensures currentUser.Some? && linkId !in old(links) ==> res == NotFound
      ensures currentUser.Some? && linkId in old(links) && old(links)[linkId].userId != currentUser.value ==>
        res == Unauthorized
      ensures currentUser.Some? && linkId in old(links) && old(links)[linkId].userId == currentUser.value ==>
        res == Redirect(ManageLinksPage) && links == old(links) - {linkId}
      ensures res != Redirect(ManageLinksPage) ==> links == old(links)
    {
      if currentUser.None? {
        res := Redirect(LoginPage);
      } else if linkId !in links {
        res := NotFound;
      } else if links[linkId].userId != currentUser.value {
        res := Unauthorized;
      } else {
        links := links - {linkId};
        res := Redirect(ManageLinksPage);
      }
    }
  }
}
