/**
 The two tables of the link-in-bio store, `user` and `link`, as rows, and the
 column constraints the schema declares for them: the widths of the string
 columns, the unique username and email, and the link's foreign key to its
 owner. The tables themselves are maps from primary key to row, so primary keys
 are unique by construction.
 */
module Models {

  type UserId = nat
  type LinkId = nat

  /** A row of the `user` table. `password` holds the password hash, never the plaintext. */
  datatype User = User(username: string, email: string, password: string)

  /** A row of the `link` table. `userId` is the owner. */
  datatype Link = Link(name: string, url: string, userId: UserId)

  // Declared widths of the string columns.
  const UsernameWidth: nat := 80
  const EmailWidth: nat := 120
  const PasswordWidth: nat := 200
  const NameWidth: nat := 150
  const UrlWidth: nat := 300

  /** The user row fits the declared widths of its columns. */
  predicate UserFits(u: User) {
    |u.username| <= UsernameWidth && |u.email| <= EmailWidth && |u.password| <= PasswordWidth
  }

  /** The link row fits the declared widths of its columns. */
  predicate LinkFits(l: Link) {
    |l.name| <= NameWidth && |l.url| <= UrlWidth
  }

  /** Some user already has this username. */
  predicate UsernameTaken(users: map<UserId, User>, username: string) {
    exists id :: id in users && users[id].username == username
  }

  /** Some user already has this email. */
  predicate EmailTaken(users: map<UserId, User>, email: string) {
    exists id :: id in users && users[id].email == email
  }

  /** No two users share a username, and no two share an email. */
  ghost predicate UniqueColumns(users: map<UserId, User>) {
    forall a, b :: a in users && b in users && a != b ==>
      users[a].username != users[b].username && users[a].email != users[b].email
  }

  /** The `user` table's constraints: declared widths and unique columns. */
  ghost predicate UsersWellFormed(users: map<UserId, User>) {
    (forall id :: id in users ==> UserFits(users[id])) && UniqueColumns(users)
  }

  /** The `link` table's constraints: declared widths, and every link refers to an existing user. */
  ghost predicate LinksWellFormed(users: map<UserId, User>, links: map<LinkId, Link>) {
    forall id :: id in links ==> LinkFits(links[id]) && links[id].userId in users
  }

  /**
   The schema's constraints hold of both tables. Then an email, and likewise a
   username, identifies at most one user.
   */
  ghost function WellFormed(users: map<UserId, User>, links: map<LinkId, Link>): (r: bool)
    ensures r ==> forall a, b :: a in users && b in users && users[a].email == users[b].email ==> a == b
    ensures r ==> forall a, b :: a in users && b in users && users[a].username == users[b].username ==> a == b
  {
    UsersWellFormed(users) && LinksWellFormed(users, links)
  }

  /**
   What the store checks when a new user row is committed: the unique columns
   are not yet taken and the row fits the declared widths. An admitted row
   always fits.
   */
  function CanInsertUser(users: map<UserId, User>, u: User): (r: bool)
    ensures r ==> |u.username| <= UsernameWidth && |u.email| <= EmailWidth && |u.password| <= PasswordWidth
  {
    !UsernameTaken(users, u.username) && !EmailTaken(users, u.email) && UserFits(u)
  }

  /** Inserting a user the store admits, under a fresh key, keeps the schema's constraints. */
  lemma InsertUserKeepsWellFormed(users: map<UserId, User>, links: map<LinkId, Link>, id: UserId, u: User)
    requires WellFormed(users, links)
    requires id !in users
    requires CanInsertUser(users, u)
    ensures WellFormed(users[id := u], links)
  {
  }

  /** A uniqueness violation on insert: the store refuses a second user with a taken username or email. */
  lemma TakenIsRefused(users: map<UserId, User>, u: User, other: UserId)
    requires other in users
    requires users[other].username == u.username || users[other].email == u.email
    ensures !CanInsertUser(users, u)
  {
  }
}
