# bio_link_app in Dafny

A model of the core of a small "link-in-bio" web application. People register,
log in and keep a personal list of named URLs. Each person's list is shown on a
public profile page. The model covers:

- the two tables, `user` and `link`, with the constraints their columns declare;
- the three forms (registration, login, link) and their validator lists;
- the request handlers (`register`, `login`, `logout`, `profile`,
  `manage_links`, `edit_link`, `delete_link`).

The handlers are methods of one class, `App.Store`. The store holds:

- the `user` table as a map from id to `(username, email, password hash)`;
- the `link` table as a map from id to `(name, url, user_id)`;
- the session's current user, if any.

Each handler changes the store in place and returns a response code instead of
a rendered page:

- `Ok`: the page is rendered with its form;
- `Listing(links)`: the page is rendered showing exactly these links;
- `Redirect(target)`;
- `NotFound`, `Unauthorized`, `BadCredentials`;
- `Conflict`: the store refused to commit a new user.

A request either submits a form (`Some(form)`) or does not (`None`, a plain
page load). A form is accepted exactly when the form module's predicate holds,
which is when `validate_on_submit` would succeed. A handler that requires a
login redirects to the login page, and changes nothing, when nobody is logged
in.

Files:

- `models.dfy`: the rows, column widths, unique columns and foreign key, as the
  predicate `Models.WellFormed`.
- `forms.dfy`: the form validators as predicates.
- `passwords.dfy`: the stored password format `method$salt$digest` and its
  check. Checking a freshly generated hash is proved to accept the password it
  was made from.
- `app.dfy`: the store and its handlers. The invariant `Store.Valid` says:
  - the schema holds;
  - every key was handed out by the store's counters;
  - every row passed the form that created it;
  - the session names an existing user.
- `listings.dfy`: how adding, editing and deleting a link changes each owner's
  listing.
- `scenario.dfy`: a walk-through proved from the handlers' contracts alone.
  Alice registers, logs in, sees an empty profile and adds a link. The link then
  shows in her listing and on her profile. After she logs out, the link page
  sends to the login page. Bob registers and logs in, and may neither edit nor
  delete her link. An unknown profile is not found.

The handler does not check whether a username or email is already taken before
it inserts a user (app.py:29-32). The unique columns (models.py:8-9) make the
commit fail instead. `Store.Register` models that store-level failure: it
returns `Conflict` and leaves the state unchanged. The check sits in the store,
not in the handler.

## Model

| member | source | states |
|---|---|---|
| `App.Store.Register` | app.py:25-35 | An invalid or missing form re-renders the page (`Ok`), and nothing changes. A valid form whose row the store admits adds exactly one user under a fresh key. That user has the form's username and email, and its password is `GeneratePasswordHash(password, salt)`, not the plaintext. The result redirects to login. A taken username or email, or a row too wide for its columns, gives `Conflict` and leaves the users unchanged. Links and the session never change, and the invariant is kept. |
| `App.Store.Login` | app.py:37-47 | An invalid or missing form gives `Ok`. With a valid form, login succeeds exactly when some user has the email and the password checks against that user's stored hash. On success the session becomes a user with that email, the submitted password checks against that user's stored hash, and the result redirects to that user's profile. Otherwise the result is `BadCredentials` and the session is unchanged. Stored data is never changed. |
| `App.Store.Logout` | app.py:49-54 | Afterwards nobody is logged in. When someone was logged in, the result redirects home. When nobody was, it redirects to login. Users and links are untouched. |
| `App.Store.Profile` | app.py:56-60 | Returns `NotFound` exactly when no user has the username. Otherwise it returns exactly the links whose `user_id` is that user's id. Nothing changes and no session is needed. |
| `App.Store.ManageLinks` | app.py:62-74 | With nobody logged in, it redirects to login and changes nothing. A valid form adds exactly one link under a key not used before. The link has the form's name and url, and its owner is the current user. The result redirects back. Otherwise the page lists exactly the current user's links, and nothing changes. |
| `App.Store.EditLink` | app.py:76-92 | A missing link gives `NotFound`. Someone else's link gives `Unauthorized`. In both cases the links are unchanged. The owner's valid form replaces that link's name and url. Its owner and every other link stay the same, and the result redirects back. Otherwise the page shows that one link, and nothing changes. |
| `App.Store.DeleteLink` | app.py:94-104 | A missing link gives `NotFound`. Someone else's link gives `Unauthorized`, and the links are unchanged. For the owner, exactly that link is removed and nothing else changes. |
| `App.Store.UserByEmail` | app.py:41 | The lookup `filter_by(email).first()` finds a user with that email, or reports none exactly when no user has it. |
| `App.Store.UserByUsername` | app.py:58 | The lookup `filter_by(username).first()` finds a user with that username, or reports none exactly when no user has it. |
| `App.Store.constructor` | app.py:107-108 | A fresh database (no existing `bio_link.db` file): the store starts with empty tables and nobody logged in, and the invariant holds. `create_all` keeps the rows of an existing database; that start is not modelled. |
| `App.Store.NewUser` | app.py:29-30 | The row registration inserts has the form's username and email. Its password column holds the generated hash, and the form's password checks against it. |
| `App.Store.CredentialsMatch` | app.py:41-42 | Login's condition: some user has the email and the password checks against that user's hash. It can hold only when the email is taken. |
| `App.LinksOf` | app.py:59 | A user's listing holds exactly the links whose `user_id` is that user, each unchanged. |
| `App.EditKeepsInvariant` | app.py:86-87 | Replacing a link's name and url with values that pass the link form keeps the column widths, the foreign key and the form invariant on links. |
| `Listings.ListingsPartitionLinks` | models.py:17 | With the foreign key in place, every link is in the listing of an existing user, and no link is in two users' listings. |
| `Listings.ListingAfterAdd` | app.py:66-73 | After a link is added under a fresh key, its owner's listing is the old listing plus that link. Every other user's listing is unchanged. So a following list includes the new link. |
| `Listings.ListingAfterEdit` | app.py:85-88 | After an edit, the owner's listing differs from the old one only at the edited link. Every other listing is unchanged. |
| `Listings.ListingAfterDelete` | app.py:101 | After a delete, every listing is the old listing without that link. |
| `Passwords.SplitHash` | app.py:42 | A stored hash splits at its first two separators into method, salt and digest. The first two parts hold no separator, and joining the parts gives back the hash. A string with fewer than two separators is not a hash. |
| `Passwords.GeneratePasswordHash` | app.py:29 | A hash generated with a separator-free salt splits back into the method, the salt and the digest it was built from. |
| `Passwords.CheckPasswordHash` | app.py:42 | A password can match only a string that splits into method, salt and digest. By `SplitHash`, no password matches a string with fewer than two separators. |
| `Passwords.CheckGenerated` | app.py:42 | A password checks against a generated hash exactly when its digest, under the same method and salt, equals the registered password's digest. In particular the registered password is accepted. |
| `Passwords.IndexOf` | app.py:42 | The result is the first position of the separator, or none exactly when the string has no separator. |
| `Models.WellFormed` | models.py:6-17 | The schema's constraints. Under them an email identifies at most one user, and so does a username. |
| `Models.CanInsertUser` | models.py:8-10 | A user row that the store admits fits the declared widths of its three columns. |
| `Models.TakenIsRefused` | models.py:8-9 | The store refuses a user whose username or email another user already has. |
| `Models.InsertUserKeepsWellFormed` | models.py:6-17 | Inserting a row that the store admits, under a fresh key, keeps every column constraint of both tables. |
| `Forms.RegisterValid` | forms.py:5-9 | A valid registration has a non-empty username of 3 to 80 characters, an email that passes the email check, a password of at least 6 characters, and a confirmation equal to the password. |
| `Forms.LoginValid` | forms.py:12-14 | A valid login has a non-empty email that passes the email check, and a non-empty password. |
| `Forms.LinkValid` | forms.py:18-20 | A valid link form has a non-empty name of at most 150 characters and a non-empty url of at most 300 characters that passes the URL check. |
| `Forms.LinkFormFitsSchema` | forms.py:18-20 | A link built from a valid link form fits the `link` table's columns, whoever owns it. |
| `Forms.DataRequired` | forms.py:6 | A field that passes the required-data check is not empty. |
| `Forms.BlankIsRejected` | forms.py:6 | A field that is empty or only whitespace fails the required-data check. |

## Left out

- Routing, templates, flash messages and `url_for`. Responses are codes. The
  `Unauthorized` code stands for the flash message followed by a redirect to
  the link page.
- The ORM session, `commit`, `create_all`, the `load_user` loader and the app
  configuration. In-memory maps take their place. Each request is one atomic
  step.
- werkzeug's digest computation (PBKDF2-SHA256), its iteration count and its
  random salt generation. The digest is an opaque function given to the store,
  and the salt is a parameter of `Register`. The hash layout `method$salt$digest`
  and the check, which splits at the first two `$`, are modelled from the
  library's documented behaviour, not from code in this repository.
- The claim "the stored hash never equals the plaintext" is not proved. With an
  opaque digest, some password could equal its own hash string. The model
  proves instead that the stored value is the generated hash of the password.
- The `Email()` and `URL()` validators. Their syntax rules live in the form
  library, so they are opaque predicates, `isEmail` and `isUrl`, given to the
  store.
- The required-data check treats only ASCII whitespace as blank. Python's
  `strip()` also removes other Unicode whitespace.
- The remember-me flag, cookie sessions and CSRF tokens. The `remember` field
  is carried by the login form but has no effect in the model.
- Concurrent requests, and last-write-wins between them.
- Deleting users, and cascades. No handler deletes users.
- Keys come from counters that never reuse a value. SQLite without
  AUTOINCREMENT may hand out again the key of the most recently deleted link.
  The model only relies on new keys being unused.
- App.Store.Register: treats the declared `String(n)` column widths as
  enforced at commit, like the unique columns, so that the schema stays an
  invariant. SQLite, as configured at app.py:10, does not enforce them. So an
  email longer than 120 characters, or a hash longer than 200, gives `Conflict`
  in the model, where SQLite would store the row. Link names and urls are
  already bounded by the link form, so no other handler is affected.
- An integrity error at commit is an unhandled exception in the application
  (a server error page). The model returns `Conflict` with the state unchanged,
  which is the effect of the rolled-back transaction.
