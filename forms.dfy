/**
 The three submitted forms and their validator lists, as predicates. A form is
 valid exactly when every validator of every field accepts. The syntactic
 `Email()` and `URL()` checks belong to the form library and are passed in as
 the opaque predicates `isEmail` and `isUrl`.
 */
module Forms {
  import Models

  datatype RegisterForm = RegisterForm(username: string, email: string, password: string, confirmPassword: string)
  datatype LoginForm = LoginForm(email: string, password: string, remember: bool)
  datatype LinkForm = LinkForm(name: string, url: string)

  /** The whitespace that the required-data check strips (ASCII only). */
  predicate IsSpace(c: char) {
    c == ' ' || c == '\t' || c == '\n' || c == '\r' || c as int == 11 || c as int == 12
  }

  /** `DataRequired()`: the field holds at least one character that is not whitespace. */
  function DataRequired(s: string): (r: bool)
    ensures r ==> s != []
  {
    exists i :: 0 <= i < |s| && !IsSpace(s[i])
  }

  /** A blank field, the empty one in particular, never passes `DataRequired()`. */
  lemma BlankIsRejected(s: string)
    requires forall i :: 0 <= i < |s| ==> IsSpace(s[i])
    ensures !DataRequired(s)
  {
  }

  /** `Length(min, max)`: the field's length lies in the closed range. */
  predicate LengthBetween(s: string, min: nat, max: nat) {
    min <= |s| <= max
  }

  // RegisterForm

  predicate UsernameValid(username: string) {
    DataRequired(username) && LengthBetween(username, 3, 80)
  }

  predicate EmailValid(email: string, isEmail: string -> bool) {
    DataRequired(email) && isEmail(email)
  }

  predicate NewPasswordValid(password: string) {
    DataRequired(password) && 6 <= |password|
  }

  predicate ConfirmValid(confirm: string, password: string) {
    DataRequired(confirm) && confirm == password
  }

  /**
   A valid registration has a non-empty username of 3 to 80 characters, a
   non-empty email that passes the email check, a password of at least 6
   characters, and a confirmation equal to it.
   */
  function RegisterValid(f: RegisterForm, isEmail: string -> bool): (r: bool)
    ensures r ==> f.username != [] && 3 <= |f.username| <= Models.UsernameWidth
    ensures r ==> isEmail(f.email) && f.email != []
    ensures r ==> 6 <= |f.password| && f.confirmPassword == f.password
  {
    && UsernameValid(f.username)
    && EmailValid(f.email, isEmail)
    && NewPasswordValid(f.password)
    && ConfirmValid(f.confirmPassword, f.password)
  }

  // LoginForm

  /** A valid login has a non-empty email that passes the email check and a non-empty password. */
  function LoginValid(f: LoginForm, isEmail: string -> bool): (r: bool)
    ensures r ==> f.email != [] && isEmail(f.email) && f.password != []
  {
    EmailValid(f.email, isEmail) && DataRequired(f.password)
  }

  // LinkForm

  predicate LinkNameValid(name: string) {
    DataRequired(name) && |name| <= 150
  }

  predicate LinkUrlValid(url: string, isUrl: string -> bool) {
    DataRequired(url) && isUrl(url) && |url| <= 300
  }

  /**
   A valid link form has a non-empty name of at most 150 characters and a
   non-empty url of at most 300 characters that passes the URL check.
   */
  function LinkValid(f: LinkForm, isUrl: string -> bool): (r: bool)
    ensures r ==> f.name != [] && |f.name| <= 150
    ensures r ==> f.url != [] && |f.url| <= 300 && isUrl(f.url)
  {
    LinkNameValid(f.name) && LinkUrlValid(f.url, isUrl)
  }

  /**
   A link built from a valid link form fits the `link` table's columns,
   whoever owns it, so the form's limits agree with the schema's widths.
   */
  lemma LinkFormFitsSchema(f: LinkForm, isUrl: string -> bool, owner: Models.UserId)
    requires LinkValid(f, isUrl)
    ensures Models.LinkFits(Models.Link(f.name, f.url, owner))
  {
  }
}
