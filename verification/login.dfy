/** The login form: credential lookup against the user directory, the
    password-free session copy of the matching record, and field editing. */
module Login {
  import opened Wrappers
  import opened Seqs
  import opened Users

  const INVALID_CREDENTIALS: string := "Invalid email or password"

  datatype LoginForm = LoginForm(email: string, password: string, error: string)

  datatype LoginField = EmailField | PasswordField

  /** `handleChange`: writes the named field and clears the error. */
  function HandleChange(form: LoginForm, field: LoginField, value: string): (r: LoginForm)
    ensures r.error == ""
    ensures field == EmailField ==> r.email == value && r.password == form.password
    ensures field == PasswordField ==> r.password == value && r.email == form.email
  {
    match field
    case EmailField => form.(email := value, error := "")
    case PasswordField => form.(password := value, error := "")
  }

  /** Exact, case-sensitive equality on both email and stored password. */
  predicate Matches(u: User, email: string, password: string) {
    u.email == email && u.password == Some(password)
  }

  /** `const { password, ...safeUser } = user`: the record without its
      password key. */
  function SafeUser(u: User): (r: User)
    ensures r.password.None?
    ensures r.(password := u.password) == u
  {
    u.(password := None)
  }

  /** What a submission produces: the `loginSuccess` payload (after which the
      page navigates to the dashboard), or the error shown in the form. */
  datatype LoginOutcome =
    | LoginSuccess(user: User, token: string)
    | LoginFailed(message: string)

  /** `handleSubmit`. The token's time stamp is a parameter. */
  function HandleSubmit(users: seq<User>, form: LoginForm, stamp: string): (r: LoginOutcome)
    ensures r.LoginSuccess? <==> exists i :: 0 <= i < |users| && Matches(users[i], form.email, form.password)
    ensures r.LoginSuccess? ==>
              exists i :: 0 <= i < |users| && Matches(users[i], form.email, form.password) &&
                          r.user == SafeUser(users[i]) &&
                          forall j :: 0 <= j < i ==> !Matches(users[j], form.email, form.password)
    ensures r.LoginSuccess? ==> r.user.password.None? && r.token == "token_" + stamp
    ensures r.LoginFailed? ==> r.message == INVALID_CREDENTIALS
  {
    match FindFirst((u: User) => Matches(u, form.email, form.password), users)
    case Some(i) => LoginSuccess(SafeUser(users[i]), "token_" + stamp)
    case None => LoginFailed(INVALID_CREDENTIALS)
  }

  /** The form after a submission: a failure shows the error, a success leaves
      the form as it was. */
  function FormAfterSubmit(form: LoginForm, outcome: LoginOutcome): (r: LoginForm)
    ensures r.email == form.email && r.password == form.password
    ensures outcome.LoginFailed? ==> r.error == INVALID_CREDENTIALS
    ensures outcome.LoginSuccess? ==> r == form
  {
    match outcome
    case LoginFailed(_) => form.(error := INVALID_CREDENTIALS)
    case LoginSuccess(_, _) => form
  }

  /** Every field of the session user except the password equals the stored
      record's. */
  lemma SessionUserMirrorsRecord(users: seq<User>, form: LoginForm, stamp: string)
    requires HandleSubmit(users, form, stamp).LoginSuccess?
    ensures var u := HandleSubmit(users, form, stamp).user;
            u.email == form.email && u.password.None? &&
            exists i :: 0 <= i < |users| && users[i] == u.(password := Some(form.password))
  {
    var u := HandleSubmit(users, form, stamp).user;
    var i :| 0 <= i < |users| && Matches(users[i], form.email, form.password) && u == SafeUser(users[i]);
    assert users[i] == u.(password := Some(form.password));
  }

  /** The demonstration administrator can log in with the published
      credentials, and the session copy carries no password. */
  lemma DemoAdminLogin(stamp: string)
    ensures var r := HandleSubmit(DemoUsers, LoginForm("admin@example.com", "admin123", ""), stamp);
            r.LoginSuccess? && r.user.id == "1" && r.user.role == ADMIN && r.user.password.None?
  {
    var form := LoginForm("admin@example.com", "admin123", "");
    assert Matches(DemoUsers[0], form.email, form.password);
  }

  /** A wrong password is refused with the generic message. */
  lemma WrongPasswordRefused(stamp: string)
    ensures HandleSubmit(DemoUsers, LoginForm("admin@example.com", "user123", ""), stamp)
            == LoginFailed(INVALID_CREDENTIALS)
  {
  }
}
