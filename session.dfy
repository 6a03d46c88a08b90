/**
 The login workflow as functions on a snapshot of the page: the two input
 fields, the "remember me" box, the password field's type and its eye icon,
 the two error texts, and the localStorage and sessionStorage areas.

 Each function here is what one handler of the page does to that snapshot;
 the LoginPage class performs the same steps in place and is proved to end in
 the state these functions give. The lemmas state what a login attempt
 guarantees.
 */
module Session {
  import opened Wrappers
  import opened Text
  import opened Validation
  import opened Auth
  import opened Storage

  /** The page state the login form reads and writes. */
  datatype Form = Form(
    email: string,          // emailInput.value
    password: string,       // passwordInput.value
    remember: bool,         // rememberMeCheckbox.checked
    passwordType: string,   // passwordInput.type
    iconClass: string,      // toggleIcon.className
    emailError: string,     // emailError.textContent
    passwordError: string,  // passwordError.textContent
    local: Area,            // localStorage
    session: Area)          // sessionStorage

  /** The two error elements. */
  datatype ErrorField = EmailError | PasswordError

  /** The error field's text. */
  function ErrorText(f: Form, field: ErrorField): string {
    match field
    case EmailError => f.emailError
    case PasswordError => f.passwordError
  }

  /** showError (with "" as the text: clearError): the field's error element
      shows `text`; nothing else on the page changes. */
  function WithError(f: Form, field: ErrorField, text: string): (r: Form)
    ensures ErrorText(r, field) == text
    ensures forall g :: g != field ==> ErrorText(r, g) == ErrorText(f, g)
    ensures r.(emailError := f.emailError, passwordError := f.passwordError) == f
  {
    match field
    case EmailError => f.(emailError := text)
    case PasswordError => f.(passwordError := text)
  }

  /** togglePassword: a password field becomes a text field with the
      eye-slash icon; any other field becomes a password field with the eye
      icon. */
  function TogglePassword(f: Form): (r: Form)
    ensures f.passwordType == "password" ==> r.passwordType == "text" && r.iconClass == "fas fa-eye-slash"
    ensures f.passwordType != "password" ==> r.passwordType == "password" && r.iconClass == "fas fa-eye"
    ensures r.(passwordType := f.passwordType, iconClass := f.iconClass) == f
  {
    var isPassword := f.passwordType == "password";
    f.(passwordType := if isPassword then "text" else "password",
       iconClass := if isPassword then "fas fa-eye-slash" else "fas fa-eye")
  }

  /** After any toggle the icon matches the field: eye-slash exactly when the
      password is shown as text; toggling twice restores a password or text
      field. */
  lemma ToggleTwice(f: Form)
    requires f.passwordType == "password" || f.passwordType == "text"
    ensures TogglePassword(TogglePassword(f)).passwordType == f.passwordType
    ensures var r := TogglePassword(f); r.iconClass == "fas fa-eye-slash" <==> r.passwordType == "text"
  {
  }

  /** handleSuccessfulLogin: with the box checked, localStorage remembers the
      email and the flag; unchecked, both keys are removed whoever they named.
      sessionStorage records the login either way. No other key and no field
      of the page changes. */
  function SuccessfulLogin(f: Form, email: string): (r: Form)
    ensures f.remember ==> GetItem(r.local, RememberedEmailKey) == Some(email)
    ensures f.remember ==> GetItem(r.local, RememberMeKey) == Some("true")
    ensures !f.remember ==> GetItem(r.local, RememberedEmailKey) == None
    ensures !f.remember ==> GetItem(r.local, RememberMeKey) == None
    ensures forall k :: k !in RememberKeys ==> GetItem(r.local, k) == GetItem(f.local, k)
    ensures GetItem(r.session, IsLoggedInKey) == Some("true")
    ensures GetItem(r.session, UserEmailKey) == Some(email)
    ensures forall k :: k !in SessionKeys ==> GetItem(r.session, k) == GetItem(f.session, k)
    ensures r.(local := f.local, session := f.session) == f
  {
    var local :=
      if f.remember then
        SetItem(SetItem(f.local, RememberedEmailKey, email), RememberMeKey, "true")
      else
        RemoveItem(RemoveItem(f.local, RememberedEmailKey), RememberMeKey);
    var session := SetItem(SetItem(f.session, IsLoggedInKey, "true"), UserEmailKey, email);
    f.(local := local, session := session)
  }

  /** handleFailedLogin: the password field is emptied; storage and every
      other field stay as they were. */
  function FailedLogin(f: Form): (r: Form)
    ensures r.password == ""
    ensures r.local == f.local && r.session == f.session
    ensures r.(password := f.password) == f
  {
    f.(password := "")
  }

  /** The remembered user in localStorage: the stored email when the flag
      reads exactly "true" and the email is stored and non-empty. */
  function LoadRememberedUser(local: Area): (r: Option<string>)
    ensures r.Some? <==> GetItem(local, RememberMeKey) == Some("true")
                         && GetItem(local, RememberedEmailKey).Some?
                         && GetItem(local, RememberedEmailKey).value != ""
    ensures r.Some? ==> GetItem(local, RememberedEmailKey) == Some(r.value)
  {
    match GetItem(local, RememberedEmailKey)
    case Some(e) => if GetItem(local, RememberMeKey) == Some("true") && e != "" then Some(e) else None
    case None => None
  }

  /** checkRememberedUser: a remembered user fills in the email field and
      checks the box; otherwise the page is left as it is. */
  function CheckRemembered(f: Form): (r: Form)
    ensures LoadRememberedUser(f.local).Some? ==>
      r == f.(email := LoadRememberedUser(f.local).value, remember := true)
    ensures LoadRememberedUser(f.local).None? ==> r == f
  {
    match LoadRememberedUser(f.local)
    case Some(e) => f.(email := e, remember := true)
    case None => f
  }

  /** handleLogin: both error texts are cleared, then both validators run and
      set them. If either field is rejected the attempt ends there. Otherwise
      (after the simulated request, which changes nothing) the trimmed email
      and the raw password are checked against the table, and the outcome is
      a successful or a failed login. */
  function Login(f: Form, credentials: map<string, string>): Form {
    var cleared := WithError(WithError(f, EmailError, ""), PasswordError, "");
    var emailCheck := ValidateEmail(cleared.email);
    var afterEmail := WithError(cleared, EmailError, emailCheck.message);
    var passwordCheck := ValidatePassword(afterEmail.password);
    var checked := WithError(afterEmail, PasswordError, passwordCheck.message);
    if !emailCheck.valid || !passwordCheck.valid then checked
    else
      var email := Trim(checked.email);
      if Authenticate(credentials, email, checked.password) then SuccessfulLogin(checked, email)
      else FailedLogin(checked)
  }

  /** The Escape key: both fields and both error texts are emptied; the box,
      the password field's type and storage are untouched. */
  function Escape(f: Form): (r: Form)
    ensures r.email == "" && r.password == "" && r.emailError == "" && r.passwordError == ""
    ensures r.(email := f.email, password := f.password,
               emailError := f.emailError, passwordError := f.passwordError) == f
  {
    var r := f.(email := "", password := "");
    WithError(WithError(r, EmailError, ""), PasswordError, "")
  }

  // ---- What a login attempt guarantees ----

  /** The page once both validators have reported. */
  function Checked(f: Form): (r: Form)
    ensures r.local == f.local && r.session == f.session && r.email == f.email && r.remember == f.remember
  {
    f.(emailError := ValidateEmail(f.email).message, passwordError := ValidatePassword(f.password).message)
  }

  /** An accepted, authenticated attempt is a successful login of the trimmed email. */
  lemma LoginSucceeds(f: Form, credentials: map<string, string>)
    requires ValidateEmail(f.email).valid && ValidatePassword(f.password).valid
    requires Authenticate(credentials, Trim(f.email), f.password)
    ensures Login(f, credentials) == SuccessfulLogin(Checked(f), Trim(f.email))
  {
    var cleared := WithError(WithError(f, EmailError, ""), PasswordError, "");
    assert cleared == f.(emailError := "", passwordError := "");
    var afterEmail := WithError(cleared, EmailError, ValidateEmail(f.email).message);
    assert WithError(afterEmail, PasswordError, ValidatePassword(f.password).message) == Checked(f);
  }

  /** An accepted attempt that does not authenticate is a failed login. */
  lemma LoginFails(f: Form, credentials: map<string, string>)
    requires ValidateEmail(f.email).valid && ValidatePassword(f.password).valid
    requires !Authenticate(credentials, Trim(f.email), f.password)
    ensures Login(f, credentials) == FailedLogin(Checked(f))
  {
    var cleared := WithError(WithError(f, EmailError, ""), PasswordError, "");
    assert cleared == f.(emailError := "", passwordError := "");
    var afterEmail := WithError(cleared, EmailError, ValidateEmail(f.email).message);
    assert WithError(afterEmail, PasswordError, ValidatePassword(f.password).message) == Checked(f);
  }

  /** Both validators always run: after any attempt each error element shows
      exactly its validator's message. */
  lemma LoginReportsBothFields(f: Form, credentials: map<string, string>)
    ensures Login(f, credentials).emailError == ValidateEmail(f.email).message
    ensures Login(f, credentials).passwordError == ValidatePassword(f.password).message
  {
    if !ValidateEmail(f.email).valid || !ValidatePassword(f.password).valid {
      LoginRejectsInvalidInput(f, credentials);
    } else if Authenticate(credentials, Trim(f.email), f.password) {
      LoginSucceeds(f, credentials);
    } else {
      LoginFails(f, credentials);
    }
  }

  /** A rejected field stops the attempt: no authentication, no storage
      change, and only the two error texts differ. */
  lemma LoginRejectsInvalidInput(f: Form, credentials: map<string, string>)
    requires !ValidateEmail(f.email).valid || !ValidatePassword(f.password).valid
    ensures Login(f, credentials) ==
      f.(emailError := ValidateEmail(f.email).message,
         passwordError := ValidatePassword(f.password).message)
  {
  }

  /** With both fields accepted, the trimmed email and the raw password decide:
      a match logs that trimmed email in; a mismatch empties the password and
      leaves storage alone. The email field itself is never rewritten. */
  lemma LoginAuthenticatesTrimmedEmail(f: Form, credentials: map<string, string>)
    requires ValidateEmail(f.email).valid && ValidatePassword(f.password).valid
    ensures var r := Login(f, credentials);
      && r.email == f.email && r.remember == f.remember
      && r.emailError == "" && r.passwordError == ""
      && (Authenticate(credentials, Trim(f.email), f.password) ==>
            && GetItem(r.session, IsLoggedInKey) == Some("true")
            && GetItem(r.session, UserEmailKey) == Some(Trim(f.email))
            && r.password == f.password)
      && (!Authenticate(credentials, Trim(f.email), f.password) ==>
            r.local == f.local && r.session == f.session && r.password == "")
  {
    if Authenticate(credentials, Trim(f.email), f.password) {
      LoginSucceeds(f, credentials);
    } else {
      LoginFails(f, credentials);
    }
  }

  /** Storage changes only when the attempt logs in. */
  lemma LoginStorageChangesOnlyOnSuccess(f: Form, credentials: map<string, string>)
    ensures var r := Login(f, credentials);
      r.local != f.local || r.session != f.session ==>
        && ValidateEmail(f.email).valid && ValidatePassword(f.password).valid
        && Authenticate(credentials, Trim(f.email), f.password)
  {
  }

  /** A successful login applied twice is the same as applied once. */
  lemma SuccessfulLoginIdempotent(f: Form, email: string)
    ensures SuccessfulLogin(SuccessfulLogin(f, email), email) == SuccessfulLogin(f, email)
  {
    var once := SuccessfulLogin(f, email);
    var twice := SuccessfulLogin(once, email);
    SameReadsSameArea(twice.local, once.local);
    SameReadsSameArea(twice.session, once.session);
  }

  /** A failed login applied twice is the same as applied once. */
  lemma FailedLoginIdempotent(f: Form)
    ensures FailedLogin(FailedLogin(f)) == FailedLogin(f)
  {
  }

  /** Remember round trip: after a successful login with the box checked, a
      page whose localStorage is the one left behind loads that email back
      and checks the box. */
  lemma RememberRoundTrip(f: Form, email: string, later: Form)
    requires f.remember && email != ""
    requires later.local == SuccessfulLogin(f, email).local
    ensures LoadRememberedUser(later.local) == Some(email)
    ensures CheckRemembered(later) == later.(email := email, remember := true)
  {
  }

  /** After a successful login with the box unchecked, nothing is remembered
      and checkRememberedUser leaves the page untouched. */
  lemma ForgetRoundTrip(f: Form, email: string, later: Form)
    requires !f.remember
    requires later.local == SuccessfulLogin(f, email).local
    ensures LoadRememberedUser(later.local) == None
    ensures CheckRemembered(later) == later
  {
  }

  /** The remembered-user invariant of localStorage: the flag and the email
      are stored together, the flag reads "true" and the email is non-empty. */
  ghost predicate RememberConsistent(local: Area) {
    && (RememberMeKey in local <==> RememberedEmailKey in local)
    && (RememberMeKey in local ==> local[RememberMeKey] == "true" && local[RememberedEmailKey] != "")
  }

  /** Under the invariant, a user is remembered exactly when the flag is stored. */
  lemma RememberConsistentLoad(local: Area)
    requires RememberConsistent(local)
    ensures LoadRememberedUser(local).Some? <==> RememberMeKey in local
  {
  }

  /** Every login attempt keeps the remembered-user invariant: a login only
      ever remembers an email that passed validation, and no such email is
      empty. */
  lemma LoginKeepsRememberConsistent(f: Form, credentials: map<string, string>)
    requires RememberConsistent(f.local)
    ensures RememberConsistent(Login(f, credentials).local)
  {
    var r := Login(f, credentials);
    if r.local != f.local {
      LoginStorageChangesOnlyOnSuccess(f, credentials);
      AcceptedEmailNonEmpty(f.email);
      LoginSucceeds(f, credentials);
      assert GetItem(r.local, RememberMeKey).Some? <==> GetItem(r.local, RememberedEmailKey).Some?;
    }
  }

  /** The whole workflow's round trip: an accepted, authenticated login with
      the box checked makes any later page load come up with the trimmed
      email filled in and the box checked. */
  lemma LoginRememberRoundTrip(f: Form, credentials: map<string, string>, later: Form)
    requires f.remember
    requires ValidateEmail(f.email).valid && ValidatePassword(f.password).valid
    requires Authenticate(credentials, Trim(f.email), f.password)
    requires later.local == Login(f, credentials).local
    ensures LoadRememberedUser(later.local) == Some(Trim(f.email))
    ensures CheckRemembered(later).email == Trim(f.email)
    ensures CheckRemembered(later).remember
  {
    AcceptedEmailNonEmpty(f.email);
    LoginSucceeds(f, credentials);
    RememberRoundTrip(Checked(f), Trim(f.email), later);
  }

  /** An accepted, authenticated login with the box checked records the
      session and leaves a localStorage that remembers the trimmed email. */
  lemma LoginRemembers(f: Form, credentials: map<string, string>)
    requires f.remember
    requires ValidateEmail(f.email).valid && ValidatePassword(f.password).valid
    requires Authenticate(credentials, Trim(f.email), f.password)
    ensures GetItem(Login(f, credentials).session, IsLoggedInKey) == Some("true")
    ensures GetItem(Login(f, credentials).session, UserEmailKey) == Some(Trim(f.email))
    ensures LoadRememberedUser(Login(f, credentials).local) == Some(Trim(f.email))
  {
    LoginAuthenticatesTrimmedEmail(f, credentials);
    LoginRememberRoundTrip(f, credentials, Login(f, credentials));
  }

  // ---- The forgot-password link ----

  datatype MessageKind = Success | Error | Info

  /** A status message the page shows. */
  datatype Notice = Notice(kind: MessageKind, text: string)

  const EnterEmailFirst: string := "Silakan masukkan email Anda terlebih dahulu."
  const ResetLinkSentTo: string := "Link reset password telah dikirim ke "

  /** handleForgotPassword: an empty trimmed email asks for the email first;
      any other names the trimmed email in a success notice. */
  function ForgotPasswordNotice(raw: string): (n: Notice)
    ensures Trim(raw) == [] <==> n.kind == Error
    ensures Trim(raw) == [] ==> n.text == EnterEmailFirst
    ensures Trim(raw) != [] ==> n.kind == Success && n.text == ResetLinkSentTo + Trim(raw)
  {
    var email := Trim(raw);
    if email == [] then Notice(Error, EnterEmailFirst)
    else Notice(Success, ResetLinkSentTo + email)
  }
}
