/**
 The login page as an object whose handlers update its fields in place: the
 input fields, the checkbox, the password field's type and icon, the error
 texts and the two storage areas. Every handler is proved to leave the page in
 the state the matching function of Session gives, so the lemmas of Session
 hold of the page.
 */
module LoginPage {
  import opened Wrappers
  import opened Text
  import opened Validation
  import opened Auth
  import opened Storage
  import opened Session

  class Page {
    /** The credential table the page authenticates against. */
    const credentials: map<string, string>

    var emailValue: string
    var passwordValue: string
    var rememberChecked: bool
    var passwordType: string
    var toggleIconClass: string
    var emailErrorText: string
    var passwordErrorText: string
    var localStorage: Area
    var sessionStorage: Area

    /** The page as a snapshot. */
    function State(): Form
      reads this
    {
      Form(emailValue, passwordValue, rememberChecked, passwordType, toggleIconClass,
           emailErrorText, passwordErrorText, localStorage, sessionStorage)
    }

    /** Page load: empty fields, a hidden password, no errors and the storage
        the browser already holds; then checkRememberedUser runs. */
    constructor (credentials: map<string, string>, localStorage: Area, sessionStorage: Area)
      ensures this.credentials == credentials
      ensures State() == CheckRemembered(
        Form("", "", false, "password", "fas fa-eye", "", "", localStorage, sessionStorage))
    {
      this.credentials := credentials;
      emailValue, passwordValue, rememberChecked := "", "", false;
      passwordType, toggleIconClass := "password", "fas fa-eye";
      emailErrorText, passwordErrorText := "", "";
      this.localStorage, this.sessionStorage := localStorage, sessionStorage;
      new;
      CheckRememberedUser();
    }

    /** togglePassword. */
    method TogglePasswordVisibility()
      modifies this
      ensures State() == TogglePassword(old(State()))
    {
      var isPassword := passwordType == "password";
      passwordType := if isPassword then "text" else "password";
      toggleIconClass := if isPassword then "fas fa-eye-slash" else "fas fa-eye";
    }

    /** showError. */
    method ShowError(field: ErrorField, message: string)
      modifies this
      ensures State() == WithError(old(State()), field, message)
    {
      match field
      case EmailError => emailErrorText := message;
      case PasswordError => passwordErrorText := message;
    }

    /** clearError. */
    method ClearError(field: ErrorField)
      modifies this
      ensures State() == WithError(old(State()), field, "")
    {
      ShowError(field, "");
    }

    /** The email field's input handler: a shown error is cleared. */
    method ClearEmailError()
      modifies this
      ensures State() == WithError(old(State()), EmailError, "")
    {
      if emailErrorText != "" {
        ClearError(EmailError);
      }
    }

    /** The password field's input handler: a shown error is cleared. */
    method ClearPasswordError()
      modifies this
      ensures State() == WithError(old(State()), PasswordError, "")
    {
      if passwordErrorText != "" {
        ClearError(PasswordError);
      }
    }

    /** validateEmail (also the email field's blur handler): reports the
        verdict and leaves the validator's message in the email error. */
    method ValidateEmailField() returns (ok: bool)
      modifies this
      ensures ok == ValidateEmail(old(emailValue)).valid
      ensures State() == WithError(old(State()), EmailError, ValidateEmail(old(emailValue)).message)
    {
      var result := ValidateEmail(emailValue);
      if !result.valid {
        ShowError(EmailError, result.message);
        return false;
      }
      ClearError(EmailError);
      return true;
    }

    /** validatePassword (also the password field's blur handler). */
    method ValidatePasswordField() returns (ok: bool)
      modifies this
      ensures ok == ValidatePassword(old(passwordValue)).valid
      ensures State() == WithError(old(State()), PasswordError, ValidatePassword(old(passwordValue)).message)
    {
      var result := ValidatePassword(passwordValue);
      if !result.valid {
        ShowError(PasswordError, result.message);
        return false;
      }
      ClearError(PasswordError);
      return true;
    }

    /** handleLogin: clear both errors, run both validators, stop on a
        rejected field; otherwise authenticate the trimmed email and the raw
        password and hand over to the success or failure handler. The
        simulated request delay between the two halves changes nothing. */
    method HandleLogin()
      modifies this
      ensures State() == Login(old(State()), credentials)
    {
      ClearError(EmailError);
      ClearError(PasswordError);
      var isEmailValid := ValidateEmailField();
      var isPasswordValid := ValidatePasswordField();
      if !isEmailValid || !isPasswordValid {
        return;
      }
      var email := Trim(emailValue);
      var password := passwordValue;
      if Authenticate(credentials, email, password) {
        HandleSuccessfulLogin(email);
      } else {
        HandleFailedLogin();
      }
    }

    /** handleSuccessfulLogin: the storage writes. */
    method HandleSuccessfulLogin(email: string)
      modifies this
      ensures State() == SuccessfulLogin(old(State()), email)
    {
      if rememberChecked {
        localStorage := SetItem(localStorage, RememberedEmailKey, email);
        localStorage := SetItem(localStorage, RememberMeKey, "true");
      } else {
        localStorage := RemoveItem(localStorage, RememberedEmailKey);
        localStorage := RemoveItem(localStorage, RememberMeKey);
      }
      sessionStorage := SetItem(sessionStorage, IsLoggedInKey, "true");
      sessionStorage := SetItem(sessionStorage, UserEmailKey, email);
    }

    /** handleFailedLogin: the password field is emptied. */
    method HandleFailedLogin()
      modifies this
      ensures State() == FailedLogin(old(State()))
    {
      passwordValue := "";
    }

    /** checkRememberedUser. */
    method CheckRememberedUser()
      modifies this
      ensures State() == CheckRemembered(old(State()))
    {
      var rememberedEmail := GetItem(localStorage, RememberedEmailKey);
      var rememberMe := GetItem(localStorage, RememberMeKey);
      if rememberMe == Some("true") && rememberedEmail.Some? && rememberedEmail.value != "" {
        emailValue := rememberedEmail.value;
        rememberChecked := true;
      }
    }

    /** The Escape key handler. */
    method HandleEscape()
      modifies this
      ensures State() == Escape(old(State()))
    {
      emailValue := "";
      passwordValue := "";
      ClearError(EmailError);
      ClearError(PasswordError);
    }

    /** handleForgotPassword: the notice it shows; the page does not change. */
    method HandleForgotPassword() returns (notice: Notice)
      ensures notice == ForgotPasswordNotice(emailValue)
    {
      var email := Trim(emailValue);
      if email == [] {
        return Notice(Error, EnterEmailFirst);
      }
      return Notice(Success, ResetLinkSentTo + email);
    }
  }

  /** A client of the page: a successful login with "remember me" checked
      records the session and leaves a localStorage that remembers the
      trimmed email. */
  method LogInRemembered(credentials: map<string, string>, email: string, password: string)
    returns (local: Area, session: Area)
    requires ValidateEmail(email).valid && ValidatePassword(password).valid
    requires Authenticate(credentials, Trim(email), password)
    ensures GetItem(session, IsLoggedInKey) == Some("true")
    ensures GetItem(session, UserEmailKey) == Some(Trim(email))
    ensures LoadRememberedUser(local) == Some(Trim(email))
  {
    var page := new Page(credentials, map[], map[]);
    page.emailValue, page.passwordValue, page.rememberChecked := email, password, true;
    ghost var before := page.State();
    assert before.email == email;
    LoginRemembers(before, credentials);
    ghost var after := Login(before, credentials);
    page.HandleLogin();
    local, session := page.localStorage, page.sessionStorage;
    assert local == after.local && session == after.session;
  }

  /** The next page load in the same browser comes up with the trimmed email
      filled in and the box checked. */
  method ReloadAfterRememberedLogin(credentials: map<string, string>, email: string, password: string)
    returns (shownEmail: string, boxChecked: bool)
    requires ValidateEmail(email).valid && ValidatePassword(password).valid
    requires Authenticate(credentials, Trim(email), password)
    ensures shownEmail == Trim(email) && boxChecked
  {
    var local, session := LogInRemembered(credentials, email, password);
    var next := new Page(credentials, local, session);
    shownEmail, boxChecked := next.emailValue, next.rememberChecked;
  }
}
