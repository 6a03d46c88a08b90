# Login form: validation, credential check and "remember me"

A Dafny model of the login page script (`script.js`). The page has an email
field, a password field, a "remember me" box, two error elements, and the
browser's `localStorage` and `sessionStorage`.

- **Field validators.** `validateEmail` trims the email and checks it against
  `/^[^\s@]+@[^\s@]+\.[^\s@]+$/`. `validatePassword` checks the raw password
  for emptiness and a minimum length of 6. Each returns a verdict and the text
  its error element shows afterwards, with the page's own messages ("Email
  harus diisi", "Format email tidak valid", "Password harus diisi", "Password
  minimal 6 karakter").
- **Credential check.** `authenticateUser` looks the email up in a table of
  email/password pairs and compares strictly with the typed password. The demo
  table is built in, and any table can be passed in instead.
- **Login workflow.** `handleLogin` first clears both errors and runs both
  validators. It stops if either field is rejected. Otherwise it
  authenticates the trimmed email with the raw password and hands over to
  `handleSuccessfulLogin` or `handleFailedLogin`.
- **Storage writes.** `handleSuccessfulLogin` writes or removes the two
  "remember me" keys and records the session. `handleFailedLogin` empties the
  password. `checkRememberedUser`, which runs at page load, refills the email
  and the box from `localStorage`.
- **Smaller handlers.** The password visibility toggle, the Escape key
  handler and the forgot-password link are also modelled.

Layout:

- `wrappers.dfy` (`Wrappers`): `Option`.
- `text.dfy` (`Text`): the ECMAScript whitespace class shared by `trim()` and
  `\s`, `trim()` itself, and `length` as a count of UTF-16 code units.
  - `TrimStart` and `TrimEnd` are the two recursive halves of `trim()`.
  - `IsTrimOf` is the declarative definition of a trim.
  - The lemmas prove that `Trim` meets that definition, that the definition
    allows only one result, and what follows from that.
- `validation.dfy` (`Validation`): the two validators.
  - `IsEmailShape` states what the regular expression accepts: `L + "@" + D`,
    with no whitespace or `@` in `L` or `D`, and a `.` in `D` with at least one
    character on each side.
  - `MatchesEmailPattern` decides the pattern with a six-state left-to-right
    scan.
  - `ScanDecidesShape` proves that the scan and the shape agree on every
    string.
- `auth.dfy` (`Auth`): the credential table and `authenticateUser`.
- `storage.dfy` (`Storage`): `getItem`, `setItem` and `removeItem` on a storage
  area held as a map, and the four keys the page uses.
- `session.dfy` (`Session`): each handler as a function on a snapshot `Form`
  of the page, plus the lemmas about a login attempt: the validation gate,
  the storage effects, idempotence and the remember round trip.
- `login_page.dfy` (`LoginPage`): the page as a class whose handlers update
  its fields in place.
  - Each method is proved to leave the page in the state the matching
    `Session` function gives (`State() == Login(old(State()), credentials)`
    and so on).
  - Two client methods show the round trip through the class: a remembered
    login, then a fresh page load over the storage it left.

Details of the code that the model keeps:

- **Allowed characters.** The email pattern accepts any character other than
  whitespace and `@`, not only ASCII.
- **Message texts.** The error texts are the Indonesian strings the code
  shows.
- **Empty remembered email.** A remembered email reloads only when it is
  non-empty, because the code tests `rememberedEmail` for truthiness. So the
  round trip `RememberRoundTrip` is stated for a non-empty email. A login can
  only remember an email that passed validation, so such an email is never
  empty (`LoginKeepsRememberConsistent`).

## Model

| member | source | states |
|---|---|---|
| Text.IsWs | script.js:84 | the whitespace class of both `\s` and `trim()`: ECMAScript's WhiteSpace and LineTerminator code points; it has no contract of its own and is used by every trim and pattern lemma |
| Text.Trim | script.js:83 | `trim()`; it has no contract of its own and is characterised by TrimCutsAtBounds and TrimOfUnique |
| Text.TrimStartCut | script.js:83 | the leading part `trim()` drops is all whitespace, and what it keeps does not start with whitespace (proved by induction) |
| Text.TrimEndCut | script.js:83 | the trailing part `trim()` drops is all whitespace, and what it keeps does not end with whitespace (proved by induction) |
| Text.TrimCutsAtBounds | script.js:83 | `Trim(s)` is a slice of `s` with only whitespace outside it, and, when non-empty, it begins and ends with a non-whitespace character |
| Text.TrimOfUnique | script.js:83 | at most one string is a trim of `s`, so the declarative definition pins `trim()` down |
| Text.TrimOfUntrimmable | script.js:83 | a string with no whitespace at either end is its own trim |
| Text.TrimIdempotent | script.js:83 | trimming a trimmed string changes nothing |
| Text.TrimEmptyIffAllWs | script.js:83-86 | the trimmed email is empty exactly when the raw input is all whitespace (the `!email` test) |
| Text.Utf16Length | script.js:108 | JavaScript's `length` lies between the number of code points and twice that, and equals the number of code points exactly when no code point is above U+FFFF |
| Validation.MatchesEmailPattern | script.js:91 | `emailRegex.test(email)` as a scan; it has no contract of its own and is characterised by ScanDecidesShape |
| Validation.ScanDecidesShape | script.js:84 | the left-to-right scan accepts a string exactly when it has the shape `^[^\s@]+@[^\s@]+\.[^\s@]+$` |
| Validation.EmailShapeSplit | script.js:84 | `L + "@" + D` has the shape exactly when `L` is non-empty without whitespace or `@`, and `D` has no whitespace or `@` and has a `.` with a character on each side |
| Validation.ValidateEmail | script.js:82-98 | an empty trimmed email gives "Email harus diisi"; a non-empty trimmed email of the shape is valid with the error cleared; any other gives "Format email tidak valid" |
| Validation.ValidatePassword | script.js:100-115 | an empty password gives "Password harus diisi"; fewer than 6 UTF-16 code units give "Password minimal 6 karakter"; otherwise it is valid with the error cleared; the password is not trimmed |
| Validation.AcceptedEmailNonEmpty | script.js:86-94 | an accepted email trims to a non-empty string containing `@` |
| Validation.MissingAtOrDotRejected | script.js:91-94 | a non-empty trimmed email with no `.` after any `@` is rejected as badly formatted |
| Validation.PasswordLengthBounds | script.js:108-114 | every password of at least 6 characters is accepted, and none of at most 2 characters is |
| Validation.ValidatorExamples | script.js:86-111 | "" and a whitespace-only email are "required"; "abc" is too short; six spaces are a valid password |
| Validation.TrimExample | script.js:83 | `" admin@test.com "` trims to `"admin@test.com"` |
| Validation.ShapeExample | script.js:84 | the demo address `admin@test.com` has the accepted shape |
| Auth.DemoCredentials | script.js:12-16 | the three demo accounts and their passwords; a constant, characterised by DemoAccounts |
| Auth.Lookup | script.js:177 | `DEMO_CREDENTIALS[email]`: the stored password, or nothing for a missing key; it has no contract of its own and is characterised by Authenticate |
| Auth.Authenticate | script.js:175-178 | the check succeeds exactly when the email is a key of the table and its stored password equals the typed one |
| Auth.UnknownEmailNeverAuthenticates | script.js:177 | an email that is not in the table fails with every password |
| Auth.AtMostOnePassword | script.js:177 | an email authenticates with at most one password |
| Auth.DemoAccounts | script.js:12-16 | each demo account logs in with its own password and with neither of the other two accounts' passwords nor a wrong one; email and password compare exactly, including case |
| Storage.GetItem | script.js:292-293 | `getItem`: the stored value or nothing; it has no contract of its own and is characterised by the read-backs of SetItem and RemoveItem |
| Storage.SetItem | script.js:185-186 | after `setItem` the key reads back as the value and no other key changes |
| Storage.RemoveItem | script.js:188-189 | after `removeItem` the key reads back as absent and no other key changes |
| Session.WithError | script.js:117-127 | `showError`/`clearError` set one error text and leave the other error text and every other field as they were |
| Session.TogglePassword | script.js:68-72 | a password field becomes a text field with the eye-slash icon; any other becomes a password field with the eye icon; nothing else changes |
| Session.ToggleTwice | script.js:68-72 | toggling twice restores a password or text field, and after a toggle the icon is eye-slash exactly when the password is shown |
| Session.SuccessfulLogin | script.js:180-194 | box checked: the email and `rememberMe="true"` are stored; unchecked: both keys are removed; the session gets `isLoggedIn="true"` and the email; no other key and no field changes |
| Session.FailedLogin | script.js:209-216 | the password is emptied; storage and every other field stay as they were |
| Session.LoadRememberedUser | script.js:292-295 | a user is remembered exactly when `rememberMe` reads `"true"` and a non-empty `rememberedEmail` is stored, and then that email is the one loaded |
| Session.CheckRemembered | script.js:291-299 | a remembered user fills in the email field and checks the box; otherwise the page is unchanged |
| Session.Escape | script.js:350-356 | both fields and both error texts are emptied; the box, the password type and storage are untouched |
| Session.Login | script.js:142-173 | `handleLogin` on a snapshot; it has no contract of its own and is characterised by LoginReportsBothFields, LoginRejectsInvalidInput, LoginSucceeds, LoginFails and LoginAuthenticatesTrimmedEmail |
| Session.LoginSucceeds | script.js:146-169 | an accepted, authenticated attempt is a successful login of the trimmed email, after both validators have reported |
| Session.LoginFails | script.js:146-172 | an accepted attempt that does not authenticate is a failed login after both validators have reported |
| Session.LoginReportsBothFields | script.js:146-151 | after every attempt each error element shows exactly its validator's message, because both validators always run |
| Session.LoginRejectsInvalidInput | script.js:153-156 | a rejected field ends the attempt: storage is untouched and only the two error texts change |
| Session.LoginAuthenticatesTrimmedEmail | script.js:165-172 | with both fields accepted, a match logs the trimmed email in with the raw password kept; a mismatch empties the password and leaves storage alone; the email field is never rewritten |
| Session.LoginStorageChangesOnlyOnSuccess | script.js:153-172 | storage changes only when both fields are accepted and the trimmed email and raw password authenticate |
| Session.SuccessfulLoginIdempotent | script.js:184-194 | the successful-login update applied twice with the same email gives the state it gives once |
| Session.FailedLoginIdempotent | script.js:216 | the failed-login update applied twice gives the state it gives once |
| Session.RememberRoundTrip | script.js:291-299 | after a successful login with the box checked and a non-empty email, a page load over that localStorage fills in the email and checks the box |
| Session.ForgetRoundTrip | script.js:291-299 | after a successful login with the box unchecked, nothing is remembered and a page load changes nothing |
| Session.RememberConsistentLoad | script.js:295 | when the flag and the email are stored together, the flag is "true" and the email is non-empty, a user is remembered exactly when the flag is stored |
| Session.LoginKeepsRememberConsistent | script.js:184-190 | every login attempt keeps that invariant of localStorage |
| Session.LoginRememberRoundTrip | script.js:165-169 | an accepted, authenticated attempt with the box checked makes every later page load fill in the trimmed email and check the box |
| Session.LoginRemembers | script.js:180-194 | such an attempt records the session for the trimmed email and leaves a localStorage that loads that email back |
| Session.ForgotPasswordNotice | script.js:310-321 | an empty trimmed email asks for the email first; any other email is named, trimmed, in a success notice |
| LoginPage.Page.constructor | script.js:19-21 | page load: empty fields, a hidden password, no errors and the given storage, then `checkRememberedUser` |
| LoginPage.Page.TogglePasswordVisibility | script.js:68-72 | the page ends in `TogglePassword` of its old state |
| LoginPage.Page.ShowError | script.js:117-121 | the page ends in `WithError` of its old state with the message |
| LoginPage.Page.ClearError | script.js:123-127 | the page ends in `WithError` of its old state with "" |
| LoginPage.Page.ClearEmailError | script.js:129-133 | the email's input handler leaves the email error empty and changes nothing else |
| LoginPage.Page.ClearPasswordError | script.js:135-139 | the password's input handler leaves the password error empty and changes nothing else |
| LoginPage.Page.ValidateEmailField | script.js:82-98 | returns the email validator's verdict and leaves its message in the email error, nothing else changed |
| LoginPage.Page.ValidatePasswordField | script.js:100-115 | returns the password validator's verdict and leaves its message in the password error, nothing else changed |
| LoginPage.Page.HandleLogin | script.js:142-173 | the page ends in `Login` of its old state, so every `Session` lemma about `Login` holds of the page |
| LoginPage.Page.HandleSuccessfulLogin | script.js:180-194 | the page ends in `SuccessfulLogin` of its old state |
| LoginPage.Page.HandleFailedLogin | script.js:209-216 | the page ends in `FailedLogin` of its old state |
| LoginPage.Page.CheckRememberedUser | script.js:291-299 | the page ends in `CheckRemembered` of its old state |
| LoginPage.Page.HandleEscape | script.js:350-356 | the page ends in `Escape` of its old state |
| LoginPage.Page.HandleForgotPassword | script.js:310-321 | returns `ForgotPasswordNotice` of the email field and changes nothing |
| LoginPage.LogInRemembered | script.js:142-194 | a page that logs in an accepted, authenticated user with the box checked leaves a session for the trimmed email and a localStorage that remembers it |
| LoginPage.ReloadAfterRememberedLogin | script.js:291-299 | a fresh page over that storage comes up showing the trimmed email with the box checked |

## Left out

- DOM wiring and event registration, the entrance animations, the shake
  animation and the injected style sheets. They are presentation only. The
  handlers are modelled as methods, and which event calls which is not.
- The `setTimeout`/`await` delays: the simulated 1500 ms request, the redirect
  to `success.html` and the toast removal. The await is modelled as a step
  that changes nothing. The code reads the email, the password and the
  checkbox again after the delay. The model reads them in the state the
  validators left, so edits made during the 1.5 s wait are not modelled.
- Storage.SetItem, Storage.RemoveItem, Session.SuccessfulLogin: storage calls
  are taken never to throw. In a browser `setItem` can throw
  QuotaExceededError, and blocked storage throws SecurityError. Either would
  end `handleSuccessfulLogin` part way, before `sessionStorage` is written.
  The model does not capture that partial update.
- `showMessage` and the messages it shows on success and failure, the social
  login and sign-up stubs, and the demo-credentials banner. They only display
  fixed strings. The forgot-password link's notice is modelled as a returned
  `Notice`, not as rendered markup.
- The loading state of the submit button. It is cosmetic, and its only effect
  is to refuse a second submission while one is in flight, which is
  concurrency outside this model.
- The `focus()` calls and the Enter-key shortcut. They move keyboard focus,
  which the model does not track.
- The style writes inside `showError`/`clearError` (opacity and transform).
  Only the error text is modelled.
- LoginPage.Page.constructor: the page markup is not part of this model. A
  fresh page is taken to start with empty fields, the password hidden with
  the eye icon and no error texts. The browser's storage is a parameter.
- Text.Utf16Length: lone surrogates cannot occur in a Dafny string, so the
  count covers well-formed text only.
- Auth.Authenticate: the prototype chain of the JavaScript credential object
  is not modelled. A key such as `constructor` would find an inherited
  function, which is never strictly equal to a string, so the result is the
  same as a missing key.
