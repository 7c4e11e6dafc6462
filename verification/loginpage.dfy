/**
 The login form (components/LoginPage.tsx): a daily lockout check made once
 when the form mounts, and the submit handler with its precedence
 (lockout first, then empty credentials, then sign-in). The 1.5 s
 authentication delay is not modelled: `onLogin` is reported as the
 submission's output.
 */
module LoginPage {
  import opened Wrappers
  import opened Session

  const CREDENTIALS_REQUIRED := "CREDENTIALS REQUIRED"

  datatype LoginForm = LoginForm(
    username: string,
    password: string,
    isAuthenticating: bool,
    error: string,
    isLockedOut: bool)

  /** A submission's new form state and the name passed to `onLogin`, if it was called. */
  datatype Submission = Submission(form: LoginForm, onLogin: Option<string>)

  /** The form as mounted: empty fields, and the lockout flag raised when the
      stored lockout date is today's date string. */
  function MountForm(store: Store, today: string): (f: LoginForm)
    ensures f.isLockedOut <==> GetItem(store, LOCKOUT_DATE) == Some(today)
    ensures f.username == "" && f.password == "" && f.error == "" && !f.isAuthenticating
  {
    var initial := LoginForm("", "", false, "", false);
    if GetItem(store, LOCKOUT_DATE) == Some(today) then initial.(isLockedOut := true) else initial
  }

  /** The inputs' change handlers: each replaces its own field and touches
      nothing else, so typing never clears the lockout or the error. */
  function SetUsername(f: LoginForm, value: string): (r: LoginForm)
    ensures r.username == value && r.password == f.password
    ensures r.isLockedOut == f.isLockedOut && r.error == f.error
    ensures r.isAuthenticating == f.isAuthenticating
  {
    f.(username := value)
  }

  function SetPassword(f: LoginForm, value: string): (r: LoginForm)
    ensures r.password == value && r.username == f.username
    ensures r.isLockedOut == f.isLockedOut && r.error == f.error
    ensures r.isAuthenticating == f.isAuthenticating
  {
    f.(password := value)
  }

  /** `handleLogin`: ignored while locked out; empty credentials show an error;
      otherwise the error is cleared, the form enters its authenticating state
      and `onLogin` receives the user name (never the password). */
  function HandleLogin(f: LoginForm): (r: Submission)
    ensures r.onLogin.Some? <==> !f.isLockedOut && f.username != "" && f.password != ""
    ensures r.onLogin.Some? ==> r.onLogin.value == f.username
    ensures f.isLockedOut ==> r.form == f
    ensures !f.isLockedOut ==> r.form.error == (if r.onLogin.Some? then "" else CREDENTIALS_REQUIRED)
    ensures r.form.isAuthenticating <==> f.isAuthenticating || r.onLogin.Some?
    ensures r.form.username == f.username && r.form.password == f.password
    ensures r.form.isLockedOut == f.isLockedOut
  {
    if f.isLockedOut then Submission(f, None)
    else if f.username == "" || f.password == "" then
      Submission(f.(error := CREDENTIALS_REQUIRED), None)
    else Submission(f.(isAuthenticating := true, error := ""), Some(f.username))
  }

  /** A locked-out form ignores every submission, whatever was typed. */
  lemma LockoutTakesPrecedence(store: Store, today: string, username: string, password: string)
    requires GetItem(store, LOCKOUT_DATE) == Some(today)
    ensures var f := SetPassword(SetUsername(MountForm(store, today), username), password);
            HandleLogin(f) == Submission(f, None)
  {
  }

  /** Without a lockout for today, a form with both fields filled signs in
      with exactly the typed name; with either field empty it only shows the error. */
  lemma UnlockedSubmission(store: Store, today: string, username: string, password: string)
    requires GetItem(store, LOCKOUT_DATE) != Some(today)
    ensures var r := HandleLogin(SetPassword(SetUsername(MountForm(store, today), username), password));
            && (username != "" && password != "" ==> r.onLogin == Some(username) && r.form.isAuthenticating)
            && (username == "" || password == "" ==>
                  r.onLogin == None && r.form.error == CREDENTIALS_REQUIRED && !r.form.isAuthenticating)
  {
  }
}
