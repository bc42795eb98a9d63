/** The sign-in / sign-up form: when it can be submitted, which mode it shows, and what a submit does. */
module Login {
  import opened Wrappers
  import opened Toast

  datatype Mode = SignUp | SignIn

  datatype Form = Form(name: string, email: string, password: string, terms: bool)

  datatype LoginState = LoginState(mode: Mode, loading: bool, error: Option<string>, form: Form)

  /** The state the page starts in: sign-up mode, an empty form. */
  const Initial := LoginState(SignUp, false, None, Form("", "", "", false))

  /** `isFormValid`: both credentials filled in, terms accepted when signing up, nothing in flight. */
  predicate FormValid(s: LoginState) {
    s.form.email != "" && s.form.password != "" && (s.mode != SignUp || s.form.terms) && !s.loading
  }

  /** The submit button's `disabled`. */
  predicate SubmitDisabled(s: LoginState) {
    s.loading || !FormValid(s)
  }

  /** The button is enabled exactly when the form is valid; `loading` is already part of validity. */
  lemma SubmitEnabledIffValid(s: LoginState)
    ensures !SubmitDisabled(s) <==> FormValid(s)
    ensures !SubmitDisabled(s) <==>
      !s.loading && s.form.email != "" && s.form.password != "" && (s.mode == SignIn || s.form.terms)
  {
  }

  /** The `mode` query parameter's effect: only the two exact mode names change the mode. */
  function ModeFromQuery(current: Mode, param: Option<string>): (m: Mode)
    ensures param == Some("signin") ==> m == SignIn
    ensures param == Some("signup") ==> m == SignUp
    ensures param != Some("signin") && param != Some("signup") ==> m == current
  {
    if param == Some("signin") then SignIn
    else if param == Some("signup") then SignUp
    else current
  }

  /** Opening the page without a recognised `mode` parameter shows the sign-up form. */
  lemma DefaultModeIsSignUp(param: Option<string>)
    requires param != Some("signin")
    ensures ModeFromQuery(Initial.mode, param) == SignUp
  {
  }

  /** The mode switch: flips the mode and clears the error, leaving the form alone. */
  function Toggle(s: LoginState): (r: LoginState)
    ensures r.mode != s.mode && r.error == None
    ensures r.form == s.form && r.loading == s.loading
  {
    s.(mode := if s.mode == SignUp then SignIn else SignUp, error := None)
  }

  /** Switching twice returns to the same mode, with no error showing. */
  lemma ToggleTwice(s: LoginState)
    ensures Toggle(Toggle(s)) == s.(error := None)
  {
  }

  /** What the auth call reported: success, an `Error` with a message, or some other thrown value. */
  datatype AuthOutcome = Succeeded | Failed(message: string) | Threw

  /** What a submit leaves behind: the form state, the toast it raised, and whether it went to `/chat`. */
  datatype Submitted = Submitted(state: LoginState, toast: ToastInput, toChat: bool)

  /**
   * `handleSubmit` once the auth call has answered: a sign-up success switches to
   * sign-in and asks the user to check their email; a sign-in success greets them
   * and goes to the chat; any failure shows its message, or a generic one.
   */
  function Submit(s: LoginState, outcome: AuthOutcome): (r: Submitted)
    ensures !r.state.loading && r.state.form == s.form
    ensures r.toChat <==> s.mode == SignIn && outcome.Succeeded?
    ensures outcome.Succeeded? ==> r.state.error == None && r.toast.variant == Given(Success)
    ensures outcome.Succeeded? && s.mode == SignUp ==>
      && r.state.mode == SignIn
      && r.toast == ToastInput(Some("Account created"), Some("Check your email, then sign in to continue."), Given(Success))
    ensures outcome.Succeeded? && s.mode == SignIn ==>
      && r.state.mode == SignIn
      && r.toast == ToastInput(Some("Signed in"), Some("Welcome back!"), Given(Success))
    ensures outcome.Failed? ==>
      && r.state.mode == s.mode && r.state.error == Some(outcome.message)
      && r.toast == ToastInput(Some("Authentication failed"), Some(outcome.message), Given(Error))
    ensures outcome.Threw? ==>
      && r.state.mode == s.mode && r.state.error == Some("Something went wrong.")
      && r.toast == ToastInput(Some("Authentication failed"), Some("Something went wrong."), Given(Error))
  {
    var cleared := s.(error := None, loading := false);
    match outcome
    case Succeeded =>
      (match s.mode
      case SignUp =>
        Submitted(cleared.(mode := SignIn),
                  ToastInput(Some("Account created"), Some("Check your email, then sign in to continue."), Given(Success)),
                  false)
      case SignIn =>
        Submitted(cleared, ToastInput(Some("Signed in"), Some("Welcome back!"), Given(Success)), true))
    case Failed(message) =>
      Submitted(cleared.(error := Some(message)),
                ToastInput(Some("Authentication failed"), Some(message), Given(Error)), false)
    case Threw =>
      Submitted(cleared.(error := Some("Something went wrong.")),
                ToastInput(Some("Authentication failed"), Some("Something went wrong."), Given(Error)), false)
  }

  /** After a successful sign-up the same credentials can be submitted again, now to sign in. */
  lemma SignUpThenSignIn(s: LoginState)
    requires s.mode == SignUp && FormValid(s)
    ensures var r := Submit(s, Succeeded);
      FormValid(r.state) && r.state.mode == SignIn && Submit(r.state, Succeeded).toChat
  {
  }
}
