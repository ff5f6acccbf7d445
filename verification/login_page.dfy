/**
 * The login screen's rules: the empty-field guard on submit and the demo
 * credential buttons. The session context's `login` is taken to forward to
 * the authentication facade and rethrow its error.
 */
module LoginPage {
  import opened Types
  import Auth

  /** The screen's state: the two inputs, the error banner and the busy flag. */
  datatype LoginForm = LoginForm(email: string, password: string, error: string, isLoading: bool)

  /** The screen after `handleSubmit` has run to completion. */
  datatype LoginStep = LoginStep(
    form: LoginForm,
    loginCalled: bool,
    session: Option<Auth.Session>,
    navigatedTo: Option<string>)

  const MissingFields := "Please enter both email and password"
  const LoginFailedFallback := "Login failed. Please check your credentials."
  const DashboardRoute := "/dashboard"

  /**
   * `handleSubmit`: an empty email or password (untrimmed) sets the error and
   * never signs in; otherwise the sign-in either navigates to the dashboard
   * or leaves the user on the page with the failure's message, and in both
   * cases the busy flag ends cleared.
   */
  function HandleSubmit(f: LoginForm, stamp: string): (r: LoginStep)
    ensures f.email == [] || f.password == [] ==>
      r == LoginStep(f.(error := MissingFields), false, None, None)
    ensures f.email != [] && f.password != [] ==>
      && r.loginCalled && !r.form.isLoading
      && r.form.email == f.email && r.form.password == f.password
    ensures r.session.Some? <==> r.loginCalled && Auth.Login(f.email, f.password, stamp).Ok?
    ensures r.session.Some? ==>
      r.session == Some(Auth.Login(f.email, f.password, stamp).value)
      && r.navigatedTo == Some(DashboardRoute) && r.form.error == ""
    ensures r.loginCalled && r.session.None? ==> r.navigatedTo.None? && r.form.error == Auth.InvalidCredentials
  {
    if f.email == [] || f.password == [] then
      LoginStep(f.(error := MissingFields), false, None, None)
    else
      match Auth.Login(f.email, f.password, stamp)
      case Ok(session) =>
        LoginStep(f.(error := "", isLoading := false), true, Some(session), Some(DashboardRoute))
      case Err(m) =>
        LoginStep(f.(error := if m != "" then m else LoginFailedFallback, isLoading := false), true, None, None)
  }

  /** `fillDemoCredentials`: puts a role's demo pair into the inputs and clears the error. */
  function FillDemoCredentials(f: LoginForm, role: Role): (r: LoginForm)
    ensures role == Manager ==> r.email == "manager@commodities.com" && r.password == "manager123"
    ensures role == Storekeeper ==> r.email == "keeper@commodities.com" && r.password == "keeper123"
    ensures r.error == "" && r.isLoading == f.isLoading
  {
    if role == Manager then
      f.(email := Auth.ManagerEmail, password := Auth.ManagerPassword, error := "")
    else
      f.(email := Auth.KeeperEmail, password := Auth.KeeperPassword, error := "")
  }

  /** Either demo button followed by submit signs in as a user of that role. */
  lemma DemoCredentialsSignIn(f: LoginForm, role: Role, stamp: string)
    ensures var r := HandleSubmit(FillDemoCredentials(f, role), stamp);
      r.session.Some? && r.session.value.user.role == role && r.navigatedTo == Some(DashboardRoute)
  {
    var g := FillDemoCredentials(f, role);
    Auth.LoginRoles(g.email, g.password, stamp);
  }
}
