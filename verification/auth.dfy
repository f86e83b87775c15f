/**
 The authentication guard: a session flag set by a successful login, cleared
 by logout, and checked before every request except the login page, the logout
 action and static files.
 */
module Auth {
  import opened Common
  import Storage

  /** The per-browser session dictionary; only the "logged_in" flag is ever stored. */
  type Session = map<string, bool>

  const LoggedInKey: string := "logged_in"

  /** `session.get("logged_in")` is truthy. */
  predicate IsLoggedIn(session: Session)
  {
    LoggedInKey in session && session[LoggedInKey]
  }

  /** What the login POST answers: a redirect to the schedule, or the form again with an error. */
  datatype LoginOutcome = RedirectToSchedule | InvalidCredentials

  datatype LoginResult = LoginResult(session: Session, outcome: LoginOutcome)

  // ---------------------------------------------------------------------------
  // Login as written
  // ---------------------------------------------------------------------------

  /**
   The login POST as written: the submitted and the stored credentials are
   compared as optional values, so an absent form field equals an absent
   setting. On a match the flag is set; otherwise the session is left as it
   was, which keeps an already logged-in session logged in.
   */
  function LoginAsWritten(session: Session, settings: map<string, string>, form: Form): (r: LoginResult)
    ensures r.outcome == RedirectToSchedule <==>
              Lookup(form, "username") == Lookup(settings, "login_username")
              && Lookup(form, "password") == Lookup(settings, "login_password")
    ensures r.outcome == RedirectToSchedule ==> IsLoggedIn(r.session) && r.session == session[LoggedInKey := true]
    ensures r.outcome == InvalidCredentials ==> r.session == session
  {
    if Lookup(form, "username") == Lookup(settings, "login_username")
       && Lookup(form, "password") == Lookup(settings, "login_password")
    then LoginResult(session[LoggedInKey := true], RedirectToSchedule)
    else LoginResult(session, InvalidCredentials)
  }

  /**
   With the settings used before any settings have been saved, which hold no
   credentials, a login POST that omits both fields logs in.
   */
  lemma AbsentCredentialsLogIn()
    ensures var r := LoginAsWritten(map[], Storage.DefaultSettings, map[]);
      r.outcome == RedirectToSchedule && IsLoggedIn(r.session)
  {
  }

  // ---------------------------------------------------------------------------
  // Login, corrected
  // ---------------------------------------------------------------------------

  /** Both credentials are stored and the form submits exactly those values. */
  predicate CredentialsMatch(settings: map<string, string>, form: Form)
  {
    && "login_username" in settings && "login_password" in settings
    && Lookup(form, "username") == Some(settings["login_username"])
    && Lookup(form, "password") == Some(settings["login_password"])
  }

  /**
   The login POST: the flag is set only when stored credentials exist and the
   submitted username and password equal them exactly.
   */
  function Login(session: Session, settings: map<string, string>, form: Form): (r: LoginResult)
    ensures r.outcome == RedirectToSchedule <==>
              && "login_username" in settings && "login_password" in settings
              && "username" in form && form["username"] == settings["login_username"]
              && "password" in form && form["password"] == settings["login_password"]
    ensures r.outcome == RedirectToSchedule ==> IsLoggedIn(r.session) && r.session == session[LoggedInKey := true]
    ensures r.outcome == InvalidCredentials ==> r.session == session
  {
    if CredentialsMatch(settings, form)
    then LoginResult(session[LoggedInKey := true], RedirectToSchedule)
    else LoginResult(session, InvalidCredentials)
  }

  /** Once both credentials are stored, the corrected login behaves exactly as written. */
  lemma LoginAgreesOnceCredentialsStored(session: Session, settings: map<string, string>, form: Form)
    requires "login_username" in settings && "login_password" in settings
    ensures Login(session, settings, form) == LoginAsWritten(session, settings, form)
  {
  }

  /** Without stored credentials no form logs in. */
  lemma NoStoredCredentialsNoLogin(session: Session, form: Form)
    ensures Login(session, Storage.DefaultSettings, form).outcome == InvalidCredentials
  {
  }

  // ---------------------------------------------------------------------------
  // Logout and the guard
  // ---------------------------------------------------------------------------

  /** Logout clears the whole session. */
  function Logout(session: Session): (r: Session)
    ensures |r| == 0
    ensures !IsLoggedIn(r)
  {
    map[]
  }

  /** The endpoints reachable without a session; `None` is a URL no route matches. */
  const PublicEndpoints: set<Option<string>> := {Some("login"), Some("logout"), Some("static")}

  /**
   The pre-request guard: true when the request is redirected to the login page.
   In the two states of the session, exactly the anonymous (empty) session is
   redirected, and only away from the public endpoints.
   */
  function RequireLogin(endpoint: Option<string>, session: Session): (redirect: bool)
    ensures redirect <==> endpoint !in PublicEndpoints && !IsLoggedIn(session)
    ensures IsAuthState(session) ==> (redirect <==> endpoint !in PublicEndpoints && session == map[])
  {
    endpoint !in PublicEndpoints && !IsLoggedIn(session)
  }

  /** Which login check handles a login POST: the one the program performs, or the corrected one. */
  datatype LoginRule = AsWritten | Corrected

  /** The login POST under `rule`. */
  function LoginWith(rule: LoginRule, session: Session, settings: map<string, string>, form: Form): LoginResult
  {
    match rule
    case AsWritten => LoginAsWritten(session, settings, form)
    case Corrected => Login(session, settings, form)
  }

  /** Under either login check, after a successful login no endpoint is redirected. */
  lemma LoginGrantsAccess(rule: LoginRule, session: Session, settings: map<string, string>, form: Form, endpoint: Option<string>)
    requires LoginWith(rule, session, settings, form).outcome == RedirectToSchedule
    ensures !RequireLogin(endpoint, LoginWith(rule, session, settings, form).session)
  {
  }

  /** After logout every endpoint but the public ones is redirected. */
  lemma LogoutRevokesAccess(session: Session, endpoint: Option<string>)
    requires endpoint !in PublicEndpoints
    ensures RequireLogin(endpoint, Logout(session))
  {
  }

  /** Under either login check, a failed login changes no guard decision. */
  lemma FailedLoginKeepsAccess(rule: LoginRule, session: Session, settings: map<string, string>, form: Form, endpoint: Option<string>)
    requires LoginWith(rule, session, settings, form).outcome == InvalidCredentials
    ensures RequireLogin(endpoint, LoginWith(rule, session, settings, form).session) == RequireLogin(endpoint, session)
  {
  }

  // ---------------------------------------------------------------------------
  // The two-state machine
  // ---------------------------------------------------------------------------

  /** A request that can change the session. */
  datatype AuthEvent = LoginPost(form: Form) | LogoutRequest

  /** The session after one request. */
  function Step(rule: LoginRule, session: Session, settings: map<string, string>, event: AuthEvent): Session
  {
    match event
    case LoginPost(form) => LoginWith(rule, session, settings, form).session
    case LogoutRequest => Logout(session)
  }

  /** The session after handling `events` in order, starting from `session`. */
  function Run(rule: LoginRule, session: Session, settings: map<string, string>, events: seq<AuthEvent>): Session
    decreases |events|
  {
    if events == [] then session
    else Run(rule, Step(rule, session, settings, events[0]), settings, events[1..])
  }

  /** The two states of the guard: the anonymous (empty) session and the logged-in one. */
  predicate IsAuthState(session: Session)
  {
    session == map[] || session == map[LoggedInKey := true]
  }

  /**
   Under either login check, starting from a new (empty) session, every
   sequence of logins and logouts leaves the session in one of the two states;
   it is logged in exactly in the second.
   */
  lemma {:induction false} RunStaysInAuthStates(rule: LoginRule, session: Session, settings: map<string, string>, events: seq<AuthEvent>)
    requires IsAuthState(session)
    ensures IsAuthState(Run(rule, session, settings, events))
    ensures IsLoggedIn(Run(rule, session, settings, events)) <==> Run(rule, session, settings, events) == map[LoggedInKey := true]
    decreases |events|
  {
    if events != [] {
      var next := Step(rule, session, settings, events[0]);
      assert IsAuthState(next) by {
        if events[0].LoginPost? && LoginWith(rule, session, settings, events[0].form).outcome == RedirectToSchedule {
          assert next == session[LoggedInKey := true];
          assert next == map[LoggedInKey := true];
        }
      }
      RunStaysInAuthStates(rule, next, settings, events[1..]);
    } else {
      var on: Session := map[LoggedInKey := true];
      assert LoggedInKey in on;
    }
  }
}
