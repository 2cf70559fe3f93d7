/**
 * The sign-in handlers of `internal/handlers/auth.go`: the login form (password or QR), logout,
 * the profile actions that end sessions, the WebDAV token page actions, and the two halves of
 * Google sign-in. Randomness, hashing, base64, the clock and Google's answers are parameters.
 */
module AuthHandlers {
  import opened Wrappers
  import opened Text
  import opened Tables
  import opened Accounts
  import opened Sessions
  import opened GoogleOAuth
  import opened Common
  import opened WebDav

  // ---------------------------------------------------------------------------------------
  // Login form

  const LoginTemplate: string := "login.html"
  const BadQR: string := "Código QR inválido o caducado"
  const BadCredentials: string := "Usuario o contraseña incorrectos"
  const MissingCredentials: string := "Por favor proporciona credenciales válidas"

  /** The posted login form: `username`, `password` and `qr_data`. */
  datatype LoginForm = LoginForm(username: string, password: string, qrData: string)

  /**
   * Which credentials the login form is judged by, and the message shown when they fail: a
   * non-empty QR payload wins over the password fields, and the password path needs both fields.
   */
  function LoginDecision(form: LoginForm, users: seq<UserRow>, grants: seq<Grant>,
                         base64Decode: string -> Option<string>, sha256Hex: string -> string,
                         bcryptMatches: (string, string) -> bool): (r: Result<User, string>)
    ensures form.qrData != "" ==>
      var qr := LoginWithQR(form.qrData, users, grants, base64Decode, sha256Hex, bcryptMatches);
      (r.Success? <==> qr.Success?) && (r.Success? ==> r.value == qr.value) && (r.Failure? ==> r.error == BadQR)
    ensures form.qrData == "" && form.username != "" && form.password != "" ==>
      var login := Login(users, grants, form.username, form.password, bcryptMatches);
      (r.Success? <==> login.Success?) && (r.Success? ==> r.value == login.value) &&
      (r.Failure? ==> r.error == BadCredentials)
    ensures form.qrData == "" && (form.username == "" || form.password == "") ==> r == Failure(MissingCredentials)
  {
    if form.qrData != "" then
      match LoginWithQR(form.qrData, users, grants, base64Decode, sha256Hex, bcryptMatches)
      case Success(u) => Success(u)
      case Failure(_) => Failure(BadQR)
    else if form.username != "" && form.password != "" then
      match Login(users, grants, form.username, form.password, bcryptMatches)
      case Success(u) => Success(u)
      case Failure(_) => Failure(BadCredentials)
    else Failure(MissingCredentials)
  }

  /**
   * The form does not reveal whether a username exists: an unknown user and a wrong password
   * for a known one produce the same message.
   */
  lemma NoUsernameOracle(users: seq<UserRow>, grants: seq<Grant>, username: string, password: string,
                         other: string, bcryptMatches: (string, string) -> bool,
                         base64Decode: string -> Option<string>, sha256Hex: string -> string)
    requires username != "" && password != "" && other != ""
    requires GetUser(users, grants, username).Failure?
    requires GetUser(users, grants, other).Success?
    requires VerifyPassword(GetUser(users, grants, other).value, password, bcryptMatches).Failure?
    ensures LoginDecision(LoginForm(username, password, ""), users, grants, base64Decode, sha256Hex, bcryptMatches) ==
            LoginDecision(LoginForm(other, password, ""), users, grants, base64Decode, sha256Hex, bcryptMatches)
    ensures LoginDecision(LoginForm(username, password, ""), users, grants, base64Decode, sha256Hex, bcryptMatches) ==
            Failure(BadCredentials)
  {
  }

  /**
   * `handleLoginPost`: on success a "Web Browser" session is created, its cookies are set and
   * the browser goes to "/"; on failure the login page is shown again with the message and no
   * session exists.
   */
  method HandleLoginPost(sessions: SessionTable, form: LoginForm, users: seq<UserRow>, grants: seq<Grant>,
                         base64Decode: string -> Option<string>, sha256Hex: string -> string,
                         bcryptMatches: (string, string) -> bool, ipAddress: string, userAgent: string,
                         now: int, tokenBytes: seq<Byte>, idBytes: seq<Byte>)
      returns (resp: Response, cookies: seq<Cookie>)
    requires |tokenBytes| == 32 && |idBytes| == 32
    modifies sessions
    ensures var d := LoginDecision(form, users, grants, base64Decode, sha256Hex, bcryptMatches);
      d.Failure? ==> resp == Form(LoginTemplate, d.error) && cookies == [] && sessions.rows == old(sessions.rows)
    ensures var d := LoginDecision(form, users, grants, base64Decode, sha256Hex, bcryptMatches);
      d.Success? ==>
        resp == Redirect("/") &&
        |sessions.rows| == |old(sessions.rows)| + 1 && sessions.rows[..|old(sessions.rows)|] == old(sessions.rows) &&
        var s := sessions.rows[|old(sessions.rows)|];
        s.userId == d.value.id && s.deviceName == DefaultDeviceName && s.isActive &&
        s.expiresAt == now + ThirtyDays && cookies == LoginCookies(s, d.value)
  {
    var d := LoginDecision(form, users, grants, base64Decode, sha256Hex, bcryptMatches);
    if d.Failure? {
      return Form(LoginTemplate, d.error), [];
    }
    var s;
    s, cookies := sessions.SetUserSession(d.value, DefaultDeviceName, ipAddress, userAgent, now, tokenBytes, idBytes);
    resp := Redirect("/");
  }

  /** `Logout`: the cookie's live session, if any, is deactivated and the cookies are cleared. */
  method Logout(sessions: SessionTable, cookies: map<string, string>, now: int) returns (resp: Response, cleared: seq<Cookie>)
    modifies sessions
    ensures resp == Redirect(LoginPath) && cleared == LogoutCookies
    ensures "session_token" in cookies && GetSessionByToken(old(sessions.rows), cookies["session_token"], now).Some? ==>
      sessions.rows == Deactivate(old(sessions.rows), GetSessionByToken(old(sessions.rows), cookies["session_token"], now).value.id, now)
    ensures !("session_token" in cookies && GetSessionByToken(old(sessions.rows), cookies["session_token"], now).Some?) ==>
      sessions.rows == old(sessions.rows)
  {
    cleared := sessions.ClearUserSession(cookies, now);
    resp := Redirect(LoginPath);
  }

  // ---------------------------------------------------------------------------------------
  // Profile actions

  const SessionClosed: string := "/perfil?success=Sesión cerrada correctamente"
  const OthersClosed: string := "/perfil?success=Todas las demás sesiones han sido cerradas"

  /**
   * The corrected "logout_session": the session with that id is ended only when it belongs to
   * the signed-in user.
   */
  function DeactivateOwn(rows: seq<Session>, userId: int, id: string, now: int): (r: seq<Session>)
    ensures |r| == |rows|
    ensures forall i :: 0 <= i < |rows| && (rows[i].userId != userId || rows[i].id != id) ==> r[i] == rows[i]
    ensures forall i :: 0 <= i < |rows| && rows[i].userId == userId && rows[i].id == id ==>
      !r[i].isActive && r[i].updatedAt == now && r[i].token == rows[i].token
  {
    UpdateWhere(rows, (s: Session) => s.id == id && s.userId == userId,
                (s: Session) => s.(isActive := false, updatedAt := now))
  }

  /**
   * As written, "logout_session" passes the posted id to `DeactivateSession` without checking
   * its owner: any signed-in user who knows another user's session id ends that session.
   */
  lemma LogoutSessionIgnoresOwner(rows: seq<Session>, callerId: int, k: nat, now: int)
    requires k < |rows| && rows[k].userId != callerId && rows[k].id != ""
    ensures !Deactivate(rows, rows[k].id, now)[k].isActive
    ensures DeactivateOwn(rows, callerId, rows[k].id, now)[k] == rows[k]
  {
  }

  /** The corrected action never touches another user's session and does end the caller's own. */
  lemma {:induction false} OwnLogoutEndsOwnSession(rows: seq<Session>, callerId: int, id: string, now: int,
                                                   token: string, later: int)
    requires forall i, j :: 0 <= i < |rows| && 0 <= j < |rows| && rows[i].token == token && rows[j].token == token ==> i == j
    requires GetSessionByToken(rows, token, now).Some?
    requires GetSessionByToken(rows, token, now).value.id == id
    requires GetSessionByToken(rows, token, now).value.userId == callerId
    ensures GetSessionByToken(DeactivateOwn(rows, callerId, id, now), token, later).None?
  {
    var after := DeactivateOwn(rows, callerId, id, now);
    var s := GetSessionByToken(rows, token, now).value;
    forall j | 0 <= j < |after| ensures !Live(after[j], token, later) {
      if rows[j].token == token {
        var i :| 0 <= i < |rows| && rows[i] == s;
        assert i == j;
      }
    }
  }

  /**
   * `ProfilePost`: "logout_session" ends the session with the posted id, whoever owns it (see
   * `LogoutSessionIgnoresOwner`); "logout_all_sessions" ends every other session of the user and
   * keeps the current one.
   */
  method ProfilePost(sessions: SessionTable, ctx: Option<Principal>, action: string, sessionId: string, now: int)
      returns (resp: Response)
    modifies sessions
    ensures ctx.None? ==> resp == Redirect(LoginPath) && sessions.rows == old(sessions.rows)
    ensures ctx.Some? && action == "logout_session" ==>
      resp == Redirect(SessionClosed) &&
      sessions.rows == if sessionId == "" then old(sessions.rows)
                       else Deactivate(old(sessions.rows), sessionId, now)
    ensures ctx.Some? && action == "logout_all_sessions" ==>
      resp == Redirect(OthersClosed) &&
      sessions.rows == DeactivateOthers(old(sessions.rows), ctx.value.user.id, ctx.value.session.id, now)
    ensures ctx.Some? && action != "logout_session" && action != "logout_all_sessions" ==>
      resp == Redirect("/perfil") && sessions.rows == old(sessions.rows)
  {
    if ctx.None? {
      return Redirect(LoginPath);
    }
    var user := ctx.value.user;
    if action == "logout_session" {
      if sessionId != "" {
        sessions.DeactivateSession(sessionId, now);
      }
      resp := Redirect(SessionClosed);
    } else if action == "logout_all_sessions" {
      sessions.DeactivateAllUserSessions(user.id, ctx.value.session.id, now);
      resp := Redirect(OthersClosed);
    } else {
      resp := Redirect("/perfil");
    }
  }

  // ---------------------------------------------------------------------------------------
  // WebDAV token page

  const TokenPage: string := "/perfil/webdav"

  /**
   * `WebDAVCreateToken`: a device name is required; the new token belongs to the signed-in user
   * and the redirect names the device.
   */
  method WebDAVCreateToken(tokens: TokenTable, user: Option<User>, deviceName: string, token: string, now: int)
      returns (resp: Response)
    modifies tokens
    ensures user.None? ==> resp == Redirect(LoginPath) && tokens.rows == old(tokens.rows)
    ensures user.Some? && deviceName == "" ==>
      resp == Redirect(TokenPage + "?error=Nombre del dispositivo requerido") && tokens.rows == old(tokens.rows)
    ensures user.Some? && deviceName != "" ==>
      resp == Redirect(TokenPage + "?success=Token creado para " + deviceName) &&
      tokens.rows == old(tokens.rows) +
        [WebDavToken(NextTokenId(old(tokens.rows)), user.value.id, deviceName, token, now, now, now + ThirtyDays, true)]
  {
    if user.None? {
      return Redirect(LoginPath);
    }
    if deviceName == "" {
      return Redirect(TokenPage + "?error=Nombre del dispositivo requerido");
    }
    var t := tokens.CreateWebDAVToken(user.value.id, deviceName, token, now);
    resp := Redirect(TokenPage + "?success=Token creado para " + deviceName);
  }

  /** `WebDAVRevokeToken`: the id must parse as an integer; only the caller's own token is revoked. */
  method WebDAVRevokeToken(tokens: TokenTable, user: Option<User>, idParam: string) returns (resp: Response)
    modifies tokens
    ensures user.None? ==> resp == Redirect(LoginPath) && tokens.rows == old(tokens.rows)
    ensures user.Some? && Atoi(idParam).None? ==>
      resp == Redirect(TokenPage + "?error=ID de token inválido") && tokens.rows == old(tokens.rows)
    ensures user.Some? && Atoi(idParam).Some? ==>
      resp == Redirect(TokenPage + "?success=Token revocado correctamente") &&
      tokens.rows == RevokeToken(old(tokens.rows), Atoi(idParam).value, user.value.id)
  {
    if user.None? {
      return Redirect(LoginPath);
    }
    var id := Atoi(idParam);
    if id.None? {
      return Redirect(TokenPage + "?error=ID de token inválido");
    }
    tokens.RevokeWebDAVToken(id.value, user.value.id);
    resp := Redirect(TokenPage + "?success=Token revocado correctamente");
  }

  // ---------------------------------------------------------------------------------------
  // Google sign-in

  const StateCookie: string := "oauth_state"
  const StateMaxAge: int := 300
  const ClearedStateCookie: Cookie := Cookie(StateCookie, "", -1, true)
  const OAuthDeviceName: string := "Google OAuth"

  /**
   * `GoogleOAuthLogin`: each configuration error has its own message; otherwise a five-minute
   * http-only `oauth_state` cookie holds the state (the hex SHA-256 of the decimal Unix time),
   * and the browser is sent to Google's consent page with a 307.
   */
  function GoogleOAuthLogin(settings: Option<map<string, string>>, now: int, sha256Hex: string -> string,
                            authCodeUrl: (OAuthConfig, string) -> string): (r: (Response, seq<Cookie>))
    ensures GetGoogleOAuthConfig(settings) == Failure(OAuthDisabled) ==>
      r == (Redirect("/login?error=OAuth está deshabilitado"), [])
    ensures GetGoogleOAuthConfig(settings) == Failure(OAuthMisconfigured) ==>
      r == (Redirect("/login?error=OAuth no está configurado correctamente"), [])
    ensures GetGoogleOAuthConfig(settings) == Failure(SettingsUnavailable) ==>
      r == (Redirect("/login?error=Error de configuración OAuth"), [])
    ensures GetGoogleOAuthConfig(settings).Success? ==>
      var state := sha256Hex(IntToString(now));
      r.0 == TemporaryRedirect(authCodeUrl(GetGoogleOAuthConfig(settings).value, state)) &&
      r.1 == [Cookie(StateCookie, state, StateMaxAge, true)]
  {
    var c := GetGoogleOAuthConfig(settings);
    if c.Failure? then (Redirect(LoginErrorLocation(c.error)), [])
    else
      var state := sha256Hex(IntToString(now));
      (TemporaryRedirect(authCodeUrl(c.value, state)), [Cookie(StateCookie, state, StateMaxAge, true)])
  }

  /** The login page with the message of each configuration error. */
  function LoginErrorLocation(e: OAuthError): string {
    match e
    case OAuthDisabled => "/login?error=OAuth está deshabilitado"
    case OAuthMisconfigured => "/login?error=OAuth no está configurado correctamente"
    case SettingsUnavailable => "/login?error=Error de configuración OAuth"
  }

  /** The query of Google's redirect back (`state`, `code`) and the request's cookies. */
  datatype CallbackRequest = CallbackRequest(state: string, code: string, cookies: map<string, string>)

  /** The CSRF check: the returned state is present and equals the stored cookie. */
  predicate StateValid(req: CallbackRequest) {
    StateCookie in req.cookies && req.state != "" && req.state == req.cookies[StateCookie]
  }

  /**
   * The browser that started sign-in and comes back with the state Google echoes passes the
   * check, whatever the hash function (it only has to produce something).
   */
  lemma StateRoundTrip(settings: Option<map<string, string>>, now: int, sha256Hex: string -> string,
                       authCodeUrl: (OAuthConfig, string) -> string, code: string)
    requires GetGoogleOAuthConfig(settings).Success?
    requires sha256Hex(IntToString(now)) != ""
    ensures var cookie := GoogleOAuthLogin(settings, now, sha256Hex, authCodeUrl).1[0];
            StateValid(CallbackRequest(cookie.value, code, map[cookie.name := cookie.value]))
  {
  }

  /** The outcome of the callback's checks, before any account is looked up. */
  datatype Verdict =
    | Reject(location: string)
    | Crash
    | Admit(info: GoogleUserInfo)

  /**
   * The checks of `GoogleOAuthCallback`, in order: state, code, configuration, token exchange,
   * user info, and the hosted domain (which panics on an e-mail without "@").
   */
  function CheckCallback(req: CallbackRequest, settings: Option<map<string, string>>,
                         exchangeSucceeds: string -> bool, userInfo: Option<GoogleUserInfo>): Verdict
  {
    if !StateValid(req) then Reject("/login?error=Estado de OAuth inválido")
    else if req.code == "" then Reject("/login?error=Autorización de Google denegada")
    else if GetGoogleOAuthConfig(settings).Failure? then Reject("/login?error=Error de configuración OAuth")
    else if !exchangeSucceeds(req.code) then Reject("/login?error=Error al obtener token de Google")
    else if userInfo.None? then Reject("/login?error=Error al obtener información del usuario")
    else
      var domain := ValidateGoogleOAuthDomain(settings, userInfo.value.email);
      if domain == DomainPanic then Crash
      else if domain.DomainRejected? then
        Reject("/login?error=Dominio no permitido: domain " + domain.emailDomain + " is not allowed")
      else Admit(userInfo.value)
  }

  /**
   * What the checks decide: a bad state is rejected before anything else; a user is admitted
   * exactly when every check passes; a panicking domain check is a crash, and a rejected
   * domain names the e-mail's domain.
   */
  lemma CallbackVerdicts(req: CallbackRequest, settings: Option<map<string, string>>,
                         exchangeSucceeds: string -> bool, userInfo: Option<GoogleUserInfo>, v: Verdict)
    requires v == CheckCallback(req, settings, exchangeSucceeds, userInfo)
    ensures !StateValid(req) ==> v == Reject("/login?error=Estado de OAuth inválido")
    ensures v.Admit? <==>
      StateValid(req) && req.code != "" && GetGoogleOAuthConfig(settings).Success? &&
      exchangeSucceeds(req.code) && userInfo.Some? && ValidateGoogleOAuthDomain(settings, userInfo.value.email) == DomainAllowed
    ensures v.Admit? ==> userInfo == Some(v.info)
    ensures v == Crash <==>
      StateValid(req) && req.code != "" && GetGoogleOAuthConfig(settings).Success? && exchangeSucceeds(req.code) &&
      userInfo.Some? && ValidateGoogleOAuthDomain(settings, userInfo.value.email) == DomainPanic
    ensures StateValid(req) && req.code != "" && GetGoogleOAuthConfig(settings).Success? && exchangeSucceeds(req.code) &&
            userInfo.Some? && ValidateGoogleOAuthDomain(settings, userInfo.value.email).DomainRejected? ==>
      v == Reject("/login?error=Dominio no permitido: domain " +
                  ValidateGoogleOAuthDomain(settings, userInfo.value.email).emailDomain + " is not allowed")
  {
  }

  /** The observable steps of the callback, in the order the handler takes them. */
  datatype Step =
    | StateChecked | StateCookieCleared | CodeChecked | ConfigLoaded | CodeExchanged
    | UserInfoFetched | DomainChecked | UserLookedUp | UserProvisioned | SessionCreated

  /** The steps of a callback that signs someone in, with or without creating the account. */
  function CallbackTrace(provisioned: bool): seq<Step> {
    [StateChecked, StateCookieCleared, CodeChecked, ConfigLoaded, CodeExchanged, UserInfoFetched,
     DomainChecked, UserLookedUp] + (if provisioned then [UserProvisioned] else []) + [SessionCreated]
  }

  /** Every occurrence of `b` in `steps` comes after some occurrence of `a`. */
  predicate Precedes(steps: seq<Step>, a: Step, b: Step) {
    forall j :: 0 <= j < |steps| && steps[j] == b ==> exists i :: 0 <= i < j && steps[i] == a
  }

  /**
   * Any prefix of the trace checks the state before it touches the state cookie or Google,
   * checks the domain before it looks up or creates an account, and looks the account up before
   * creating it or opening a session.
   */
  lemma CallbackOrder(steps: seq<Step>, provisioned: bool)
    requires steps <= CallbackTrace(provisioned)
    ensures Precedes(steps, StateChecked, StateCookieCleared)
    ensures Precedes(steps, StateChecked, CodeExchanged)
    ensures Precedes(steps, CodeChecked, CodeExchanged)
    ensures Precedes(steps, DomainChecked, UserLookedUp)
    ensures Precedes(steps, DomainChecked, UserProvisioned)
    ensures Precedes(steps, UserLookedUp, UserProvisioned)
    ensures Precedes(steps, UserLookedUp, SessionCreated)
    ensures Precedes(steps, DomainChecked, SessionCreated)
  {
    var trace := CallbackTrace(provisioned);
    var head := trace[..8];
    assert head == [StateChecked, StateCookieCleared, CodeChecked, ConfigLoaded, CodeExchanged, UserInfoFetched,
                    DomainChecked, UserLookedUp];
    assert forall k :: 0 <= k < 8 ==> trace[k] == head[k];
    PrecedesInTrace(steps, trace, StateChecked, 0, StateCookieCleared);
    PrecedesInTrace(steps, trace, StateChecked, 0, CodeExchanged);
    PrecedesInTrace(steps, trace, CodeChecked, 2, CodeExchanged);
    PrecedesInTrace(steps, trace, DomainChecked, 6, UserLookedUp);
    PrecedesInTrace(steps, trace, DomainChecked, 6, UserProvisioned);
    PrecedesInTrace(steps, trace, UserLookedUp, 7, UserProvisioned);
    PrecedesInTrace(steps, trace, UserLookedUp, 7, SessionCreated);
    PrecedesInTrace(steps, trace, DomainChecked, 6, SessionCreated);
  }

  /** In a prefix of `trace`, `b` follows `a` when `a` sits at `at` and `b` does not occur up to there. */
  lemma PrecedesInTrace(steps: seq<Step>, trace: seq<Step>, a: Step, at: nat, b: Step)
    requires steps <= trace && at < |trace| && trace[at] == a
    requires forall j :: 0 <= j <= at ==> trace[j] != b
    ensures Precedes(steps, a, b)
  {
    forall j | 0 <= j < |steps| && steps[j] == b ensures exists i :: 0 <= i < j && steps[i] == a {
      assert steps[j] == trace[j];
      assert steps[at] == a;
    }
  }

  /** The steps up to the domain check create nothing and are where every full trace starts. */
  lemma EarlySteps(k: nat)
    requires k <= 7
    ensures var steps := CallbackTrace(false)[..k];
      UserProvisioned !in steps && SessionCreated !in steps && steps <= CallbackTrace(false)
  {
    var trace := CallbackTrace(false);
    assert trace[..7] == [StateChecked, StateCookieCleared, CodeChecked, ConfigLoaded, CodeExchanged, UserInfoFetched,
                          DomainChecked];
    assert forall j :: 0 <= j < k ==> trace[..k][j] == trace[..7][j];
  }

  /** The checks followed by what admitting the user did form a prefix of the full trace. */
  lemma LateSteps(tail: seq<Step>)
    requires tail == CallbackTrace(UserProvisioned in tail)[7..] || tail == [UserLookedUp]
    ensures var steps := CallbackTrace(false)[..7] + tail;
      steps <= CallbackTrace(UserProvisioned in steps) &&
      (UserProvisioned in steps <==> UserProvisioned in tail) &&
      (SessionCreated in steps <==> SessionCreated in tail)
  {
    var front := CallbackTrace(false)[..7];
    EarlySteps(7);
    assert CallbackTrace(true)[..7] == front;
    var steps := front + tail;
    assert UserProvisioned in steps <==> UserProvisioned in tail;
    if tail == [UserLookedUp] {
      assert steps == CallbackTrace(UserProvisioned in steps)[..8];
    } else {
      var full := CallbackTrace(UserProvisioned in tail);
      assert full == full[..7] + full[7..];
    }
  }

  /** The checks as the handler runs them; the state cookie is cleared once the state is good. */
  method RunCallbackChecks(req: CallbackRequest, settings: Option<map<string, string>>,
                           exchangeSucceeds: string -> bool, userInfo: Option<GoogleUserInfo>)
      returns (v: Verdict, cookies: seq<Cookie>, steps: seq<Step>)
    ensures v == CheckCallback(req, settings, exchangeSucceeds, userInfo)
    ensures StateValid(req) ==> cookies == [ClearedStateCookie]
    ensures !StateValid(req) ==> cookies == [] && steps == [StateChecked]
    ensures |steps| <= 7 && steps == CallbackTrace(false)[..|steps|]
    ensures v.Admit? ==> |steps| == 7
    ensures CodeExchanged in steps <==> StateValid(req) && req.code != "" && GetGoogleOAuthConfig(settings).Success?
  {
    var trace := CallbackTrace(false);
    assert trace == [StateChecked, StateCookieCleared, CodeChecked, ConfigLoaded, CodeExchanged, UserInfoFetched,
                     DomainChecked, UserLookedUp, SessionCreated];
    steps := trace[..1];
    cookies := [];
    if !StateValid(req) {
      return Reject("/login?error=Estado de OAuth inválido"), cookies, steps;
    }
    cookies := [ClearedStateCookie];
    steps := trace[..3];
    if req.code == "" {
      return Reject("/login?error=Autorización de Google denegada"), cookies, steps;
    }
    steps := trace[..4];
    var config := GetGoogleOAuthConfig(settings);
    if config.Failure? {
      return Reject("/login?error=Error de configuración OAuth"), cookies, steps;
    }
    steps := trace[..5];
    assert steps[4] == CodeExchanged;
    if !exchangeSucceeds(req.code) {
      return Reject("/login?error=Error al obtener token de Google"), cookies, steps;
    }
    steps := trace[..6];
    assert steps[4] == CodeExchanged;
    if userInfo.None? {
      return Reject("/login?error=Error al obtener información del usuario"), cookies, steps;
    }
    var info := userInfo.value;
    steps := trace[..7];
    assert steps[4] == CodeExchanged;
    var domain := ValidateGoogleOAuthDomain(settings, info.email);
    if domain == DomainPanic {
      return Crash, cookies, steps;
    }
    if domain.DomainRejected? {
      return Reject("/login?error=Dominio no permitido: domain " + domain.emailDomain + " is not allowed"), cookies, steps;
    }
    v := Admit(info);
  }

  /**
   * The end of the callback once every check passed: the account with that e-mail, created with
   * read-only permissions when there is none, gets a new "Google OAuth" session.
   */
  method SignInGoogleUser(accounts: UserTable, sessions: SessionTable, info: GoogleUserInfo, ipAddress: string,
                          userAgent: string, now: int, tokenBytes: seq<Byte>, idBytes: seq<Byte>)
      returns (provisioned: bool, cookies: seq<Cookie>)
    requires accounts.Valid()
    requires |tokenBytes| == 32 && |idBytes| == 32
    modifies accounts, sessions
    ensures accounts.Valid()
    ensures provisioned <==> GetUserByEmail(old(accounts.users), old(accounts.grants), info.email).Failure?
    ensures |sessions.rows| == |old(sessions.rows)| + 1 && sessions.rows[..|old(sessions.rows)|] == old(sessions.rows)
    ensures var s := sessions.rows[|old(sessions.rows)|];
      s.deviceName == OAuthDeviceName && s.isActive && s.expiresAt == now + ThirtyDays
    ensures !provisioned ==>
      var user := GetUserByEmail(old(accounts.users), old(accounts.grants), info.email).value;
      var s := sessions.rows[|old(sessions.rows)|];
      accounts.users == old(accounts.users) && accounts.grants == old(accounts.grants) &&
      s.userId == user.id && cookies == LoginCookies(s, user)
    ensures provisioned ==>
      |accounts.users| == |old(accounts.users)| + 1 && accounts.users[..|old(accounts.users)|] == old(accounts.users) &&
      accounts.users[|old(accounts.users)|].email == info.email &&
      accounts.users[|old(accounts.users)|].id == NextId(old(accounts.users)) &&
      accounts.grants == old(accounts.grants) + GrantsFor(NextId(old(accounts.users)), ReadOnlyPermissions) &&
      sessions.rows[|old(sessions.rows)|].userId == NextId(old(accounts.users))
  {
    var found := GetUserByEmail(accounts.users, accounts.grants, info.email);
    var user: User;
    if found.Success? {
      provisioned := false;
      user := found.value;
    } else {
      provisioned := true;
      ghost var before, beforeGrants := accounts.users, accounts.grants;
      var created := accounts.CreateUserFromGoogleOAuth(info);
      var row := accounts.users[|accounts.users| - 1];
      assert accounts.users == before + [row];
      SignUpFindsNewUser(before, beforeGrants, row, created);
      user := created.value;
    }
    var s;
    s, cookies := sessions.SetUserSession(user, OAuthDeviceName, ipAddress, userAgent, now, tokenBytes, idBytes);
  }

  /**
   * The callback after every check passed: the account lookup (which may fail with a database
   * error), then the sign-in. `tail` is what the handler does from the lookup on.
   */
  method AdmitGoogleUser(accounts: UserTable, sessions: SessionTable, info: GoogleUserInfo, lookupFails: bool,
                         ipAddress: string, userAgent: string, now: int, tokenBytes: seq<Byte>, idBytes: seq<Byte>)
      returns (resp: Response, cookies: seq<Cookie>, tail: seq<Step>)
    requires accounts.Valid()
    requires |tokenBytes| == 32 && |idBytes| == 32
    modifies accounts, sessions
    ensures accounts.Valid()
    ensures tail == CallbackTrace(UserProvisioned in tail)[7..] || tail == [UserLookedUp]
    ensures lookupFails ==>
      tail == [UserLookedUp] && cookies == [] && resp == Redirect("/login?error=Error de base de datos") &&
      sessions.rows == old(sessions.rows) && accounts.users == old(accounts.users) &&
      accounts.grants == old(accounts.grants)
    ensures !lookupFails ==>
      resp == Redirect("/") && SessionCreated in tail &&
      (UserProvisioned in tail <==> GetUserByEmail(old(accounts.users), old(accounts.grants), info.email).Failure?) &&
      |sessions.rows| == |old(sessions.rows)| + 1 && sessions.rows[..|old(sessions.rows)|] == old(sessions.rows) &&
      sessions.rows[|old(sessions.rows)|].deviceName == OAuthDeviceName &&
      sessions.rows[|old(sessions.rows)|].isActive
    ensures !lookupFails && GetUserByEmail(old(accounts.users), old(accounts.grants), info.email).Success? ==>
      var user := GetUserByEmail(old(accounts.users), old(accounts.grants), info.email).value;
      var s := sessions.rows[|old(sessions.rows)|];
      accounts.users == old(accounts.users) && accounts.grants == old(accounts.grants) &&
      s.userId == user.id && cookies == LoginCookies(s, user)
    ensures !lookupFails && GetUserByEmail(old(accounts.users), old(accounts.grants), info.email).Failure? ==>
      |accounts.users| == |old(accounts.users)| + 1 && accounts.users[..|old(accounts.users)|] == old(accounts.users) &&
      accounts.users[|old(accounts.users)|].email == info.email &&
      accounts.grants == old(accounts.grants) + GrantsFor(NextId(old(accounts.users)), ReadOnlyPermissions) &&
      sessions.rows[|old(sessions.rows)|].userId == NextId(old(accounts.users))
  {
    if lookupFails {
      return Redirect("/login?error=Error de base de datos"), [], [UserLookedUp];
    }
    var provisioned;
    provisioned, cookies := SignInGoogleUser(accounts, sessions, info, ipAddress, userAgent, now, tokenBytes, idBytes);
    tail := [UserLookedUp] + (if provisioned then [UserProvisioned] else []) + [SessionCreated];
    assert UserProvisioned in tail <==> provisioned;
    resp := Redirect("/");
  }

  /**
   * `GoogleOAuthCallback`. A rejected callback writes nothing; a panicking domain check answers
   * 500 through gin's recovery; after the checks, a failed lookup (`lookupFails`, a database
   * error other than "not found") writes nothing either; otherwise the account is found or
   * created and a session is opened. `steps` records what the handler did.
   */
  method GoogleOAuthCallback(accounts: UserTable, sessions: SessionTable, req: CallbackRequest,
                             settings: Option<map<string, string>>, exchangeSucceeds: string -> bool,
                             userInfo: Option<GoogleUserInfo>, lookupFails: bool, ipAddress: string,
                             userAgent: string, now: int, tokenBytes: seq<Byte>, idBytes: seq<Byte>)
      returns (resp: Response, cookies: seq<Cookie>, steps: seq<Step>)
    requires accounts.Valid()
    requires |tokenBytes| == 32 && |idBytes| == 32
    modifies accounts, sessions
    ensures accounts.Valid()
    ensures steps <= CallbackTrace(UserProvisioned in steps)
    ensures StateValid(req) <==> |cookies| > 0 && cookies[0] == ClearedStateCookie
    ensures var v := CheckCallback(req, settings, exchangeSucceeds, userInfo);
      !(v.Admit? && !lookupFails) ==>
        sessions.rows == old(sessions.rows) && accounts.users == old(accounts.users) &&
        accounts.grants == old(accounts.grants) && SessionCreated !in steps &&
        resp == (if v.Reject? then Redirect(v.location)
                 else if v.Crash? then Status(500, "")
                 else Redirect("/login?error=Error de base de datos"))
    ensures var v := CheckCallback(req, settings, exchangeSucceeds, userInfo);
      v.Admit? && !lookupFails ==>
        resp == Redirect("/") && SessionCreated in steps &&
        (UserProvisioned in steps <==> GetUserByEmail(old(accounts.users), old(accounts.grants), v.info.email).Failure?) &&
        |sessions.rows| == |old(sessions.rows)| + 1 && sessions.rows[..|old(sessions.rows)|] == old(sessions.rows) &&
        sessions.rows[|old(sessions.rows)|].deviceName == OAuthDeviceName &&
        sessions.rows[|old(sessions.rows)|].isActive
    ensures var v := CheckCallback(req, settings, exchangeSucceeds, userInfo);
      v.Admit? && !lookupFails && GetUserByEmail(old(accounts.users), old(accounts.grants), v.info.email).Success? ==>
        var user := GetUserByEmail(old(accounts.users), old(accounts.grants), v.info.email).value;
        var s := sessions.rows[|old(sessions.rows)|];
        accounts.users == old(accounts.users) && accounts.grants == old(accounts.grants) &&
        s.userId == user.id && cookies == [ClearedStateCookie] + LoginCookies(s, user)
    ensures var v := CheckCallback(req, settings, exchangeSucceeds, userInfo);
      v.Admit? && !lookupFails && GetUserByEmail(old(accounts.users), old(accounts.grants), v.info.email).Failure? ==>
        |accounts.users| == |old(accounts.users)| + 1 && accounts.users[..|old(accounts.users)|] == old(accounts.users) &&
        accounts.users[|old(accounts.users)|].email == v.info.email &&
        accounts.grants == old(accounts.grants) + GrantsFor(NextId(old(accounts.users)), ReadOnlyPermissions) &&
        sessions.rows[|old(sessions.rows)|].userId == NextId(old(accounts.users))
  {
    var v;
    v, cookies, steps := RunCallbackChecks(req, settings, exchangeSucceeds, userInfo);
    EarlySteps(|steps|);
    if v.Reject? {
      return Redirect(v.location), cookies, steps;
    }
    if v.Crash? {
      // gin.Recovery answers the panic with a bare 500.
      return Status(500, ""), cookies, steps;
    }
    var tail, signInCookies;
    resp, signInCookies, tail := AdmitGoogleUser(accounts, sessions, v.info, lookupFails, ipAddress, userAgent, now,
                                                 tokenBytes, idBytes);
    LateSteps(tail);
    steps := steps + tail;
    cookies := cookies + signInCookies;
  }
}
