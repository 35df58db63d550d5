/** The gateway's authentication handlers (cmd/api-gateway/handlers/auth.go): request
    checks made before the auth service is called, what is forwarded to it, and how its
    answer becomes an HTTP response and the auth_token cookie. */
module GatewayHandlers {
  import opened Wrappers
  import Text
  import PasswordPolicy
  import AuthService

  predicate IsAsciiLetter(c: char)
  {
    ('a' <= c <= 'z') || ('A' <= c <= 'Z')
  }

  predicate IsAsciiDigit(c: char)
  {
    '0' <= c <= '9'
  }

  /** `[a-zA-Z0-9._%+\-]`, the characters of the part before the `@`. */
  predicate IsLocalChar(c: char)
  {
    IsAsciiLetter(c) || IsAsciiDigit(c) || c == '.' || c == '_' || c == '%' || c == '+' || c == '-'
  }

  /** `[a-zA-Z0-9.\-]`, the characters of the domain before its last dot. */
  predicate IsDomainChar(c: char)
  {
    IsAsciiLetter(c) || IsAsciiDigit(c) || c == '.' || c == '-'
  }

  /** `s` matches `^[a-zA-Z0-9._%+\-]+@[a-zA-Z0-9.\-]+\.[a-zA-Z]{2,}$` with its `@` at
      index `at` and the dot before the final letters at index `dot`. */
  predicate EmailShapeAt(s: string, at: int, dot: int)
  {
    && 1 <= at && at + 2 <= dot && dot + 3 <= |s|
    && s[at] == '@' && s[dot] == '.'
    && (forall i :: 0 <= i < at ==> IsLocalChar(s[i]))
    && (forall i :: at < i < dot ==> IsDomainChar(s[i]))
    && (forall i :: dot < i < |s| ==> IsAsciiLetter(s[i]))
  }

  /** The number of local-part characters `s` starts with. */
  function LocalRun(s: string): (n: nat)
    ensures n <= |s|
    ensures forall k :: 0 <= k < n ==> IsLocalChar(s[k])
    ensures n < |s| ==> !IsLocalChar(s[n])
  {
    if s == [] || !IsLocalChar(s[0]) then 0 else 1 + LocalRun(s[1..])
  }

  /** The number of ASCII letters `s` ends with. */
  function TrailingLetters(s: string): (n: nat)
    ensures n <= |s|
    ensures forall k :: |s| - n <= k < |s| ==> IsAsciiLetter(s[k])
    ensures n < |s| ==> !IsAsciiLetter(s[|s| - n - 1])
  {
    if s == [] || !IsAsciiLetter(s[|s| - 1]) then 0 else 1 + TrailingLetters(s[..|s| - 1])
  }

  /** No local character is an `@` and no letter is a dot, so a match can only put its
      `@` right after the leading local characters and its dot right before the trailing
      letters. */
  lemma EmailPlacementForced(s: string)
    ensures forall at, dot :: EmailShapeAt(s, at, dot) ==>
      at == LocalRun(s) && dot == |s| - TrailingLetters(s) - 1
  {
    forall at, dot | EmailShapeAt(s, at, dot)
      ensures at == LocalRun(s) && dot == |s| - TrailingLetters(s) - 1
    {
      var a := LocalRun(s);
      var d := |s| - TrailingLetters(s) - 1;
      assert a == at && d == dot;
    }
  }

  /** isValidEmail: it accepts exactly the strings the regular expression matches, and
      checking the one possible placement of `@` and dot decides that. */
  function IsValidEmail(email: string): (b: bool)
    ensures b <==> exists at, dot :: EmailShapeAt(email, at, dot)
  {
    EmailPlacementForced(email);
    EmailShapeAt(email, LocalRun(email), |email| - TrailingLetters(email) - 1)
  }

  /** An ordinary address is accepted. */
  lemma EmailExample()
    ensures IsValidEmail("guest@example.com")
  {
    var s := "guest@example.com";
    assert EmailShapeAt(s, 5, 13) by {
      assert s[5] == '@' && s[13] == '.';
    }
  }

  /** A domain without a dot is refused. */
  lemma DotlessDomainRefused()
    ensures !IsValidEmail("guest@localhost")
  {
    var s := "guest@localhost";
    assert forall i :: 0 <= i < |s| ==> s[i] != '.';
  }

  /** The JSON bodies; a body that does not decode is None at the call sites. */
  datatype SignupBody = SignupBody(email: string, password: string, name: string)
  datatype LoginBody = LoginBody(email: string, password: string)

  datatype SameSite = SameSiteLax | SameSiteNone

  /** http.Cookie, the fields the handlers set. */
  datatype Cookie = Cookie(name: string, value: string, httpOnly: bool, secure: bool,
                           sameSite: SameSite, maxAge: int, path: string)

  /** The JSON the handlers write: an error, or one of the three success bodies. */
  datatype Payload =
    | ErrorBody(error: string)
    | LoginOk(message: string, expiresIn: int)
    | SignupOk(userId: string, message: string)
    | LogoutOk(message: string)

  datatype Response = Response(status: int, payload: Payload, cookie: Option<Cookie>)

  const StatusOK: int := 200
  const StatusBadRequest: int := 400
  const StatusConflict: int := 409
  const StatusInternalServerError: int := 500
  const CookieName: string := "auth_token"

  /** utils.ErrorResponse: the status, an {"error": message} body, and no cookie. */
  function ErrorResponse(status: int, message: string): (r: Response)
    ensures r.status == status && r.payload.ErrorBody? && r.payload.error == message
    ensures r.cookie == None
  {
    Response(status, ErrorBody(message), None)
  }

  /** os.Getenv over the process environment: "" for an unset variable. */
  function Getenv(env: map<string, string>, key: string): (v: string)
    ensures key in env ==> v == env[key]
    ensures key !in env ==> v == ""
  {
    if key in env then env[key] else ""
  }

  /** The cookie is marked Secure in production or when HTTPS is enabled; with neither
      variable set it is not. */
  function IsSecure(env: map<string, string>): (b: bool)
    ensures b <==> ("ENVIRONMENT" in env && env["ENVIRONMENT"] == "production")
                   || ("HTTPS_ENABLED" in env && env["HTTPS_ENABLED"] == "true")
    ensures "ENVIRONMENT" !in env && "HTTPS_ENABLED" !in env ==> !b
  {
    Getenv(env, "ENVIRONMENT") == "production" || Getenv(env, "HTTPS_ENABLED") == "true"
  }

  /** The auth_token cookie Login sets and Logout clears: http-only, for the whole site,
      Secure as the environment says, and cross-site (SameSite=None) exactly when it is
      Secure, otherwise Lax. */
  function AuthCookie(env: map<string, string>, value: string, maxAge: int): (c: Cookie)
    ensures c.name == CookieName && c.value == value && c.maxAge == maxAge && c.path == "/"
    ensures c.httpOnly
    ensures c.secure <==> IsSecure(env)
    ensures c.sameSite == SameSiteNone <==> c.secure
  {
    var secure := IsSecure(env);
    Cookie(CookieName, value, true, secure, if secure then SameSiteNone else SameSiteLax, maxAge, "/")
  }

  /** Signup's checks, in order, on the trimmed email, password and name; on success the
      request forwarded to Register carries the three trimmed values. A weak password is
      answered with the policy's own message. */
  function SignupCheck(b: SignupBody): (r: Result<AuthService.RegisterRequest, string>)
    ensures Text.TrimSpace(b.email) == [] ==> r == Failure("Email is required")
    ensures Text.TrimSpace(b.email) != [] && !IsValidEmail(Text.TrimSpace(b.email))
            ==> r == Failure("Invalid email format")
    ensures IsValidEmail(Text.TrimSpace(b.email)) && Text.TrimSpace(b.password) == []
            ==> r == Failure("Password is required")
    ensures IsValidEmail(Text.TrimSpace(b.email)) && Text.TrimSpace(b.password) != []
            && PasswordPolicy.ValidatePassword(Text.TrimSpace(b.password)).Some?
            ==> r == Failure(PasswordPolicy.Message(PasswordPolicy.ValidatePassword(Text.TrimSpace(b.password)).value))
    ensures IsValidEmail(Text.TrimSpace(b.email)) && Text.TrimSpace(b.password) != []
            && PasswordPolicy.ValidatePassword(Text.TrimSpace(b.password)) == None && Text.TrimSpace(b.name) == []
            ==> r == Failure("Name is required")
    ensures r.Success? <==>
      IsValidEmail(Text.TrimSpace(b.email)) && Text.TrimSpace(b.password) != []
      && PasswordPolicy.ValidatePassword(Text.TrimSpace(b.password)) == None && Text.TrimSpace(b.name) != []
    ensures r.Success? ==>
      r.value == AuthService.RegisterRequest(Text.TrimSpace(b.email), Text.TrimSpace(b.password), Text.TrimSpace(b.name))
  {
    var email := Text.TrimSpace(b.email);
    var password := Text.TrimSpace(b.password);
    var name := Text.TrimSpace(b.name);
    if email == [] then Failure("Email is required")
    else if !IsValidEmail(email) then Failure("Invalid email format")
    else if password == [] then Failure("Password is required")
    else match PasswordPolicy.ValidatePassword(password)
      case Some(e) => Failure(PasswordPolicy.Message(e))
      case None =>
        if name == [] then Failure("Name is required")
        else Success(AuthService.RegisterRequest(email, password, name))
  }

  /** How Signup answers Register's result: the new user's id; 409 when the error text
      mentions "already registered" or "duplicate"; 500 for any other error. */
  function SignupReply(rpc: Result<string, string>): (resp: Response)
    ensures resp.cookie == None
    ensures rpc.Success? <==> resp.status == StatusOK
    ensures rpc.Success? ==> resp.payload == SignupOk(rpc.value, "User registered successfully")
    ensures rpc.Failure? ==>
      (resp.status == StatusConflict
       <==> Text.Contains(rpc.error, "already registered") || Text.Contains(rpc.error, "duplicate"))
    ensures rpc.Failure? && resp.status == StatusConflict ==> resp.payload == ErrorBody("Email already registered")
    ensures rpc.Failure? && resp.status != StatusConflict ==> resp == ErrorResponse(StatusInternalServerError, "Registration failed")
  {
    match rpc
    case Success(userId) => Response(StatusOK, SignupOk(userId, "User registered successfully"), None)
    case Failure(e) =>
      if Text.Contains(e, "already registered") || Text.Contains(e, "duplicate") then
        ErrorResponse(StatusConflict, "Email already registered")
      else ErrorResponse(StatusInternalServerError, "Registration failed")
  }

  /** Signup. `body` is None when the JSON does not decode; `register` is the auth
      service's Register behind the gRPC client, giving the user id or the error text.
      Register is called only with a request that passed every check. */
  function Signup(body: Option<SignupBody>, register: AuthService.RegisterRequest -> Result<string, string>): (resp: Response)
    ensures body == None ==> resp == ErrorResponse(StatusBadRequest, "Invalid request body")
    ensures body.Some? && SignupCheck(body.value).Failure?
            ==> resp == ErrorResponse(StatusBadRequest, SignupCheck(body.value).error)
    ensures body.Some? && SignupCheck(body.value).Success?
            ==> resp == SignupReply(register(SignupCheck(body.value).value))
  {
    match body
    case None => ErrorResponse(StatusBadRequest, "Invalid request body")
    case Some(b) =>
      match SignupCheck(b)
      case Failure(m) => ErrorResponse(StatusBadRequest, m)
      case Success(req) => SignupReply(register(req))
  }

  /** A request the gateway forwards passes every check Register makes before hashing. */
  lemma SignupPassesRegisterChecks(b: SignupBody)
    requires SignupCheck(b).Success?
    ensures AuthService.RegisterInputError(SignupCheck(b).value) == None
  {
    Text.TrimSpaceIdempotent(b.email);
    Text.TrimSpaceIdempotent(b.password);
    Text.TrimSpaceIdempotent(b.name);
  }

  /** Register's taken-email error, however the transport wraps its text, is answered
      with 409. */
  lemma TakenEmailIsConflict(err: string, i: nat)
    requires Text.OccursAt(err, AuthService.EmailTaken, i)
    ensures SignupReply(Failure(err)).status == StatusConflict
  {
    assert err[i + 6..i + 24] == AuthService.EmailTaken[6..24];
    assert Text.OccursAt(err, "already registered", i + 6);
  }

  /** Login's checks: the trimmed email must be present and well formed and the password
      not blank. The password is checked trimmed but forwarded as sent; the policy is not
      applied. */
  function LoginCheck(b: LoginBody): (r: Result<AuthService.LoginRequest, string>)
    ensures Text.TrimSpace(b.email) == [] ==> r == Failure("Email is required")
    ensures Text.TrimSpace(b.email) != [] && !IsValidEmail(Text.TrimSpace(b.email))
            ==> r == Failure("Invalid email format")
    ensures IsValidEmail(Text.TrimSpace(b.email)) && Text.TrimSpace(b.password) == []
            ==> r == Failure("Password is required")
    ensures r.Success? <==> IsValidEmail(Text.TrimSpace(b.email)) && Text.TrimSpace(b.password) != []
    ensures r.Success? ==> r.value == AuthService.LoginRequest(Text.TrimSpace(b.email), b.password)
  {
    var email := Text.TrimSpace(b.email);
    if email == [] then Failure("Email is required")
    else if !IsValidEmail(email) then Failure("Invalid email format")
    else if Text.TrimSpace(b.password) == [] then Failure("Password is required")
    else Success(AuthService.LoginRequest(email, b.password))
  }

  /** How Login answers the auth service: a token becomes the auth_token cookie, living
      as many seconds as the token does; any error, wrong credentials included, is a 500. */
  function LoginReply(env: map<string, string>, rpc: Result<AuthService.LoginResponse, string>): (resp: Response)
    ensures rpc.Success? <==> resp.cookie.Some?
    ensures rpc.Success? ==>
      && resp.status == StatusOK
      && resp.payload == LoginOk("Login successful", rpc.value.expiresIn)
      && resp.cookie.value == AuthCookie(env, rpc.value.accessToken, rpc.value.expiresIn)
    ensures rpc.Failure? ==> resp == ErrorResponse(StatusInternalServerError, "Login failed")
  {
    match rpc
    case Success(res) =>
      Response(StatusOK, LoginOk("Login successful", res.expiresIn), Some(AuthCookie(env, res.accessToken, res.expiresIn)))
    case Failure(_) => ErrorResponse(StatusInternalServerError, "Login failed")
  }

  /** Login. `login` is the auth service's Login behind the gRPC client. */
  function Login(body: Option<LoginBody>, env: map<string, string>,
                 login: AuthService.LoginRequest -> Result<AuthService.LoginResponse, string>): (resp: Response)
    ensures body == None ==> resp == ErrorResponse(StatusBadRequest, "Invalid request body")
    ensures body.Some? && LoginCheck(body.value).Failure?
            ==> resp == ErrorResponse(StatusBadRequest, LoginCheck(body.value).error)
    ensures body.Some? && LoginCheck(body.value).Success?
            ==> resp == LoginReply(env, login(LoginCheck(body.value).value))
  {
    match body
    case None => ErrorResponse(StatusBadRequest, "Invalid request body")
    case Some(b) =>
      match LoginCheck(b)
      case Failure(m) => ErrorResponse(StatusBadRequest, m)
      case Success(req) => LoginReply(env, login(req))
  }

  /** Logout: no token check, and the auth_token cookie emptied and expired at once. */
  function Logout(env: map<string, string>): (resp: Response)
    ensures resp.status == StatusOK && resp.payload == LogoutOk("Logout successful")
    ensures resp.cookie.Some? && resp.cookie.value.value == [] && resp.cookie.value.maxAge == -1
  {
    Response(StatusOK, LogoutOk("Logout successful"), Some(AuthCookie(env, "", -1)))
  }

  /** The cookie Logout sends names the same cookie Login set (same name, path and
      attributes), so the browser replaces it with an expired, empty one. */
  lemma LogoutClearsLoginCookie(env: map<string, string>, res: AuthService.LoginResponse)
    ensures var issued := LoginReply(env, Success(res)).cookie.value;
      var cleared := Logout(env).cookie.value;
      issued.name == cleared.name && issued.path == cleared.path
      && issued.secure == cleared.secure && issued.sameSite == cleared.sameSite
      && cleared.value == [] && cleared.maxAge == -1
  {
  }

  /** Signup stores the trimmed password but Login forwards the password as typed: for
      the same credentials the two requests carry the same password exactly when it has
      no surrounding white space, so a password registered with surrounding white space
      and typed the same way again does not reach Register's hash unchanged. */
  lemma SignupAndLoginForwardPassword(email: string, password: string, name: string)
    requires SignupCheck(SignupBody(email, password, name)).Success?
    ensures LoginCheck(LoginBody(email, password)).Success?
    ensures LoginCheck(LoginBody(email, password)).value.password
            == SignupCheck(SignupBody(email, password, name)).value.password
            <==> Text.TrimSpace(password) == password
  {
  }
}
