/** The gateway's authentication middleware (cmd/api-gateway/middleware/auth.go): where
    the bearer token is taken from, and how the auth service's Validate answer decides
    between calling the next handler and answering 401 or 403. */
module GatewayMiddleware {
  import opened Wrappers
  import Text
  import AuthService

  const BearerPrefix: string := "Bearer "
  const UserIdKey: string := "user_id"
  const RoleKey: string := "role"
  const StatusUnauthorized: int := 401
  const StatusForbidden: int := 403

  /** What the middleware reads of a request: the first Authorization header ("" when
      absent), the auth_token cookie's value if the request has one, and the string
      values of its context. */
  datatype Request = Request(authorization: string, authCookie: Option<string>, context: map<string, string>)

  /** The middleware either answers itself with a status and an error message, or calls
      the next handler with the given context. */
  datatype Outcome = Respond(status: int, error: string) | Next(context: map<string, string>)

  /** The token an Authorization header carries: what follows the case-sensitive
      "Bearer " prefix, trimmed, if that is not empty. */
  function HeaderToken(header: string): (t: Option<string>)
    ensures t.Some? <==> Text.HasPrefix(header, BearerPrefix) && Text.TrimSpace(header[|BearerPrefix|..]) != []
    ensures t.Some? ==> t.value == Text.TrimSpace(header[|BearerPrefix|..])
  {
    if Text.HasPrefix(header, BearerPrefix) && Text.TrimSpace(header[|BearerPrefix|..]) != [] then
      Some(Text.TrimSpace(header[|BearerPrefix|..]))
    else None
  }

  /** extractBearerToken: the header's token when there is one, else a non-empty
      auth_token cookie, else "". The header wins over the cookie; a header without the
      prefix or with nothing after it falls back to the cookie. */
  function ExtractBearerToken(r: Request): (token: string)
    ensures HeaderToken(r.authorization).Some? ==> token == HeaderToken(r.authorization).value
    ensures HeaderToken(r.authorization) == None && r.authCookie.Some? && r.authCookie.value != []
            ==> token == r.authCookie.value
    ensures token == [] <==> HeaderToken(r.authorization) == None && (r.authCookie == None || r.authCookie.value == [])
  {
    match HeaderToken(r.authorization)
    case Some(t) => t
    case None =>
      if r.authCookie.Some? && r.authCookie.value != [] then r.authCookie.value else ""
  }

  /** A token taken from the header has no surrounding white space. */
  lemma HeaderTokenIsTrimmed(header: string)
    requires HeaderToken(header).Some?
    ensures Text.TrimSpace(HeaderToken(header).value) == HeaderToken(header).value
  {
    Text.TrimSpaceIdempotent(header[|BearerPrefix|..]);
  }

  /** RequireAuth. `validate` is the auth service's Validate behind the gRPC client,
      giving its response or an error text. No token: 401 without calling Validate. A
      transport error: 401 "Invalid token". A token Validate rejects: 401 "Invalid or
      expired token". Otherwise the next handler runs with the user id and role added to
      the context. */
  function RequireAuth(r: Request, validate: string -> Result<AuthService.ValidateResponse, string>): (o: Outcome)
    ensures ExtractBearerToken(r) == [] ==> o == Respond(StatusUnauthorized, "Missing or invalid authorization header")
    ensures ExtractBearerToken(r) != [] && validate(ExtractBearerToken(r)).Failure?
            ==> o == Respond(StatusUnauthorized, "Invalid token")
    ensures ExtractBearerToken(r) != [] && validate(ExtractBearerToken(r)).Success?
            && !validate(ExtractBearerToken(r)).value.valid
            ==> o == Respond(StatusUnauthorized, "Invalid or expired token")
    ensures o.Respond? ==> o.status == StatusUnauthorized
    ensures o.Next? <==>
      ExtractBearerToken(r) != [] && validate(ExtractBearerToken(r)).Success?
      && validate(ExtractBearerToken(r)).value.valid
    ensures o.Next? ==>
      var v := validate(ExtractBearerToken(r)).value;
      o.context == r.context[UserIdKey := v.userId][RoleKey := v.role]
  {
    var token := ExtractBearerToken(r);
    if token == [] then Respond(StatusUnauthorized, "Missing or invalid authorization header")
    else match validate(token)
      case Failure(_) => Respond(StatusUnauthorized, "Invalid token")
      case Success(v) =>
        if !v.valid then Respond(StatusUnauthorized, "Invalid or expired token")
        else Next(r.context[UserIdKey := v.userId][RoleKey := v.role])
  }

  /** Without a token RequireAuth never consults the auth service: its answer is the
      same whatever Validate would say. */
  lemma MissingTokenSkipsValidate(r: Request, v1: string -> Result<AuthService.ValidateResponse, string>,
                                  v2: string -> Result<AuthService.ValidateResponse, string>)
    requires ExtractBearerToken(r) == []
    ensures RequireAuth(r, v1) == RequireAuth(r, v2)
  {
  }

  /** OptionalAuth: the next handler always runs; the user id and role are added exactly
      when a token is present and Validate accepts it, and the context is untouched
      otherwise. */
  function OptionalAuth(r: Request, validate: string -> Result<AuthService.ValidateResponse, string>): (o: Outcome)
    ensures o.Next?
    ensures o == RequireAuth(r, validate) || o.context == r.context
    ensures RequireAuth(r, validate).Next? ==> o == RequireAuth(r, validate)
    ensures RequireAuth(r, validate).Respond? ==> o.context == r.context
  {
    var token := ExtractBearerToken(r);
    if token != [] && validate(token).Success? && validate(token).value.valid then
      var v := validate(token).value;
      Next(r.context[UserIdKey := v.userId][RoleKey := v.role])
    else Next(r.context)
  }

  /** The loop of RequireRole over its allowed roles. */
  method RoleAllowed(role: string, allowedRoles: seq<string>) returns (allowed: bool)
    ensures allowed <==> role in allowedRoles
  {
    var i := 0;
    while i < |allowedRoles|
      invariant 0 <= i <= |allowedRoles|
      invariant role !in allowedRoles[..i]
    {
      if role == allowedRoles[i] {
        return true;
      }
      i := i + 1;
    }
    assert allowedRoles[..i] == allowedRoles;
    return false;
  }

  /** RequireRole: RequireAuth first, whose refusals pass through unchanged; then the
      next handler runs exactly when the validated role is one of the allowed roles, and
      otherwise the answer is 403. The role is always in the context RequireAuth builds,
      so the "Role information not found" answer never occurs, and an empty list of roles
      refuses everyone. */
  method RequireRole(allowedRoles: seq<string>, r: Request,
                     validate: string -> Result<AuthService.ValidateResponse, string>)
    returns (o: Outcome)
    ensures RequireAuth(r, validate).Respond? ==> o == RequireAuth(r, validate)
    ensures o.Next? <==>
      RequireAuth(r, validate).Next? && validate(ExtractBearerToken(r)).value.role in allowedRoles
    ensures o.Next? ==> o == RequireAuth(r, validate)
    ensures RequireAuth(r, validate).Next? && !o.Next? ==> o == Respond(StatusForbidden, "Insufficient permissions")
    ensures o != Respond(StatusForbidden, "Role information not found")
    ensures allowedRoles == [] ==> !o.Next?
  {
    var authorized := RequireAuth(r, validate);
    if authorized.Respond? {
      return authorized;
    }
    if RoleKey !in authorized.context {
      return Respond(StatusForbidden, "Role information not found");
    }
    var ok := RoleAllowed(authorized.context[RoleKey], allowedRoles);
    if ok {
      return authorized;
    }
    o := Respond(StatusForbidden, "Insufficient permissions");
  }
}
