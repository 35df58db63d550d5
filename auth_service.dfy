/** The token authority (cmd/auth-service/service.go): registration, login and token
    validation over the users table. bcrypt and the JWT library are opaque functions. */
module AuthService {
  import opened Wrappers
  import Text
  import opened Uuids
  import PasswordPolicy

  /** A bcrypt hash. */
  type Hash = seq<byte>

  /** A row of the users table. */
  datatype UserRow = UserRow(id: PgUuid, email: string, hashedPassword: Hash, name: string, role: string)

  /** The claims the JWT carries that the service reads back. */
  datatype Claims = Claims(userId: string, role: string, email: string)

  datatype RegisterRequest = RegisterRequest(email: string, password: string, name: string)
  datatype LoginRequest = LoginRequest(email: string, password: string)
  datatype LoginResponse = LoginResponse(accessToken: string, expiresIn: int)
  datatype ValidateResponse = ValidateResponse(valid: bool, userId: string, role: string)

  const DefaultRole: string := "guest"
  /** The token lifetime, 3600 seconds, which Login also reports as ExpiresIn. */
  const TokenLifetime: int := 3600
  const InvalidCredentials: string := "invalid credentials"
  const EmailTaken: string := "email already registered"
  /** What PostgreSQL reports when an insert breaks a unique index. */
  const UniqueViolation: string := "duplicate" + " key value violates unique constraint"

  predicate Blank(s: string)
  {
    Text.TrimSpace(s) == []
  }

  /** The checks Register makes before hashing, in order: trimmed email non-empty,
      password not blank, the password policy on the untrimmed password, name not blank.
      The error is that of the first failing check. */
  function RegisterInputError(req: RegisterRequest): (e: Option<string>)
    ensures e == None <==>
      !Blank(req.email) && !Blank(req.password)
      && PasswordPolicy.ValidatePassword(req.password) == None && !Blank(req.name)
    ensures Blank(req.email) ==> e == Some("email is required")
    ensures !Blank(req.email) && Blank(req.password) ==> e == Some("password is required")
    ensures !Blank(req.email) && !Blank(req.password) && PasswordPolicy.ValidatePassword(req.password).Some?
            ==> e == Some(PasswordPolicy.Message(PasswordPolicy.ValidatePassword(req.password).value))
    ensures !Blank(req.email) && !Blank(req.password) && PasswordPolicy.ValidatePassword(req.password) == None
            && Blank(req.name)
            ==> e == Some("name is required")
  {
    Text.TrimSpaceIdempotent(req.email);
    var email := Text.TrimSpace(req.email);
    if email == [] then Some("email is required")
    else if Text.TrimSpace(req.password) == [] then Some("password is required")
    else match PasswordPolicy.ValidatePassword(req.password)
      case Some(err) => Some(PasswordPolicy.Message(err))
      case None => if Text.TrimSpace(req.name) == [] then Some("name is required") else None
  }

  /** The error Register returns for a failed insert: a store error that mentions
      "duplicate" or "unique" is reported as a taken email, any other as a generic failure. */
  function CreateUserError(storeError: string): (e: string)
    ensures e == EmailTaken <==> Text.Contains(storeError, "duplicate") || Text.Contains(storeError, "unique")
    ensures e != EmailTaken ==> e == "failed to create user"
  {
    if Text.Contains(storeError, "duplicate") || Text.Contains(storeError, "unique") then EmailTaken
    else "failed to create user"
  }

  /** A unique-index violation is always reported as a taken email. */
  lemma UniqueViolationIsEmailTaken()
    ensures CreateUserError(UniqueViolation) == EmailTaken
  {
    assert UniqueViolation[0..9] == "duplicate" by {
      assert |"duplicate"| == 9;
    }
    assert Text.OccursAt(UniqueViolation, "duplicate", 0);
  }

  /** The token text the Validate log line shows: at most 20 characters, then "..." when
      something was cut. */
  function TokenPreview(token: string): (p: string)
    ensures |token| <= 20 ==> p == token
    ensures |token| > 20 ==> |p| == 23 && p[..20] == token[..20] && p[20..] == "..."
  {
    if |token| > 20 then token[..20] + "..." else token
  }

  class AuthServer {
    /** The users table, keyed by its unique email column. */
    var users: map<string, UserRow>
    /** bcrypt.CompareHashAndPassword succeeding. */
    const passwordMatches: (Hash, string) -> bool
    /** jwt.GenerateToken(claims, lifetime in seconds); None is its error. */
    const generateToken: (Claims, int) -> Option<string>
    /** jwt.ValidateToken at the current instant; None is its error (bad signature,
        expired, not yet valid, malformed). */
    const validateToken: string -> Option<Claims>

    /** Each row is stored under its own email, and ids are unique. */
    ghost predicate Valid()
      reads this
    {
      (forall e :: e in users ==> users[e].email == e && users[e].id.valid)
      && (forall e, f :: e in users && f in users && e != f ==> users[e].id != users[f].id)
    }

    constructor(passwordMatches: (Hash, string) -> bool,
                generateToken: (Claims, int) -> Option<string>,
                validateToken: string -> Option<Claims>)
      ensures Valid() && users == map[]
      ensures this.passwordMatches == passwordMatches
      ensures this.generateToken == generateToken && this.validateToken == validateToken
    {
      users := map[];
      this.passwordMatches := passwordMatches;
      this.generateToken := generateToken;
      this.validateToken := validateToken;
    }

    /** An insert of `id` under `email` breaks the unique email column or the primary key. */
    predicate Conflicts(email: string, id: UuidBytes)
      reads this
    {
      email in users || exists e :: e in users && users[e].id.bytes == id
    }

    /** Register. `hashed` is bcrypt's outcome for the untrimmed password (None: bcrypt
        failed); a hash bcrypt produced is one it later accepts for that password.
        `newId` is the id the database generates, `storeError` a failure of the insert
        for a reason other than a unique index. A failure stores nothing; a success
        stores the trimmed email and name, role "guest" and the hash, and returns the
        new id in text form. */
    method Register(req: RegisterRequest, hashed: Option<Hash>, newId: UuidBytes, storeError: Option<string>)
      returns (r: Result<string, string>)
      requires Valid()
      requires hashed.Some? ==> passwordMatches(hashed.value, req.password)
      modifies this
      ensures Valid()
      ensures RegisterInputError(req).Some? ==> r == Failure(RegisterInputError(req).value)
      ensures RegisterInputError(req) == None && hashed == None ==> r == Failure("failed to process password")
      ensures RegisterInputError(req) == None && hashed.Some? && old(Conflicts(Text.TrimSpace(req.email), newId))
              ==> r == Failure(EmailTaken)
      ensures RegisterInputError(req) == None && hashed.Some? && !old(Conflicts(Text.TrimSpace(req.email), newId))
              && storeError.Some?
              ==> r == Failure(CreateUserError(storeError.value))
      ensures r.Failure? ==> users == old(users)
      ensures r.Success? <==>
        RegisterInputError(req) == None && hashed.Some?
        && !old(Conflicts(Text.TrimSpace(req.email), newId)) && storeError == None
      ensures r.Success? ==>
        var row := UserRow(PgUuid(newId, true), Text.TrimSpace(req.email), hashed.value,
                           Text.TrimSpace(req.name), DefaultRole);
        users == old(users)[row.email := row] && r.value == UuidToString(row.id)
      ensures r.Success? ==> passwordMatches(users[Text.TrimSpace(req.email)].hashedPassword, req.password)
    {
      var email := Text.TrimSpace(req.email);
      var inputError := RegisterInputError(req);
      if inputError.Some? {
        return Failure(inputError.value);
      }
      if hashed.None? {
        return Failure("failed to process password");
      }
      if Conflicts(email, newId) {
        UniqueViolationIsEmailTaken();
        return Failure(CreateUserError(UniqueViolation));
      }
      if storeError.Some? {
        return Failure(CreateUserError(storeError.value));
      }
      var row := UserRow(PgUuid(newId, true), email, hashed.value, Text.TrimSpace(req.name), DefaultRole);
      users := users[email := row];
      r := Success(UuidToString(row.id));
    }

    /** Login. An unknown email, a failed user query (`lookupFails`) and a wrong password
        all give the same "invalid credentials" error; a success returns a token for the
        user's id, role and email with ExpiresIn 3600. */
    method Login(req: LoginRequest, lookupFails: bool) returns (r: Result<LoginResponse, string>)
      ensures Blank(req.email) ==> r == Failure("email is required")
      ensures !Blank(req.email) && Blank(req.password) ==> r == Failure("password is required")
      ensures !Blank(req.email) && !Blank(req.password) && (lookupFails || Text.TrimSpace(req.email) !in users)
              ==> r == Failure(InvalidCredentials)
      ensures !Blank(req.email) && !Blank(req.password) && Text.TrimSpace(req.email) in users
              && !passwordMatches(users[Text.TrimSpace(req.email)].hashedPassword, req.password)
              ==> r == Failure(InvalidCredentials)
      ensures r.Success? <==>
        !Blank(req.email) && !Blank(req.password) && !lookupFails && Text.TrimSpace(req.email) in users
        && var u := users[Text.TrimSpace(req.email)];
           passwordMatches(u.hashedPassword, req.password)
           && generateToken(Claims(UuidToString(u.id), u.role, u.email), TokenLifetime).Some?
      ensures r.Success? ==>
        var u := users[Text.TrimSpace(req.email)];
        r.value == LoginResponse(generateToken(Claims(UuidToString(u.id), u.role, u.email), TokenLifetime).value,
                                 TokenLifetime)
      ensures r.Failure? && !Blank(req.email) && !Blank(req.password) && r.error != InvalidCredentials
              ==> r.error == "failed to generate token"
    {
      var email := Text.TrimSpace(req.email);
      if email == [] {
        return Failure("email is required");
      }
      if Text.TrimSpace(req.password) == [] {
        return Failure("password is required");
      }
      if lookupFails || email !in users {
        return Failure(InvalidCredentials);
      }
      var user := users[email];
      if !passwordMatches(user.hashedPassword, req.password) {
        return Failure(InvalidCredentials);
      }
      var userId := UuidToString(user.id);
      var token := generateToken(Claims(userId, user.role, user.email), TokenLifetime);
      if token.None? {
        return Failure("failed to generate token");
      }
      r := Success(LoginResponse(token.value, TokenLifetime));
    }

    /** Validate never fails: a token the JWT library rejects gives valid = false with
        empty id and role, any other gives the claims' id and role. */
    function Validate(accessToken: string): (r: ValidateResponse)
      ensures r.valid <==> validateToken(accessToken).Some?
      ensures !r.valid ==> r.userId == "" && r.role == ""
      ensures r.valid ==> r.userId == validateToken(accessToken).value.userId
                          && r.role == validateToken(accessToken).value.role
    {
      match validateToken(accessToken)
      case None => ValidateResponse(false, "", "")
      case Some(claims) => ValidateResponse(true, claims.userId, claims.role)
    }
  }

  /** The JWT library reads back the claims of a token it issued (while it is unexpired). */
  ghost predicate TokensRoundTrip(s: AuthServer)
  {
    forall c, ttl, t :: s.generateToken(c, ttl) == Some(t) ==> s.validateToken(t) == Some(c)
  }

  /** Register, then Login with the same credentials, then Validate the token: the token
      names the new user with role "guest". `h` is the hash bcrypt produced for the
      password, and the JWT library reads its own tokens back. */
  method RegisterLoginValidate(s: AuthServer, req: RegisterRequest, h: Hash, newId: UuidBytes)
    returns (token: string)
    requires s.Valid() && TokensRoundTrip(s)
    requires s.passwordMatches(h, req.password)
    requires RegisterInputError(req) == None && !s.Conflicts(Text.TrimSpace(req.email), newId)
    requires s.generateToken(Claims(UuidToString(PgUuid(newId, true)), DefaultRole, Text.TrimSpace(req.email)),
                             TokenLifetime).Some?
    modifies s
    ensures s.Validate(token) == ValidateResponse(true, UuidToString(PgUuid(newId, true)), DefaultRole)
  {
    var reg := s.Register(req, Some(h), newId, None);
    Text.TrimSpaceIdempotent(req.email);
    var login := s.Login(LoginRequest(Text.TrimSpace(req.email), req.password), false);
    token := login.value.accessToken;
  }
}
