# Smart-stay platform: a Dafny model of its services

The repository is a small hotel back end in Go. It has four parts:

- an **auth service**, which registers users, logs them in with a JWT and validates tokens;
- a **reservation service**, which prices a stay, stores it as PENDING and publishes a
  `ReservationCreated` event on Pub/Sub;
- a **key service**, which issues a 4-digit door PIN for a stored reservation, both over gRPC
  and when such an event arrives;
- an **HTTP gateway**, which checks sign-up and login bodies before calling the auth service,
  sets the `auth_token` cookie, and guards routes with a bearer-token middleware.

This project models those four parts and proves what they promise. The proved properties
include:

- the order of the error messages;
- bcrypt-independent credential errors;
- the price of a stay and its int64 bounds;
- that the UUID text round-trips;
- that a created reservation gets its key through the event;
- that a redelivered event issues a second key;
- how the gateway's checks relate to the service's checks, and where the two disagree;
- what each middleware lets through.

Modules, one per source file, plus shared pieces:

| module | models |
|---|---|
| `Wrappers` | `Option` and `Result` |
| `Text` | `strings.TrimSpace`, `strings.Contains`, `strings.HasPrefix`, `strings.Join`, Go's byte `len` |
| `Uuids` | `uuidToString` and `pgtype.UUID.Scan` of a string (`stringToUUID`) |
| `PasswordPolicy` | `validatePassword`, which the auth service and the gateway carry as identical copies |
| `Events` | the Pub/Sub payload (`internal/events/payload.go`) |
| `Database` | the reservations and keys tables, and the queries the services run on them |
| `AuthService` | `cmd/auth-service/service.go` |
| `ReservationService` | `cmd/reservation-service/service.go` |
| `KeyService` | `cmd/key-service/service.go` |
| `KeyConsumer` | the `sub.Receive` callback of `cmd/key-service/main.go`, and the saga from reservation to key |
| `GatewayHandlers` | `cmd/api-gateway/handlers/auth.go` |
| `GatewayMiddleware` | `cmd/api-gateway/middleware/auth.go` |

The services that keep state are classes:

- `AuthServer` holds the users table.
- `ReservationServer` holds a `Db` and a `Topic`. A `Topic` is the log of messages Pub/Sub accepted.
- `KeyServer` holds a `Db`.

Their methods change those objects, and `modifies` clauses say which.

Code without state is written as functions:

- the gateway handlers and middleware;
- the price computation;
- the parsers.

Everything outside the program becomes a parameter. Each parameter stands for one outside
outcome:

- bcrypt's hash;
- bcrypt's compare;
- the JWT library;
- `crypto/rand`'s draw;
- environment variables;
- ids the database generates;
- failed inserts and queries, which are separate inputs from a missing row;
- whether a publish succeeded;
- the gRPC client behind the gateway.

Instants are whole seconds since the epoch.

Behaviours of the code that a reader might not expect, which the model keeps as written:

- A reservation whose end is at or before its start is not rejected. It is charged one night (`ReservationService.Nights`).
- Nothing stops a second key for the same reservation (`KeyConsumer.RedeliveryIssuesTwoKeys`).
- A short password gets only the length error, not the list of missing character classes (`PasswordPolicy.ShortWeakPassword`).
- RevokeKey changes nothing and always reports success (`KeyService.KeyServer.RevokeKey`), although its doc comment (cmd/key-service/service.go:93) says it invalidates the key at once.
- A stay whose date json.Marshal cannot encode (outside years 0000 to 9999) is still stored and answered as PENDING, but its event goes out with an empty body, which the key service nacks on every delivery (`KeyConsumer.UnencodableStayGetsNoKey`).

One behaviour stands out in the gateway:

- Sign-up trims the password before it is forwarded, so its hash is taken of the trimmed text.
- Login forwards the password exactly as typed.
- So a password with surrounding white space reaches the hash compare in a different form at login than at sign-up. `GatewayHandlers.SignupAndLoginForwardPassword` states exactly when this happens.
- Wrong credentials at the gateway's login give a 500, not a 401 (`GatewayHandlers.LoginReply`).

## Model

| member | source | states |
|---|---|---|
| Text.AsciiSpaces | cmd/auth-service/service.go:32-36 | unicode.IsSpace, which TrimSpace uses, holds on ASCII exactly for space, tab, newline, vertical tab, form feed and carriage return. |
| Text.TrimSpace | cmd/auth-service/service.go:32-42 | The result is the infix of the input that starts at its first non-space character. Every character outside it is Unicode white space. It neither starts nor ends with white space. |
| Text.BlankIffAllSpace | cmd/auth-service/service.go:36-44 | A string trims to "" exactly when all its characters are white space. |
| Text.TrimSpaceIdempotent | cmd/api-gateway/handlers/auth.go:112-136 | Trimming an already trimmed string changes nothing. |
| Text.HasPrefix | cmd/api-gateway/middleware/auth.go:125 | strings.HasPrefix: true exactly when the prefix occurs at index 0. |
| Text.Contains | cmd/auth-service/service.go:63 | True exactly when the substring occurs at some index. |
| Text.Utf8Width | cmd/auth-service/service.go:175 | A character takes 1 byte exactly below U+0080, 2 exactly from U+0080 below U+0800, 3 exactly from U+0800 below U+10000, and 4 exactly from U+10000 up. |
| Text.Utf8Length | cmd/auth-service/service.go:175 | Go's byte length lies between the character count and 4 times it. It equals the character count exactly when every character is ASCII. |
| Text.Utf8LengthAppend | cmd/auth-service/service.go:175 | The byte length of a concatenation is the sum of the two byte lengths. |
| Text.Utf8LengthRepeat | cmd/auth-service/service.go:175 | A run of one repeated character has that character's width times the run's length in bytes. |
| Text.Join | cmd/auth-service/service.go:199 | strings.Join: "" for no parts, the part itself for one part, and otherwise a text starting with the first part. |
| Text.JoinSplit | cmd/auth-service/service.go:199 | At any boundary between parts, the join is the parts before it joined, one separator, then the parts after it joined. So the parts appear in order with one separator between each two. |
| Text.JoinContainsParts | cmd/auth-service/service.go:199-200 | Every part of a strings.Join occurs in the joined text. |
| Text.ContainsAfterPrefix | cmd/auth-service/service.go:200 | Whatever a string contains, the string with a prefix before it also contains. |
| Uuids.UuidToString | cmd/reservation-service/service.go:161-176 | An invalid UUID gives "". A valid one gives 36 characters: dashes at 8, 13, 18, 23 and lower-case hex digits elsewhere. |
| Uuids.ParseUuid | cmd/reservation-service/service.go:154-158 | Only 32- or 36-character strings parse. |
| Uuids.Hex | cmd/reservation-service/service.go:167-172 | The `%x` formatting: two lower-case hex digits per byte. |
| Uuids.DecodeHex | cmd/reservation-service/service.go:154-158 | A successful decode comes from an even number of digits and gives half as many bytes. |
| Uuids.DecodeHexOfHex | cmd/reservation-service/service.go:167-172 | Decoding the hex of any bytes gives those bytes back. |
| Uuids.FormatThenParse | cmd/key-service/service.go:132-154 | Parsing the text form of a valid UUID gives back its 16 bytes. |
| Uuids.ParseFormatted | cmd/reservation-service/service.go:154-176 | The text form of a valid UUID parses back to its bytes. The text form of a NULL UUID does not parse. |
| Uuids.FormatInjective | cmd/key-service/service.go:139-154 | Two valid UUIDs with the same text form are equal. |
| PasswordPolicy.HasClass | cmd/auth-service/service.go:179-182 | A one-class regexp matches exactly when some character is in the class. |
| PasswordPolicy.SpecialRangesAreTheClass | cmd/auth-service/service.go:182 | The special-character class is exactly the four ASCII punctuation ranges. |
| PasswordPolicy.MissingFrom | cmd/auth-service/service.go:184-196 | Lists exactly the tested classes the password lacks, and keeps the tested order. |
| PasswordPolicy.ValidatePassword | cmd/auth-service/service.go:174-203 | TooShort exactly when the UTF-8 length is below 8. Otherwise there is no error exactly when all four classes occur. A MissingClasses error is non-empty, in message order, and names exactly the absent classes. |
| PasswordPolicy.Message | cmd/auth-service/service.go:175-201 | The length error has exactly its fixed text, which no missing-classes message has. A missing-classes message is "password must contain at least one " followed by the names of exactly the missing classes, in order, joined by ", ". So it names every missing class. |
| PasswordPolicy.TwoMissingMessage | cmd/auth-service/service.go:185-199 | Missing uppercase and number gives "password must contain at least one uppercase letter, number". |
| PasswordPolicy.MultiByteLength | cmd/auth-service/service.go:175-177 | The limit counts bytes: "ééé" (6 bytes) is too short, and "éééé" (8 bytes) is long enough and misses all four classes. |
| PasswordPolicy.InOrderUnique | cmd/api-gateway/handlers/auth.go:216-231 | Two in-order class lists with the same members are equal, so the error list is determined. |
| PasswordPolicy.ShortWeakPassword | cmd/auth-service/service.go:175-177 | "abc" gets only the length error, with its message. |
| PasswordPolicy.LowercaseOnly | cmd/auth-service/service.go:184-199 | A lower-case-only password of at least 8 letters misses uppercase, number and special, in that order. |
| PasswordPolicy.LowercaseOnlyExample | cmd/api-gateway/handlers/auth.go:206-235 | "abcdefgh" misses uppercase, number and special. |
| AuthService.RegisterInputError | cmd/auth-service/service.go:31-44 | No error exactly when email, password and name are not blank and the policy accepts the untrimmed password. Otherwise the error is the first failing check's message, in source order. |
| AuthService.CreateUserError | cmd/auth-service/service.go:63-67 | "email already registered" exactly when the store error mentions "duplicate" or "unique". Otherwise "failed to create user". |
| AuthService.UniqueViolationIsEmailTaken | cmd/auth-service/service.go:63-65 | PostgreSQL's unique-violation text is reported as a taken email. |
| AuthService.TokenPreview | cmd/auth-service/service.go:124-127 | Tokens of up to 20 characters are shown whole. Longer ones are shown as their first 20 characters plus "...". |
| AuthService.AuthServer.constructor | cmd/auth-service/service.go:28-147 | Starts with no users and with the given bcrypt and JWT functions. |
| AuthService.AuthServer.Register | cmd/auth-service/service.go:28-75 | Each error case, in order, leaves the users unchanged. Success happens exactly when all checks pass, the hash succeeds and the insert neither conflicts nor fails. Success stores the trimmed email and name, role guest and the hash, keeps the table valid, and returns the id's text. The hash must be one bcrypt produced for the password, so the stored hash matches the password. |
| AuthService.AuthServer.Login | cmd/auth-service/service.go:78-120 | An unknown email, a failed user query and a wrong password all give "invalid credentials". Success happens exactly when the query succeeds, the password matches and the JWT is made. The response then carries that token and ExpiresIn 3600. The only other error is "failed to generate token". |
| AuthService.AuthServer.Validate | cmd/auth-service/service.go:123-147 | valid exactly when the JWT library accepts the token. The claims' id and role are returned then, and empty strings otherwise. |
| AuthService.RegisterLoginValidate | cmd/auth-service/service.go:28-147 | Register, then Login, then Validate on the issued token gives valid with the new user's id and role guest. |
| Database.Db.constructor | cmd/reservation-service/service.go:55-62 | Empty tables satisfy the primary-key invariant. |
| Database.FindReservation | cmd/reservation-service/service.go:117-120 | Finds a row exactly when one has the id, and the row it finds is in the table with that id. |
| Database.FindReservationUnique | cmd/key-service/service.go:39-42 | With distinct ids, the lookup returns the one row with that id. |
| Database.FindAfterInsert | cmd/key-service/service.go:39-42 | After a row with a fresh id is inserted, the lookup by that id returns it. |
| Database.ReservationsOfUser | cmd/reservation-service/service.go:135 | Exactly the rows of that user, and no more rows than the table has. |
| Database.ActiveKeysOfUser | cmd/key-service/service.go:113 | Exactly that user's keys whose validity ends after now. |
| Database.ReservationsOfUserOne | cmd/reservation-service/service.go:135 | A single row is kept exactly when it is the user's. |
| Database.ReservationsOfUserAppend | cmd/reservation-service/service.go:135 | The user's rows of a concatenation are the user's rows of each part, in order, so order and duplicates are kept. |
| Database.ActiveKeysOfUserOne | cmd/key-service/service.go:113 | A single key is kept exactly when it is the user's and active. |
| Database.ActiveKeysOfUserAppend | cmd/key-service/service.go:113 | The active keys of a concatenation are those of each part, in order. |
| ReservationService.Sub | cmd/reservation-service/service.go:38 | The Duration stays within int64, equals the exact nanosecond difference whenever that fits, and saturates to the int64 maximum or minimum when it does not. |
| ReservationService.WholeDays | cmd/reservation-service/service.go:38 | The whole days of a Duration, truncated toward zero: for a non-negative Duration the largest count of days that fits in it, for a negative one the negation of that for its magnitude. |
| ReservationService.Nights | cmd/reservation-service/service.go:38-41 | At least 1 and bounded. A span under two days is one night. For spans from one day up to the Duration limit, it is the number of whole days elapsed. Beyond the limit it is 106751, the whole days of the largest Duration. |
| ReservationService.WholeDaysOfSeconds | cmd/reservation-service/service.go:38 | For a representable non-negative span, hours/24 truncates to seconds / 86400. |
| ReservationService.TotalPrice | cmd/reservation-service/service.go:37-42 | A multiple of 50000 whose quotient is the nights. It lies between 50000 and the int64 maximum. |
| ReservationService.TwoNightStay | cmd/reservation-service/service.go:37-42 | A June 1 to June 3 stay costs 100000. |
| ReservationService.StatusFromDb | cmd/reservation-service/service.go:180-188 | CONFIRMED, CANCELLED and COMPLETED map to their states, each exactly for its own string. Anything else maps to PENDING. |
| ReservationService.StatusRoundTrip | cmd/reservation-service/service.go:61 | Reading a state's column text back gives the same state. |
| ReservationService.ToProto | cmd/reservation-service/service.go:179-205 | The ids are uuidToString's text of the stored ids. The status is StatusFromDb of the column. The room and price are as stored. Each date is as stored, and a NULL date becomes a nil timestamp. |
| ReservationService.ToProtoIds | cmd/reservation-service/service.go:199-200 | The converted ids parse back to the stored bytes, and a NULL id reads back as text that does not parse. |
| ReservationService.NewRow | cmd/reservation-service/service.go:44-62 | The inserted row has the new id and the user, both non-NULL, the request's room and dates, the price of its nights, and status PENDING. |
| ReservationService.DaysBeforeYearStep | cmd/reservation-service/service.go:79 | The closed form for the days before a year adds 366 days for a Gregorian leap year and 365 for any other year. |
| ReservationService.JsonYearBounds | cmd/reservation-service/service.go:79 | Year 0 begins at -62167219200 and year 10000 at 253402300800, in seconds since the epoch. |
| ReservationService.JsonEncodable | cmd/reservation-service/service.go:79 | json.Marshal accepts an instant exactly from the start of year 0 to before the start of year 10000 in the Gregorian calendar. That is exactly from -62167219200 (0000-01-01T00:00:00Z) to 253402300799 (9999-12-31T23:59:59Z). |
| ReservationService.CreatedMessage | cmd/reservation-service/service.go:68-90 | Always carries origin reservation-service. Its body is the ReservationCreated payload, with the new id, the user id as sent and the dates, exactly when both dates are in years 0000 to 9999. Otherwise the body is empty. |
| ReservationService.NewRowReadsBack | cmd/reservation-service/service.go:55-62 | A freshly stored row reads back as PENDING, with the request's room, dates and price. Its ids parse back to the new id and the user. |
| ReservationService.ProtosOf | cmd/reservation-service/service.go:141-144 | One converted reservation per row, in order. |
| ReservationService.ReservationServer.CreateReservation | cmd/reservation-service/service.go:28-108 | An unparsable user id, or an insert that fails or collides, is an error that changes nothing. Success happens exactly otherwise. It appends the PENDING row, returns its id with PENDING, and publishes the one ReservationCreated message only when the publish succeeds. |
| ReservationService.ReservationServer.GetReservation | cmd/reservation-service/service.go:111-126 | Error messages for a bad id, and "reservation not found" for a missing row or a failed query. Success happens exactly when the query succeeds and a row with the id exists. It returns that row converted, and in a valid table that is the one row with the id. |
| ReservationService.ReservationServer.ListReservations | cmd/reservation-service/service.go:129-149 | Error messages for a bad id and a failed query. On success, the user's rows converted, in order. |
| KeyService.Itoa | cmd/key-service/service.go:56 | Decimal digits with no leading zero. |
| KeyService.ItoaRoundTrip | cmd/key-service/service.go:56 | The digits denote the number. |
| KeyService.ItoaLength | cmd/key-service/service.go:54-56 | A number in the k-digit range has k digits. |
| KeyService.KeyCode | cmd/key-service/service.go:46-56 | The PIN is 4 decimal digits, not starting with 0, and denotes 1000 plus the random draw. |
| KeyService.DeviceId | cmd/key-service/service.go:57-61 | SMART_LOCK_DEVICE_ID when non-empty, else smart-lock-device-001. |
| KeyService.IssueKey | cmd/key-service/service.go:28-91 | Each error case in source order, with a failed reservation query reported like a missing reservation. Success happens exactly when the id parses, the query succeeds, the reservation exists, the draw succeeds and the insert works. The stored row has the reservation's user, the PIN, the device and the request's dates verbatim. |
| KeyService.KeyToProto | cmd/key-service/service.go:157-173 | The reservation id is uuidToString's text of the stored id. Code and device are as stored. Each validity bound is as stored, and a NULL bound becomes a nil timestamp. |
| KeyService.KeyToProtoId | cmd/key-service/service.go:169 | The converted reservation id parses back to the stored bytes, and a NULL id to nothing. |
| KeyService.KeyProtosOf | cmd/key-service/service.go:119-122 | One converted key per row, in order. |
| KeyService.KeyServer.GenerateKey | cmd/key-service/service.go:28-91 | On success, exactly the IssueKey row is appended and its code and device are returned. On error, the keys are unchanged. Reservations are never changed, and a valid database stays valid. |
| KeyService.KeyServer.RevokeKey | cmd/key-service/service.go:95-104 | Always reports success and changes no state. |
| KeyService.KeyServer.ListKeys | cmd/key-service/service.go:107-127 | Error messages for a bad id and a failed query. On success, the user's active keys converted, in order. |
| Events.Unmarshal | cmd/key-service/main.go:119-124 | json.Unmarshal fails exactly on an unparsable body, and gives back the payload a body encodes. |
| KeyConsumer.RequestOf | cmd/key-service/main.go:133-140 | The key request names the event's reservation, and its window is the stay's start and end. |
| KeyConsumer.Deliver | cmd/key-service/main.go:115-152 | An unparsable body is nacked. Another event type is acked and leaves keys unchanged. A ReservationCreated event is nacked exactly when key issue fails. A nack adds no key. An added key is exactly the issued row, and only for an acked creation. |
| KeyConsumer.OnMessage | cmd/key-service/main.go:115-152 | The callback leaves the keys and the disposition that Deliver describes, and never touches reservations. |
| KeyConsumer.KeysForAppend | cmd/key-service/main.go:136-140 | Counting a reservation's keys distributes over concatenation. |
| KeyConsumer.RedeliveryIssuesTwoKeys | cmd/key-service/main.go:127-150 | A creation event delivered twice is acked twice and adds two keys for the reservation. |
| KeyConsumer.CreatedReservationGetsKey | cmd/reservation-service/service.go:55-90 | For a stay whose dates json.Marshal can encode, the event CreateReservation publishes for its new row is acked by the key service. It adds one key with that reservation, the booking user, the PIN, the device and the stay's dates. |
| GatewayHandlers.IsValidEmail | cmd/api-gateway/handlers/auth.go:194-197 | isValidEmail accepts exactly the strings of the form local@domain.letters that the regular expression describes. |
| GatewayHandlers.EmailPlacementForced | cmd/api-gateway/handlers/auth.go:195 | Any match puts the @ right after the leading local characters and the dot right before the trailing letters. |
| KeyConsumer.UnencodableStayGetsNoKey | cmd/reservation-service/service.go:79-90 | For a stay with a date outside years 0000 to 9999, the published message is nacked with no key, whatever the key service's inputs. |
| GatewayHandlers.EmailExample | cmd/api-gateway/handlers/auth.go:195 | guest@example.com is accepted. |
| GatewayHandlers.DotlessDomainRefused | cmd/api-gateway/handlers/auth.go:195 | guest@localhost is refused. |
| GatewayHandlers.Getenv | cmd/api-gateway/handlers/auth.go:77 | os.Getenv: the variable's value when it is set, "" when it is not. |
| GatewayHandlers.ErrorResponse | cmd/api-gateway/handlers/auth.go:39 | An error response has the given status, an error body with the given message, and no cookie. |
| GatewayHandlers.IsSecure | cmd/api-gateway/handlers/auth.go:77 | Secure exactly when ENVIRONMENT is "production" or HTTPS_ENABLED is "true". With neither variable set it is not Secure. |
| GatewayHandlers.AuthCookie | cmd/api-gateway/handlers/auth.go:77-91 | An http-only auth_token cookie for "/". It is Secure exactly in production or with HTTPS, and SameSite=None exactly when Secure, otherwise Lax. |
| GatewayHandlers.SignupCheck | cmd/api-gateway/handlers/auth.go:111-138 | Each 400 message in order, with the policy's own message for a weak password. Success happens exactly when all checks pass, and forwards the three trimmed fields. |
| GatewayHandlers.SignupReply | cmd/api-gateway/handlers/auth.go:149-164 | 200 exactly on success, with the user id. On an error, 409 exactly when the text mentions "already registered" or "duplicate", otherwise 500 "Registration failed". |
| GatewayHandlers.Signup | cmd/api-gateway/handlers/auth.go:100-165 | A bad body gives 400. Failed checks give 400 with their message. Otherwise Register is called with the checked request and its answer is mapped. |
| GatewayHandlers.SignupPassesRegisterChecks | cmd/api-gateway/handlers/auth.go:111-148 | Whatever the gateway forwards passes every input check of the auth service's Register. |
| GatewayHandlers.TakenEmailIsConflict | cmd/api-gateway/handlers/auth.go:152-154 | An error text containing the service's "email already registered" is answered 409. |
| GatewayHandlers.LoginCheck | cmd/api-gateway/handlers/auth.go:43-58 | Each 400 message in order. Success happens exactly when the trimmed email is well formed and the password is not blank. It forwards the trimmed email with the untrimmed password. |
| GatewayHandlers.LoginReply | cmd/api-gateway/handlers/auth.go:68-96 | A cookie is set exactly on success, carrying the token and living ExpiresIn seconds. Any error is 500 "Login failed". |
| GatewayHandlers.Login | cmd/api-gateway/handlers/auth.go:33-97 | A bad body gives 400. Failed checks give 400. Otherwise Login is called with the checked request and its answer is mapped. |
| GatewayHandlers.Logout | cmd/api-gateway/handlers/auth.go:168-191 | 200 with an empty auth_token cookie whose MaxAge is -1, so it expires at once. |
| GatewayHandlers.LogoutClearsLoginCookie | cmd/api-gateway/handlers/auth.go:77-91 | The logout cookie has the login cookie's name, path, Secure and SameSite, so it replaces the login cookie. It is empty with MaxAge -1. |
| GatewayHandlers.SignupAndLoginForwardPassword | cmd/api-gateway/handlers/auth.go:55-66 | Credentials that pass sign-up also pass login's checks. The passwords forwarded by the two are equal exactly when the password has no surrounding white space. |
| GatewayMiddleware.HeaderToken | cmd/api-gateway/middleware/auth.go:122-131 | A token exactly when the header has the case-sensitive "Bearer " prefix and a non-blank rest. The token is that rest, trimmed. |
| GatewayMiddleware.ExtractBearerToken | cmd/api-gateway/middleware/auth.go:120-140 | The header's token wins. Otherwise a non-empty cookie value. The result is "" exactly when neither exists. |
| GatewayMiddleware.HeaderTokenIsTrimmed | cmd/api-gateway/middleware/auth.go:126 | A header token has no surrounding white space. |
| GatewayMiddleware.RequireAuth | cmd/api-gateway/middleware/auth.go:36-70 | The three 401 messages for no token, a transport error and a rejected token. The next handler runs exactly for a validated token, with user id and role added to the context. |
| GatewayMiddleware.MissingTokenSkipsValidate | cmd/api-gateway/middleware/auth.go:39-43 | Without a token the answer does not depend on the auth service. |
| GatewayMiddleware.OptionalAuth | cmd/api-gateway/middleware/auth.go:74-93 | Always calls the next handler. It adds the identity exactly when RequireAuth would, and keeps the context otherwise. |
| GatewayMiddleware.RoleAllowed | cmd/api-gateway/middleware/auth.go:106-111 | True exactly when the role is in the allowed list. |
| GatewayMiddleware.RequireRole | cmd/api-gateway/middleware/auth.go:96-116 | RequireAuth's refusals pass through. The next handler runs exactly for an authenticated role in the list, and otherwise the answer is 403. "Role information not found" never occurs. An empty list refuses everyone. |

## Left out

- Logging, gRPC plumbing, request timeouts, context cancellation and the service `main` functions are left out, apart from the Pub/Sub callback.
- JSON encoding and decoding: a body either decodes to the matching record, or is `None` or `Unparsable`. HTTP response writing by `utils.ErrorResponse` and `utils.SuccessResponse` is not part of this model. They are taken to write the given status, or 200, with the payload.
- bcrypt and the JWT library are opaque parameters: the hash outcome, the compare, token generation and token validation. The JWT signing, expiry checks and the secret are not part of this model.
- Pub/Sub delivery, redelivery timing and ack deadlines are left out, and so is concurrency among callbacks. A redelivery is modelled only as a second call.
- SQL is not modelled. Each query is the function its name describes. The order of ListReservationsByUserID and ListActiveKeysByUserID is assumed to be table order, because the query texts are not part of this model. The active-key filter is taken to be "valid_until after now".
- ReservationService.WholeDays: the float64 arithmetic of `Duration.Hours()` is not modelled; the model divides the integer nanoseconds exactly. Go computes the hours as the whole hours plus the remainder's fraction, and for every Duration the service can reach (a whole-second span, or one of the two saturated values) truncating that float divided by 24 gives the same whole-day count, so the two agree.
- Timestamps are whole seconds. Sub-second parts and time zones are left out.
- AuthService.TokenPreview: it cuts by characters, while Go cuts by bytes; for ASCII tokens, JWTs included, the two are the same.
- Uuids.UuidToString: the hex fallback for a length other than 16 is left out, because pgtype.UUID always holds 16 bytes.
- Uuids.ParseUuid: it is stated only through its length condition and the round trip with UuidToString. Go's rejection of most non-ASCII strings is modelled as rejecting every non-ASCII string, which agrees for any string that could pass the length and hex checks.
- The users table lives inside `AuthServer`. Its unique email column and its primary key are modelled as a map keyed by email plus an id-collision check. Other insert failures and failed user queries are inputs.
- A failed query is a boolean input: the model does not say why the database failed, only which error the service then returns.
- Key revocation at a lock vendor and the Smart Lock API are left out: the source only has TODOs for them.
