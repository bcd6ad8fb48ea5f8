/**
 * AuthOrchestrator: the Express handlers of the authentication server as
 * methods of one object holding the three pieces of state they share, the
 * in-memory `loginAttempts` map and the `codes` and `users` tables. Each
 * handler takes the request time `now` (milliseconds) and whatever random
 * values it draws as parameters and returns the HTTP status and JSON body.
 */
module AuthServer {
  import opened Wrappers
  import opened Credentials
  import opened EmailFormat
  import opened VerificationCode
  import opened RateLimit
  import opened SessionToken
  import opened UserTable

  /** The JSON bodies the handlers send. */
  datatype Body =
    | Message(text: string)                                          // { message }
    | Failure(error: string)                                         // { error }
    | RetryLater(error: string, retryAfter: int)                     // { error, retryAfter }
    | LoggedIn(user: PublicUser, token: TokenText, message: string)  // { user, token, message }
    | Profile(user: PublicUser)                                      // { id, username, email }

  datatype Response = Response(status: int, body: Body)

  const MISSING_FIELDS := "Missing fields"
  const INVALID_CREDENTIALS := "Invalid credentials"
  const TOKEN_INVALID := "Token invalid or expired"

  datatype RegisterRequest = RegisterRequest(
    username: Option<string>, email: Option<string>, password: Option<string>, code: Option<string>)

  datatype LoginRequest = LoginRequest(identifier: Option<string>, password: Option<string>)

  /** JavaScript truthiness of a string field of the request body. */
  predicate Present(field: Option<string>) {
    field.Some? && field.value != ""
  }

  /** `!(!username || !email || !password || !code)` */
  predicate AllPresent(req: RegisterRequest) {
    Present(req.username) && Present(req.email) && Present(req.password) && Present(req.code)
  }

  // ---------------------------------------------------------------------------
  // The gates of /api/register, in order
  // ---------------------------------------------------------------------------

  datatype RegisterOutcome =
    | MissingFields | InvalidCode | CodeExpired | WeakPassword | EmailExists | RegistrationFailed | Created

  /** The stored code for the request's address exists and equals the submitted one. */
  predicate CodeMatches(codes: map<string, CodeRow>, req: RegisterRequest)
    requires AllPresent(req)
  {
    req.email.value in codes && codes[req.email.value].code == req.code.value
  }

  /**
   * The gates shared by both register variants once the code has been looked
   * at: strength, the e-mail's uniqueness, then the insert, which fails when
   * the random id is already a primary key.
   */
  function CreationGates(users: seq<User>, email: string, password: string, newId: string): (r: RegisterOutcome)
    ensures r in {WeakPassword, EmailExists, RegistrationFailed, Created}
    ensures r == WeakPassword <==> !IsStrongPassword(password)
    ensures r == EmailExists ==> exists j | 0 <= j < |users| :: users[j].email == email
    ensures r == RegistrationFailed ==> exists j | 0 <= j < |users| :: users[j].id == newId
  {
    if !IsStrongPassword(password) then WeakPassword
    else if FindFirst(users, ByEmail(email)).Some? then EmailExists
    else if FindFirst(users, ById(newId)).Some? then RegistrationFailed
    else Created
  }

  /**
   * The outcome of `/api/register`. With `checkCode` false this is the code
   * as written, where the comparison with the stored code is commented out;
   * with `checkCode` true it is the corrected handler with that check restored.
   */
  function RegisterGates(users: seq<User>, codes: map<string, CodeRow>, req: RegisterRequest,
                         now: int, newId: string, checkCode: bool): (r: RegisterOutcome)
    ensures r == MissingFields <==> !AllPresent(req)
    ensures r == InvalidCode <==> checkCode && AllPresent(req) && !CodeMatches(codes, req)
    ensures r == CodeExpired ==> AllPresent(req) && req.email.value in codes && now > codes[req.email.value].expiresAt
  {
    if !AllPresent(req) then MissingFields
    else if checkCode && !CodeMatches(codes, req) then InvalidCode
    else if IsExpired(codes, req.email.value, now) then CodeExpired
    else CreationGates(users, req.email.value, req.password.value, newId)
  }

  /** The reply to each outcome: only success answers 200; every refusal is a 400, 409 or 500. */
  function RegisterReply(outcome: RegisterOutcome): (r: Response)
    ensures r.status == 200 <==> outcome == Created
    ensures outcome != Created ==> r.status in {400, 409, 500} && r.body.Failure?
  {
    match outcome
    case MissingFields => Response(400, Failure(MISSING_FIELDS))
    case InvalidCode => Response(400, Failure("Invalid verification code"))
    case CodeExpired => Response(400, Failure("Verification code expired"))
    case WeakPassword => Response(400, Failure("Password too weak"))
    case EmailExists => Response(409, Failure("Email already exists"))
    case RegistrationFailed => Response(500, Failure("Registration failed"))
    case Created => Response(200, Message("User created successfully"))
  }

  /** The row a successful registration inserts. */
  function NewUser(req: RegisterRequest, newId: string, salt: string): User
    requires AllPresent(req)
  {
    User(newId, req.username.value, req.email.value, Hash(req.password.value, salt))
  }

  /**
   * A registration goes through exactly when every gate passes: all fields
   * present, the address's code (if any) not expired, a strong password, an
   * unused e-mail and an unused id; the corrected variant also needs the
   * submitted code to be the stored one.
   */
  lemma CreatedIffGatesPass(users: seq<User>, codes: map<string, CodeRow>, req: RegisterRequest,
                            now: int, newId: string, checkCode: bool)
    ensures RegisterGates(users, codes, req, now, newId, checkCode) == Created <==>
      && AllPresent(req)
      && (checkCode ==> CodeMatches(codes, req))
      && !IsExpired(codes, req.email.value, now)
      && IsStrongPassword(req.password.value)
      && (forall j | 0 <= j < |users| :: users[j].email != req.email.value && users[j].id != newId)
  {
    if AllPresent(req) && (checkCode ==> CodeMatches(codes, req)) && !IsExpired(codes, req.email.value, now)
       && IsStrongPassword(req.password.value)
    {
      if FindFirst(users, ByEmail(req.email.value)).Some? {
        assert users[FindFirst(users, ByEmail(req.email.value)).value].email == req.email.value;
      } else if FindFirst(users, ById(newId)).Some? {
        assert users[FindFirst(users, ById(newId)).value].id == newId;
      }
    }
  }

  /**
   * The corrected variant accepts a code only if it is the one stored for the
   * address and was issued no more than five minutes before `now`.
   */
  lemma VerifiedCodeIsLive(users: seq<User>, codes: map<string, CodeRow>, req: RegisterRequest,
                           now: int, newId: string)
    requires forall e | e in codes :: WellFormedRow(codes[e])
    requires RegisterGates(users, codes, req, now, newId, true) == Created
    ensures req.email.value in codes
    ensures codes[req.email.value].code == req.code.value
    ensures now - codes[req.email.value].sentAt <= CODE_TTL_MS
  {
  }

  /**
   * The handler as written creates an account for an address that was never
   * sent a code, with any code; the corrected variant refuses it.
   */
  lemma AsWrittenSkipsCodeCheck(req: RegisterRequest, now: int, newId: string)
    requires AllPresent(req) && IsStrongPassword(req.password.value)
    ensures RegisterGates([], map[], req, now, newId, false) == Created
    ensures RegisterGates([], map[], req, now, newId, true) == InvalidCode
  {
  }

  // ---------------------------------------------------------------------------
  // Login
  // ---------------------------------------------------------------------------

  /**
   * The login lookup: as written, the rows go through SQLite's `LOWER`; with
   * `foldRows`, through the same lower-casing as the identifier.
   */
  function LoginQuery(idv: string, foldRows: bool): Query {
    if foldRows then ByLoginFolded(idv) else ByLogin(idv)
  }

  /**
   * What `/api/login` answers and leaves in the attempts map. A missing
   * identifier gets 400 uncharged. Otherwise the identifier, lower-cased by
   * JavaScript, is charged before the password is looked at; then, in
   * order, a lock gets 429, a missing password 400, an unknown user or a
   * wrong password the same 401, and a success clears that identifier's
   * attempts and answers with the user (no password) and a token for its id
   * and e-mail.
   */
  ghost predicate LoginEffect(before: map<string, Attempt>, after: map<string, Attempt>, users: seq<User>,
                              req: LoginRequest, now: int, foldRows: bool, resp: Response)
  {
    if !Present(req.identifier) then
      resp == Response(400, Failure(MISSING_FIELDS)) && after == before
    else
      var idv := JsLower(req.identifier.value);
      var charged := Charge(before, idv, now);
      var found := FindFirst(users, LoginQuery(idv, foldRows));
      if charged.decision.Locked? then
        && resp == Response(429, RetryLater(LOCK_MESSAGE, LOCK_RETRY_AFTER))
        && after == charged.attempts
      else if !Present(req.password) then
        resp == Response(400, Failure(MISSING_FIELDS)) && after == charged.attempts
      else if found.None? || !Matches(req.password.value, users[found.value].password) then
        resp == Response(401, Failure(INVALID_CREDENTIALS)) && after == charged.attempts
      else
        var u := users[found.value];
        && resp == Response(200, LoggedIn(Public(u), GenerateToken(u.id, u.email, now), "Welcome " + u.username))
        && after == before - {idv}
  }

  // ---------------------------------------------------------------------------
  // Sessions
  // ---------------------------------------------------------------------------

  /** The request carries a signed, unexpired token naming exactly this stored user. */
  ghost predicate Authenticates(auth: AuthHeader, now: int, u: User) {
    && auth.Bearer? && auth.token.Signed?
    && auth.token.claims.id == u.id && auth.token.claims.email == u.email
    && Seconds(now) < auth.token.claims.exp
  }

  // ---------------------------------------------------------------------------
  // The server
  // ---------------------------------------------------------------------------

  class Server {
    /** `loginAttempts`: identifier -> `{count, lastAttempt}` (process memory). */
    var loginAttempts: map<string, Attempt>
    /** The `codes` table, keyed by e-mail. */
    var codes: map<string, CodeRow>
    /** The `users` table in rowid order. */
    var users: seq<User>

    ghost predicate Valid()
      reads this
    {
      && WellFormedTable(users)
      && CountsPositive(loginAttempts)
      && forall e | e in codes :: WellFormedRow(codes[e])
    }

    /** A fresh process on an empty database. */
    constructor ()
      ensures Valid()
      ensures loginAttempts == map[] && codes == map[] && users == []
    {
      loginAttempts := map[];
      codes := map[];
      users := [];
    }

    /** `checkLoginRateLimit(identifier)` */
    method CheckLoginRateLimit(identifier: string, now: int) returns (d: Decision)
      requires Valid()
      modifies this`loginAttempts
      ensures Valid()
      ensures loginAttempts == Charge(old(loginAttempts), identifier, now).attempts
      ensures d == Charge(old(loginAttempts), identifier, now).decision
    {
      var attempts := if identifier in loginAttempts then loginAttempts[identifier] else Attempt(0, 0);
      if now - attempts.lastAttempt > RESET_WINDOW_MS {
        loginAttempts := loginAttempts[identifier := Attempt(1, now)];
        return Allowed;
      }
      attempts := attempts.(count := attempts.count + 1, lastAttempt := now);
      loginAttempts := loginAttempts[identifier := attempts];
      if attempts.count > MAX_LOGIN_ATTEMPTS {
        return Locked(LOCK_RETRY_AFTER, LOCK_MESSAGE);
      }
      return Allowed;
    }

    /** `clearLoginAttempts(identifier)` */
    method ClearLoginAttempts(identifier: string)
      requires Valid()
      modifies this`loginAttempts
      ensures Valid()
      ensures loginAttempts == old(loginAttempts) - {identifier}
    {
      loginAttempts := loginAttempts - {identifier};
    }

    /**
     * `POST /api/send-code`. `rand` is the `Math.random()` draw behind the
     * code; `delivered` is what the e-mail service reported, which only
     * decides what is logged.
     */
    method SendCode(email: Option<string>, now: int, rand: real, delivered: bool) returns (resp: Response)
      requires Valid()
      requires 0.0 <= rand < 1.0
      modifies this`codes
      ensures Valid()
      ensures !IsEmailFieldValid(email) ==>
        resp == Response(400, Failure("Invalid email")) && codes == old(codes)
      ensures IsEmailFieldValid(email) && IsThrottled(old(codes), email.value, now) ==>
        && resp == Response(429, RetryLater("Too many requests", RetryAfterSeconds(now, old(codes)[email.value].sentAt)))
        && codes == old(codes)
      ensures IsEmailFieldValid(email) && !IsThrottled(old(codes), email.value, now) ==>
        && resp == Response(200, Message("Verification code sent"))
        && codes == old(codes)[email.value := FreshRow(rand, now)]
    {
      if !IsEmailFieldValid(email) {
        return Response(400, Failure("Invalid email"));
      }
      var address := email.value;
      if address in codes && now - codes[address].sentAt < RESEND_COOLDOWN_MS {
        return Response(429, RetryLater("Too many requests", RetryAfterSeconds(now, codes[address].sentAt)));
      }
      var code := GenerateVerificationCode(rand);
      var sentAt := now;
      var expiresAt := now + CODE_TTL_MS;
      // Delivery is best effort: success or failure, the code is saved.
      codes := codes[address := CodeRow(code, sentAt, expiresAt)];
      return Response(200, Message("Verification code sent"));
    }

    /**
     * The end of `/api/register` shared by both variants: strength check,
     * e-mail lookup, insert, then deletion of the address's code row.
     */
    method CreateAccount(username: string, email: string, password: string, newId: string, salt: string)
      returns (resp: Response)
      requires Valid()
      modifies this`users, this`codes
      ensures Valid()
      ensures var outcome := CreationGates(old(users), email, password, newId);
        && resp == RegisterReply(outcome)
        && (outcome == Created ==>
              users == old(users) + [User(newId, username, email, Hash(password, salt))]
              && codes == old(codes) - {email})
        && (outcome != Created ==> users == old(users) && codes == old(codes))
    {
      if !IsStrongPassword(password) {
        return RegisterReply(WeakPassword);
      }
      if FindFirst(users, ByEmail(email)).Some? {
        return RegisterReply(EmailExists);
      }
      if FindFirst(users, ById(newId)).Some? {
        // The INSERT violates the primary key.
        return RegisterReply(RegistrationFailed);
      }
      var user := User(newId, username, email, Hash(password, salt));
      InsertKeepsKeys(users, user);
      users := users + [user];
      codes := codes - {email};
      return RegisterReply(Created);
    }

    /**
     * `POST /api/register` as written: the stored code is looked up but
     * never compared with the submitted one, and a missing row is let
     * through; only an expired row stops the request. `newId` is the
     * `generateId()` draw and `salt` bcrypt's.
     */
    method Register(req: RegisterRequest, now: int, newId: string, salt: string) returns (resp: Response)
      requires Valid()
      requires IsGeneratedId(newId)
      modifies this`users, this`codes
      ensures Valid()
      ensures var outcome := RegisterGates(old(users), old(codes), req, now, newId, false);
        && resp == RegisterReply(outcome)
        && (outcome == Created ==>
              users == old(users) + [NewUser(req, newId, salt)] && codes == old(codes) - {req.email.value})
        && (outcome != Created ==> users == old(users) && codes == old(codes))
    {
      if !AllPresent(req) {
        return RegisterReply(MissingFields);
      }
      var email := req.email.value;
      if email in codes && now > codes[email].expiresAt {
        return RegisterReply(CodeExpired);
      }
      resp := CreateAccount(req.username.value, email, req.password.value, newId, salt);
    }

    /** `POST /api/register` with the commented-out code comparison restored. */
    method RegisterVerified(req: RegisterRequest, now: int, newId: string, salt: string) returns (resp: Response)
      requires Valid()
      requires IsGeneratedId(newId)
      modifies this`users, this`codes
      ensures Valid()
      ensures var outcome := RegisterGates(old(users), old(codes), req, now, newId, true);
        && resp == RegisterReply(outcome)
        && (outcome == Created ==>
              users == old(users) + [NewUser(req, newId, salt)] && codes == old(codes) - {req.email.value})
        && (outcome != Created ==> users == old(users) && codes == old(codes))
    {
      if !AllPresent(req) {
        return RegisterReply(MissingFields);
      }
      var email := req.email.value;
      if !(email in codes && codes[email].code == req.code.value) {
        return RegisterReply(InvalidCode);
      }
      if now > codes[email].expiresAt {
        return RegisterReply(CodeExpired);
      }
      resp := CreateAccount(req.username.value, email, req.password.value, newId, salt);
    }

    /** `POST /api/login` as written. */
    method Login(req: LoginRequest, now: int) returns (resp: Response)
      requires Valid()
      modifies this`loginAttempts
      ensures Valid()
      ensures LoginEffect(old(loginAttempts), loginAttempts, users, req, now, false, resp)
    {
      resp := LoginWith(req, now, false);
    }

    /** `POST /api/login` with the stored e-mail and username lower-cased as the identifier is. */
    method LoginCaseFolded(req: LoginRequest, now: int) returns (resp: Response)
      requires Valid()
      modifies this`loginAttempts
      ensures Valid()
      ensures LoginEffect(old(loginAttempts), loginAttempts, users, req, now, true, resp)
    {
      resp := LoginWith(req, now, true);
    }

    /** The handler body shared by both lookups. */
    method LoginWith(req: LoginRequest, now: int, foldRows: bool) returns (resp: Response)
      requires Valid()
      modifies this`loginAttempts
      ensures Valid()
      ensures LoginEffect(old(loginAttempts), loginAttempts, users, req, now, foldRows, resp)
    {
      if !Present(req.identifier) {
        return Response(400, Failure(MISSING_FIELDS));
      }
      var idv := JsLower(req.identifier.value);
      var rateLimit := CheckLoginRateLimit(idv, now);
      if rateLimit.Locked? {
        return Response(429, RetryLater(rateLimit.message, rateLimit.retryAfter));
      }
      if !Present(req.password) {
        return Response(400, Failure(MISSING_FIELDS));
      }
      var found := FindFirst(users, LoginQuery(idv, foldRows));
      if found.None? || !Matches(req.password.value, users[found.value].password) {
        return Response(401, Failure(INVALID_CREDENTIALS));
      }
      ChargeThenClear(old(loginAttempts), idv, now);
      ClearLoginAttempts(idv);
      var user := users[found.value];
      var token := GenerateToken(user.id, user.email, now);
      return Response(200, LoggedIn(Public(user), token, "Welcome " + user.username));
    }

    /**
     * `GET /api/me`: the stored user named by a valid token. A token that
     * outlives its account, or that names an e-mail now held by another id,
     * is refused.
     */
    method Me(auth: AuthHeader, now: int) returns (resp: Response)
      ensures resp.status == 200 <==> exists k | 0 <= k < |users| :: Authenticates(auth, now, users[k])
      ensures resp.status == 200 ==>
        exists k | 0 <= k < |users| :: Authenticates(auth, now, users[k]) && resp.body == Profile(Public(users[k]))
      ensures resp.status != 200 ==> resp == Response(401, Failure(TOKEN_INVALID))
    {
      var payload := VerifyToken(BearerToken(auth), now);
      if payload.None? {
        return Response(401, Failure(TOKEN_INVALID));
      }
      var found := FindFirst(users, ByIdAndEmail(payload.value.id, payload.value.email));
      if found.None? {
        return Response(401, Failure(TOKEN_INVALID));
      }
      return Response(200, Profile(Public(users[found.value])));
    }

    /**
     * `POST /api/delete-account`: with a valid token, deletes the user row
     * and the code row whose e-mail is the token's own, and nothing else.
     */
    method DeleteAccount(auth: AuthHeader, now: int) returns (resp: Response)
      requires Valid()
      modifies this`users, this`codes
      ensures Valid()
      ensures VerifyToken(BearerToken(auth), now).None? ==>
        resp == Response(401, Failure(TOKEN_INVALID)) && users == old(users) && codes == old(codes)
      ensures VerifyToken(BearerToken(auth), now).Some? ==>
        var email := VerifyToken(BearerToken(auth), now).value.email;
        && resp == Response(200, Message("Account deleted successfully"))
        && users == DeleteByEmail(old(users), email)
        && codes == old(codes) - {email}
    {
      var payload := VerifyToken(BearerToken(auth), now);
      if payload.None? {
        return Response(401, Failure(TOKEN_INVALID));
      }
      var emailToDelete := payload.value.email;
      DeleteKeepsKeys(users, emailToDelete);
      users := DeleteByEmail(users, emailToDelete);
      codes := codes - {emailToDelete};
      return Response(200, Message("Account deleted successfully"));
    }
  }
}
