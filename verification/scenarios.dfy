/**
 * Request sequences against a freshly started server on an empty database,
 * each with the replies it must produce.
 */
module Scenarios {
  import opened Wrappers
  import opened Credentials
  import opened EmailFormat
  import opened VerificationCode
  import opened RateLimit
  import opened SessionToken
  import opened UserTable
  import opened AuthServer

  /**
   * The handler as written registers an address that was never sent a code,
   * with any made-up code.
   */
  method RegisterWithoutCode(name: string, email: string, password: string, code: string) returns (status: int)
    requires name != "" && email != "" && code != "" && IsStrongPassword(password)
    ensures status == 200
  {
    var server := new Server();
    var req := RegisterRequest(Some(name), Some(email), Some(password), Some(code));
    AsWrittenSkipsCodeCheck(req, 1000, "uuid-1");
    var resp := server.Register(req, 1000, "uuid-1", "salt1");
    status := resp.status;
  }

  /** The corrected handler refuses the same request. */
  method RegisterVerifiedWithoutCode(name: string, email: string, password: string, code: string)
    returns (status: int, error: string)
    requires name != "" && email != "" && password != "" && code != ""
    ensures status == 400 && error == "Invalid verification code"
  {
    var server := new Server();
    var req := RegisterRequest(Some(name), Some(email), Some(password), Some(code));
    var resp := server.RegisterVerified(req, 1000, "uuid-1", "salt1");
    status, error := resp.status, resp.body.error;
  }

  /** A second code for one address within a minute is refused with a wait of 1 to 60 seconds. */
  method ResendThrottled(rand1: real, rand2: real, gap: int) returns (first: int, second: int, retryAfter: int)
    requires 0.0 <= rand1 < 1.0 && 0.0 <= rand2 < 1.0
    requires 0 <= gap < RESEND_COOLDOWN_MS
    ensures first == 200 && second == 429
    ensures 1 <= retryAfter <= 60
  {
    var server := new Server();
    PlainAddressAccepted();
    var t := 1700000000000;
    var r1 := server.SendCode(Some("a@x.com"), t, rand1, true);
    var r2 := server.SendCode(Some("a@x.com"), t + gap, rand2, false);
    RetryAfterInRange(t + gap, t);
    first, second, retryAfter := r1.status, r2.status, r2.body.retryAfter;
  }

  /** A lookup on a one-row table finds that row exactly when it satisfies the query. */
  lemma SingleRowLookup(u: User, q: Query)
    ensures FindFirst([u], q) == if Satisfies(u, q) then Some(0) else None
  {
    assert [u][1..] == [];
  }

  /** Registering an e-mail that the only row already has, with no code row left: 409. */
  lemma TakenEmailConflicts(u: User, req: RegisterRequest, now: int, newId: string)
    requires AllPresent(req) && IsStrongPassword(req.password.value) && u.email == req.email.value
    ensures RegisterGates([u], map[], req, now, newId, false) == EmailExists
  {
    SingleRowLookup(u, ByEmail(u.email));
  }

  /** On an empty table, a request carrying the live code of its address registers, with or without the code check. */
  lemma LiveCodeRegisters(req: RegisterRequest, row: CodeRow, now: int, newId: string, checkCode: bool)
    requires AllPresent(req) && IsStrongPassword(req.password.value)
    requires row.code == req.code.value && now <= row.expiresAt
    ensures RegisterGates([], map[req.email.value := row], req, now, newId, checkCode) == Created
  {
  }

  /** On an empty database, send a code to a well-formed address: 200, and its code row is the only one. */
  method SendFirstCode(email: string, rand: real, t: int) returns (server: Server, sent: int)
    requires IsValidEmail(email)
    requires 0.0 <= rand < 1.0
    ensures fresh(server) && server.Valid()
    ensures sent == 200 && server.users == []
    ensures server.codes.Keys == {email} && server.codes[email].expiresAt == t + CODE_TTL_MS
  {
    server := new Server();
    var r0 := server.SendCode(Some(email), t, rand, true);
    sent := r0.status;
  }

  /**
   * Register with the live code of the only code row, through the handler
   * as written or, with `checkCode`, the corrected one: 200, the account
   * exists and the code row is gone.
   */
  method RegisterWithCode(server: Server, name: string, email: string, password: string, now: int, checkCode: bool)
    returns (first: int, req: RegisterRequest)
    requires server.Valid() && server.users == []
    requires server.codes.Keys == {email} && now <= server.codes[email].expiresAt
    requires name != "" && email != "" && IsStrongPassword(password)
    modifies server
    ensures server.Valid()
    ensures first == 200
    ensures AllPresent(req) && req.email.value == email && req.password.value == password
    ensures server.users == [User("uuid-1", name, email, Hash(password, "salt1"))] && server.codes == map[]
  {
    req := RegisterRequest(Some(name), Some(email), Some(password), Some(server.codes[email].code));
    assert server.codes == map[email := server.codes[email]];
    LiveCodeRegisters(req, server.codes[email], now, "uuid-1", checkCode);
    var r1;
    if checkCode {
      r1 := server.RegisterVerified(req, now, "uuid-1", "salt1");
    } else {
      r1 := server.Register(req, now, "uuid-1", "salt1");
    }
    first := r1.status;
  }

  /** As written: send a code, register with it (200), then register the same address again (409). */
  method RegisterTwice(name: string, email: string, password: string, rand: real) returns (sent: int, first: int, second: int)
    requires name != "" && IsValidEmail(email) && IsStrongPassword(password)
    requires 0.0 <= rand < 1.0
    ensures sent == 200 && first == 200 && second == 409
  {
    var server, req;
    server, sent := SendFirstCode(email, rand, 1700000000000);
    first, req := RegisterWithCode(server, name, email, password, 1700000001000, false);
    TakenEmailConflicts(server.users[0], req, 1700000002000, "uuid-2");
    var r2 := server.Register(req, 1700000002000, "uuid-2", "salt2");
    second := r2.status;
  }

  /**
   * With the code check restored: the first registration uses up the code,
   * so repeating the same request is refused before the e-mail is looked up.
   */
  method RegisterVerifiedTwice(name: string, email: string, password: string, rand: real)
    returns (first: int, second: int, error: string)
    requires name != "" && IsValidEmail(email) && IsStrongPassword(password)
    requires 0.0 <= rand < 1.0
    ensures first == 200 && second == 400 && error == "Invalid verification code"
  {
    var server, sent, req;
    server, sent := SendFirstCode(email, rand, 1700000000000);
    first, req := RegisterWithCode(server, name, email, password, 1700000001000, true);
    var r2 := server.RegisterVerified(req, 1700000002000, "uuid-2", "salt2");
    second, error := r2.status, r2.body.error;
  }

  /** A server on an empty database on which one account has just been created, with a made-up code. */
  method ServerWithOneUser(name: string, email: string, password: string, t: int) returns (server: Server)
    requires name != "" && email != "" && IsStrongPassword(password)
    ensures fresh(server) && server.Valid()
    ensures server.users == [User("uuid-1", name, email, Hash(password, "salt1"))]
    ensures server.loginAttempts == map[]
  {
    server := new Server();
    var req := RegisterRequest(Some(name), Some(email), Some(password), Some("000000"));
    AsWrittenSkipsCodeCheck(req, t, "uuid-1");
    var reg := server.Register(req, t, "uuid-1", "salt1");
  }

  /** A login whose password matches no stored row, while its identifier is not locked: 401, and the attempt is counted. */
  method RefusedLogin(server: Server, req: LoginRequest, now: int) returns (resp: Response)
    requires server.Valid()
    requires Present(req.identifier) && Present(req.password)
    requires forall j | 0 <= j < |server.users| :: !Matches(req.password.value, server.users[j].password)
    requires !Charge(server.loginAttempts, JsLower(req.identifier.value), now).decision.Locked?
    modifies server`loginAttempts
    ensures server.Valid()
    ensures resp.status == 401
    ensures server.loginAttempts == Charge(old(server.loginAttempts), JsLower(req.identifier.value), now).attempts
  {
    resp := server.Login(req, now);
  }

  /** A login whose identifier the charge locks: 429, whatever the password. */
  method LockedLogin(server: Server, req: LoginRequest, now: int) returns (resp: Response)
    requires server.Valid()
    requires Present(req.identifier)
    requires Charge(server.loginAttempts, JsLower(req.identifier.value), now).decision.Locked?
    modifies server`loginAttempts
    ensures resp.status == 429
  {
    resp := server.Login(req, now);
  }

  /**
   * Three wrong passwords, then the right one within fifteen minutes: the
   * fourth attempt is refused by the rate limit although its password is correct.
   */
  method LockedDespiteCorrectPassword(name: string, email: string, password: string, wrong: string)
    returns (statuses: seq<int>)
    requires name != "" && email != "" && IsStrongPassword(password)
    requires wrong != "" && wrong != password
    ensures statuses == [401, 401, 401, 429]
  {
    var t := 1700000000000;
    var server := ServerWithOneUser(name, email, password, t);
    var user := server.users[0];
    assert !Matches(wrong, user.password);
    ghost var idv := JsLower(name);
    var bad := LoginRequest(Some(name), Some(wrong));
    NewWindow(server.loginAttempts, idv, t + 1000);
    var r1 := RefusedLogin(server, bad, t + 1000);
    SameWindow(server.loginAttempts, idv, t + 2000);
    var r2 := RefusedLogin(server, bad, t + 2000);
    SameWindow(server.loginAttempts, idv, t + 3000);
    var r3 := RefusedLogin(server, bad, t + 3000);
    SameWindow(server.loginAttempts, idv, t + 4000);
    var good := LoginRequest(Some(name), Some(password));
    var r4 := LockedLogin(server, good, t + 4000);
    statuses := [r1.status, r2.status, r3.status, r4.status];
  }

  /**
   * As written, a user whose username holds a non-ASCII upper-case letter
   * (such as "Élise") cannot log in with that username, typed exactly and
   * with the right password. Stated for Latin-1 names and e-mails, where
   * `JsLower` is all of `toLowerCase`.
   */
  method NonAsciiNameRefused(name: string, email: string, password: string, i: nat) returns (status: int)
    requires IsLatin1(name) && IsLatin1(email)
    requires i < |name| && IsNonAsciiUpper(name[i])
    requires email != "" && IsStrongPassword(password)
    requires SqlLower(email) != JsLower(name)
    ensures status == 401
  {
    var t := 1700000000000;
    var server := ServerWithOneUser(name, email, password, t);
    var user := server.users[0];
    NonAsciiUpperNeverMatches(name, name, i);
    SingleRowLookup(user, ByLogin(JsLower(name)));
    var r := server.Login(LoginRequest(Some(name), Some(password)), t + 1000);
    status := r.status;
  }

  /** The same login succeeds once the stored username is lower-cased as the identifier is. */
  method NonAsciiNameAcceptedWhenFolded(name: string, email: string, password: string) returns (status: int)
    requires name != "" && email != "" && IsStrongPassword(password)
    ensures status == 200
  {
    var t := 1700000000000;
    var server := ServerWithOneUser(name, email, password, t);
    var user := server.users[0];
    SingleRowLookup(user, ByLoginFolded(JsLower(name)));
    var r := server.LoginCaseFolded(LoginRequest(Some(name), Some(password)), t + 1000);
    status := r.status;
  }

  /**
   * Log in under any identifier that lower-cases to the stored username,
   * use the token on `/api/me`, delete the account with it: the same token,
   * still within its hour, is then refused by `/api/me`. Stated for Latin-1
   * names and identifiers, where `JsLower` is all of `toLowerCase`.
   */
  method DeletedUserTokenRejected(name: string, loginAs: string, email: string, password: string)
    returns (login: int, me: int, delete: int, meAfter: int)
    requires name != "" && email != "" && IsStrongPassword(password)
    requires IsLatin1(name) && IsLatin1(loginAs)
    requires loginAs != "" && JsLower(loginAs) == SqlLower(name)
    ensures login == 200 && me == 200 && delete == 200 && meAfter == 401
  {
    var t := 1700000000000;
    var server := ServerWithOneUser(name, email, password, t);
    var user := server.users[0];
    SingleRowLookup(user, ByLogin(JsLower(loginAs)));
    var r1 := server.Login(LoginRequest(Some(loginAs), Some(password)), t + 1000);
    var auth := Bearer(r1.body.token);
    assert Authenticates(auth, t + 2000, server.users[0]);
    var r2 := server.Me(auth, t + 2000);
    assert VerifyToken(BearerToken(auth), t + 3000) == Some(auth.token.claims);
    DeleteFoundRow([user], email, 0);
    var r3 := server.DeleteAccount(auth, t + 3000);
    assert server.users == [];
    var r4 := server.Me(auth, t + 4000);
    login, me, delete, meAfter := r1.status, r2.status, r3.status, r4.status;
  }
}
