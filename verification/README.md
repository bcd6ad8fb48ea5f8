# SWE301 authentication core in Dafny

SWE301 is a small account system: an Express server over SQLite plus a Vue
single-page client. This project models its authentication core:

- the five HTTP handlers `/api/send-code`, `/api/register`, `/api/login`,
  `/api/me` and `/api/delete-account`;
- the in-memory login rate limiter `checkLoginRateLimit` / `clearLoginAttempts`;
- password strength, verification-code generation, and the e-mail format check;
- JWT issue and verification;
- the client router's navigation guard.

The server is the class `AuthServer.Server`. Its three fields are the state
the handlers change:

- `loginAttempts`: the process-memory map from identifier to `{count, lastAttempt}`;
- `codes`: the `codes` table, keyed by e-mail;
- `users`: the `users` table, kept in rowid order.

Each handler is a method. Its postcondition gives the reply and the new
state in terms of pure functions, and the lemmas beside those functions
state what the handlers promise:

- the lock on the fourth attempt in a fifteen-minute run (`RateLimit.FourthAttemptLocked`);
- the one-hour token lifetime (`SessionToken.TokenLifetime`);
- the exact acceptance condition of a registration (`AuthServer.CreatedIffGatesPass`);
- the regular expression's meaning (`EmailFormat.IsValidEmailMatchesPattern`);
- the six-digit code (`VerificationCode.GenerateVerificationCode`);
- the delete removing exactly one row (`UserTable.DeleteRemovesOnlyThatRow`);
- whole request sequences against a fresh server (module `Scenarios`).

Inputs the server reads from its environment are parameters:

- `now` is `Date.now()` in milliseconds;
- `rand` is a `Math.random()` draw;
- `newId` is the result of `generateId()`;
- `salt` is bcrypt's salt;
- `delivered` is the e-mail service's answer.

The model follows these behaviours of the code:

- E-mail addresses are compared exactly as stored, case included. The
  `email TEXT UNIQUE` column and every `WHERE email = ?` lookup are binary
  comparisons. Only the login lookup lower-cases.
- The login lookup lower-cases its two sides differently. The identifier
  goes through JavaScript's `toLowerCase`, which lower-cases non-ASCII
  capitals too. The stored e-mail and username go through SQLite's `LOWER`,
  which changes A-Z only. A username with one of the modelled non-ASCII
  capitals (Latin-1, basic Greek, basic Cyrillic) therefore never matches
  (`UserTable.LoginMissesNonAsciiUsername`). `Server.Login`
  models the handler as written; `Server.LoginCaseFolded` lower-cases both
  sides alike.
- A lock does not last the announced `retryAfter` of 1800 seconds. Every
  attempt, a refused one too, refreshes `lastAttempt`. The count is reset by
  fifteen quiet minutes (`RateLimit.LockLiftsAfterQuietWindow`,
  `RateLimit.StaysLocked`). `RateLimit.ChargeHoldingLock` is the charge
  that keeps a lock for the full thirty minutes; the server uses the
  charge as written.
- The rate limit charges the identifier before the password is looked at.
  So the correct password is refused on the fourth attempt
  (`Scenarios.LockedDespiteCorrectPassword`), and a request with no
  password is charged too.
- Login answers an unknown user and a wrong password with the same 401.
- `/api/me` accepts a token only while a row with both its id and its
  e-mail exists. A deleted account's unexpired token is refused
  (`Scenarios.DeletedUserTokenRejected`).

## Model

| member | source | states |
|---|---|---|
| Credentials.AnyChar | server/index.js:134-137 | a character-class regex test holds exactly when some character of the string is in the class |
| Credentials.Utf16Length | server/index.js:133 | JavaScript's `.length` counts between one and two code units per character |
| Credentials.Utf16LengthOfBmp | server/index.js:133 | a string of Basic Multilingual Plane characters has `.length` equal to its character count |
| Credentials.IsStrongPassword | server/index.js:129-139 | strong exactly when `.length` is at least 8 and there is an upper-case letter, a lower-case letter, a digit and one of `!@#$%^&*` |
| Credentials.StrongExample | server/index.js:129-139 | "Abcdef1!" is strong |
| Credentials.NoUpperExample | server/index.js:134 | "abc12345" is weak: no upper-case letter |
| Credentials.EmptyExample | server/index.js:133 | the empty password is weak |
| Credentials.AstralCharacterCountsTwice | server/index.js:133 | seven characters one of which is outside the BMP reach the length of 8 |
| Credentials.Hash | server/index.js:239 | the stored hash keeps its salt and is matched by the hashed password and by no other |
| Credentials.Matches | server/index.js:269 | `bcrypt.compareSync` accepts a password exactly when hashing it with the stored salt gives the stored hash |
| Credentials.SaltedHashesDiffer | server/index.js:239 | one password under two salts gives two different hashes that both match it |
| EmailFormat.FirstIndexOf | server/index.js:150 | the first position of a character, or none when it does not occur |
| EmailFormat.IsValidEmail | server/index.js:150 | an accepted address has at least five characters and does not start with `@` (its full meaning is the next rows) |
| EmailFormat.IsEmailFieldValid | server/index.js:150 | the `email` field passes exactly when it is present and the regular expression matches it |
| EmailFormat.IsValidEmailMatchesPattern | server/index.js:150 | the executable check accepts exactly the strings `^[^\s@]+@[^\s@]+\.[^\s@]+$` matches |
| EmailFormat.ValidEmailMatches | server/index.js:150 | an accepted string has a match decomposition |
| EmailFormat.MatchIsValid | server/index.js:150 | any match decomposition makes the check accept |
| EmailFormat.ValidEmailShape | server/index.js:150 | an accepted address has exactly one `@` and no JavaScript whitespace |
| EmailFormat.PlainAddressAccepted | server/index.js:150 | "a@x.com" is accepted |
| EmailFormat.AddressWithoutDotRefused | server/index.js:150 | "a@xcom" is rejected: no dot after the `@` |
| EmailFormat.AddressWithSpaceRefused | server/index.js:150 | "a b@x.com" is rejected: `\s` is excluded |
| EmailFormat.AddressStartingWithAtRefused | server/index.js:150 | "@x.com" is rejected: the part before the `@` is empty |
| VerificationCode.CodeValue | server/index.js:144 | `Math.floor(100000 + r * 900000)` lies in 100000..999999 |
| VerificationCode.DecimalString | server/index.js:144 | `toString()` gives digits only, with a leading zero exactly for 0 |
| VerificationCode.ParseDecimalString | server/index.js:144 | reading the decimal string back gives the number |
| VerificationCode.DecimalStringLength | server/index.js:144 | a number in `10^(k-1)..10^k-1` prints with k digits |
| VerificationCode.GenerateVerificationCode | server/index.js:143-145 | the code is six digits, does not start with 0, and reads as a number in 100000..999999 |
| VerificationCode.FreshRow | server/index.js:161-163 | the saved row expires five minutes after it was sent |
| VerificationCode.CeilDiv | server/index.js:158 | `Math.ceil(x / d)`: the least q with x <= q * d |
| VerificationCode.RetryAfterSeconds | server/index.js:158 | the seconds left of the one-minute cooldown, rounded up |
| VerificationCode.RetryAfterInRange | server/index.js:157-158 | a throttled resend is told to wait between 1 and 60 seconds |
| VerificationCode.IsThrottled | server/index.js:157 | a resend is throttled only for an address with a code row, and then the wait announced is at least one second |
| VerificationCode.IsExpired | server/index.js:208 | a code is expired only when its row exists and, for a row as saved, more than five minutes have passed since it was sent |
| VerificationCode.FreshRowLifetime | server/index.js:163 | a freshly saved code is expired exactly when more than five minutes have passed |
| RateLimit.Charge | server/index.js:56-82 | one attempt touches only its identifier, stamps it with `now`, keeps counts positive, and locks exactly when the count exceeds 3, with retryAfter 1800 and the fixed message |
| RateLimit.NewWindow | server/index.js:57-64 | an unknown identifier, or one quiet for more than fifteen minutes, restarts at count 1 and is allowed |
| RateLimit.SameWindow | server/index.js:66-81 | within fifteen minutes the count goes up by one |
| RateLimit.StaysLocked | server/index.js:67-79 | a locked identifier that retries within fifteen minutes stays locked |
| RateLimit.LockLiftsAfterQuietWindow | server/index.js:61-64 | after fifteen quiet minutes the next attempt is allowed, whatever the count |
| RateLimit.ClearStartsFresh | server/index.js:84-86 | after a clear the next attempt is the first of a new run |
| RateLimit.ChargeThenClear | server/index.js:84-86 | charging and then clearing an identifier leaves every other identifier as it was |
| RateLimit.ChargeAll | server/index.js:56-82 | a run of attempts gives one decision per attempt and records the identifier |
| RateLimit.ContinueRun | server/index.js:66-81 | attempts within fifteen minutes of each other continue the count |
| RateLimit.FourthAttemptLocked | server/index.js:56-82 | in a run of attempts each within fifteen minutes of the last, attempt i is refused exactly when i >= 3 |
| RateLimit.RunIsolated | server/index.js:57-69 | a run on one identifier leaves every other identifier's record unchanged |
| RateLimit.LockLiftsBeforeRetryAfter | server/index.js:61-79 | as written, the attempt that locks announces 1800 seconds, yet an attempt fifteen minutes and one millisecond later is allowed, which is before the announced wait is over |
| RateLimit.ChargeHoldingLock | server/index.js:71-79 | corrected charge: touches only its identifier, stamps it with `now`, and locks exactly when the count exceeds 3; a locked identifier's window is the thirty-minute lock time |
| RateLimit.HoldingLockAgreesUntilLocked | server/index.js:56-82 | until an identifier is locked, the corrected charge is the charge as written |
| RateLimit.HeldLockLastsRetryAfter | server/index.js:71-79 | with the correction, the identifier stays locked for the announced 1800 seconds after the locking attempt, and the next attempt after that is allowed |
| SessionToken.GenerateToken | server/index.js:115-117 | a signed token carrying the user's id and e-mail, expiring one hour after issue |
| SessionToken.Seconds | server/index.js:116 | the whole seconds of a millisecond clock: `s * 1000 <= now < s * 1000 + 1000` |
| SessionToken.BearerToken | server/index.js:289-290 | a token is extracted exactly from a `Bearer ` header |
| SessionToken.VerifyToken | server/index.js:119-127 | claims are returned exactly for a present, signed and unexpired token |
| SessionToken.IssuedTokenRoundTrip | server/index.js:115-127 | verifying an issued token before it expires gives back its id and e-mail |
| SessionToken.TokenLifetime | server/index.js:116 | an issued token verifies for 3599 seconds after issue and not from 3600 seconds on |
| SessionToken.UnsignedTokensRejected | server/index.js:119-127 | no header, another scheme, an empty, malformed or badly signed token all fail |
| UserTable.Public | server/index.js:278 | the user sent back has the row's id, username and e-mail and no password |
| UserTable.SqlLowerChar | server/index.js:268 | SQLite's `LOWER` on one character: the result is not A-Z; only A-Z change, by 32 |
| UserTable.SqlLower | server/index.js:268 | SQLite's `LOWER` keeps the length and leaves no A-Z, changing only A-Z |
| UserTable.SqlLowerOfLowerCase | server/index.js:268 | a string without A-Z is unchanged by `LOWER` |
| UserTable.SqlLowerIdempotent | server/index.js:268 | `LOWER` twice is `LOWER` once |
| UserTable.JsLowerChar | server/index.js:255 | JavaScript's `toLowerCase` on one character: the result is none of the modelled capitals (A-Z, Latin-1, basic Greek, basic Cyrillic); other characters are unchanged; on A-Z it agrees with `LOWER` |
| UserTable.JsLower | server/index.js:255 | `toLowerCase`, character by character: keeps the length and leaves none of the modelled capitals, changing only those |
| UserTable.JsLowerOnLatin1 | server/index.js:255 | on Latin-1 text the result is the Unicode lower-case mapping of that block: A-Z and U+00C0-U+00DE except U+00D7 move up by 32, everything else stays |
| UserTable.JsLowerAgreesOnAscii | server/index.js:255 | on a string without non-ASCII capitals `toLowerCase` and `LOWER` agree |
| UserTable.NonAsciiUpperNeverMatches | server/index.js:268 | a stored field with a non-ASCII capital, after `LOWER`, never equals any identifier after `toLowerCase` |
| UserTable.FindFirst | server/index.js:268 | `db.get` returns the first row, in rowid order, that satisfies the query, or none when no row does |
| UserTable.LoginFindsAnyCase | server/index.js:268 | a row whose `LOWER(email)` or `LOWER(username)` equals the identifier after `toLowerCase` is found, or an earlier one is |
| UserTable.LoginMissesNonAsciiUsername | server/index.js:268 | as written, a row whose username has a non-ASCII capital is found by a login only through its e-mail |
| UserTable.FoldedLoginFindsAnyCase | server/index.js:268 | with both sides lower-cased by `toLowerCase`, a row whose e-mail or username equals the identifier up to case is found, or an earlier one is |
| UserTable.FoldedLoginAgreesOnAscii | server/index.js:268 | for a row without non-ASCII capitals the corrected lookup matches exactly when the lookup as written does |
| UserTable.InsertKeepsKeys | server/index.js:240-242 | inserting a row with a new e-mail and a new id keeps both keys unique |
| UserTable.DeleteByEmail | server/index.js:309 | the rows left are exactly those with a different e-mail |
| UserTable.DeleteAbsentEmail | server/index.js:309 | deleting an e-mail no row has changes nothing |
| UserTable.DeleteRemovesOnlyThatRow | server/index.js:309 | with unique e-mails the delete removes the one matching row, keeps the others in order, and removes nothing when none matches |
| UserTable.DeleteFoundRow | server/index.js:309 | the delete removes the matching row at position k and keeps the others in order |
| UserTable.UniqueEmailsTail | server/index.js:93 | the rows after the first still have unique e-mails |
| UserTable.RemoveKeepsKeys | server/index.js:309 | removing one row keeps both keys unique |
| UserTable.DeleteKeepsKeys | server/index.js:309 | deleting rows keeps both keys unique |
| AuthServer.CreationGates | server/index.js:231-246 | the outcome after the code checks is one of weak password, e-mail taken, id taken or created; weak exactly when the password fails the policy; "taken" only when some row has that e-mail or id |
| AuthServer.RegisterGates | server/index.js:192-208 | missing fields exactly when a field is absent; invalid code exactly when the check is on and the stored code differs; expired only for a stored row past its expiry |
| AuthServer.RegisterReply | server/index.js:192-244 | only success answers 200; every refusal is a 400, 409 or 500 with an error message |
| AuthServer.CreatedIffGatesPass | server/index.js:188-248 | a registration succeeds exactly when fields are present, the code (if checked) matches, a stored code has not expired, the password is strong, and the e-mail and id are unused |
| AuthServer.VerifiedCodeIsLive | server/index.js:200 | the corrected check accepts only the stored code of that address, issued at most five minutes before |
| AuthServer.AsWrittenSkipsCodeCheck | server/index.js:199-205 | on an empty database any complete request with a strong password registers as written, whatever its code, and is refused when the code is checked |
| AuthServer.Server.constructor | server/index.js:88-106 | a fresh process starts with no attempts, no codes and no users |
| AuthServer.Server.CheckLoginRateLimit | server/index.js:56-82 | the decision and the new attempts map are those of one charge |
| AuthServer.Server.ClearLoginAttempts | server/index.js:84-86 | removes only that identifier's record |
| AuthServer.Server.SendCode | server/index.js:147-186 | a bad address gets 400 and nothing changes; a resend within a minute gets 429 with the seconds left; otherwise a fresh code row replaces the address's row and the reply is 200 |
| AuthServer.Server.CreateAccount | server/index.js:231-246 | a weak password gets 400, a used e-mail 409, a used id 500; otherwise the row is appended and the address's code row deleted |
| AuthServer.Server.Register | server/index.js:188-248 | the reply and the new tables follow the handler as written, where the code is never compared |
| AuthServer.Server.RegisterVerified | server/index.js:199-200 | the same handler with the code comparison restored |
| AuthServer.Server.Login | server/index.js:250-286 | as written: a missing identifier gets 400 uncharged; otherwise the identifier lower-cased by `toLowerCase` is charged; then, in order: locked gets 429, missing password 400, no row whose `LOWER(email)` or `LOWER(username)` equals it or a wrong password 401, and success clears the identifier's record and returns the public user and a token |
| AuthServer.Server.LoginCaseFolded | server/index.js:250-286 | the same handler with the stored e-mail and username lower-cased by `toLowerCase`, as the identifier is |
| AuthServer.Server.LoginWith | server/index.js:250-286 | the login handler with the row lower-casing chosen by a flag; the reply and attempts map are those stated for `Login` |
| AuthServer.Server.Me | server/index.js:288-298 | 200 exactly when a valid token names a stored row by id and e-mail, with that row's public fields; otherwise 401 |
| AuthServer.Server.DeleteAccount | server/index.js:300-314 | an invalid token gets 401 and nothing changes; otherwise every user row and the code row with the token's e-mail are deleted |
| Router.MatchRecord | src/router/index.js:11-16 | the first route record matching the path, or none when no record matches |
| Router.Resolve | src/router/index.js:11-16 | every path resolves to one of the three pages |
| Router.CatchAllResolvesHome | src/router/index.js:15 | any unknown path is redirected to the home page |
| Router.PagesResolveToThemselves | src/router/index.js:12-14 | `/login`, `/register` and `/` resolve to their own pages |
| Router.BeforeEach | src/router/index.js:19-28 | the guard allows exactly the visits that need no sign-in or come from a signed-in visitor, and that are not a signed-in visit to `/login` or `/register`; it redirects to `/login` exactly when signed out and to `/` exactly when signed in |
| Router.Navigate | src/router/index.js:19-28 | a redirect's target is a path that resolves to its own page |
| Router.NavigateCases | src/router/index.js:19-28 | an unauthenticated visit to home goes to `/login`; an authenticated visit to login or register goes to `/`; every other visit is allowed |
| Router.RedirectTargetAllowed | src/router/index.js:19-28 | the guard's redirect target is itself allowed, so one redirect settles |
| Router.Landing | src/router/index.js:19-28 | for any path and the token the store holds, the page the visit ends on passes the guard, and it is home exactly when the token is non-empty (`!!state.token`) |
| Scenarios.RegisterWithoutCode | server/index.js:199-205 | the handler as written creates an account for an address never sent a code, with any made-up code |
| Scenarios.RegisterVerifiedWithoutCode | server/index.js:200 | the corrected handler refuses that request with "Invalid verification code" |
| Scenarios.ResendThrottled | server/index.js:147-163 | a second send within a minute gets 429 and a wait of 1 to 60 seconds |
| Scenarios.SingleRowLookup | server/index.js:268 | a lookup on a one-row table finds that row exactly when it satisfies the query |
| Scenarios.SendFirstCode | server/index.js:147-186 | on an empty database a send to a well-formed address answers 200 and leaves one code row, expiring five minutes later |
| Scenarios.LiveCodeRegisters | server/index.js:192-244 | on an empty table a complete request with a strong password and the live code of its address registers, with or without the code check |
| Scenarios.RegisterWithCode | server/index.js:188-248 | registering with the only live code answers 200 under either handler, appends the account and removes the code row |
| Scenarios.TakenEmailConflicts | server/index.js:235-236 | registering the e-mail of the only row, once the code row is gone, is refused as taken |
| Scenarios.RegisterTwice | server/index.js:147-248 | as written: send a code (200), register with it (200), repeat the same request (409) |
| Scenarios.RegisterVerifiedTwice | server/index.js:188-248 | with the code check restored: the first registration (200) uses up the code, so repeating it answers 400 "Invalid verification code" |
| Scenarios.ServerWithOneUser | server/index.js:188-248 | on an empty database a complete request with a strong password leaves exactly that account and no login attempts |
| Scenarios.RefusedLogin | server/index.js:250-271 | a login whose password matches no row, while its identifier is not locked, answers 401 and counts the attempt |
| Scenarios.LockedLogin | server/index.js:256-264 | a login whose identifier the charge locks answers 429, whatever the password |
| Scenarios.LockedDespiteCorrectPassword | server/index.js:250-271 | three wrong passwords then the right one within fifteen minutes: 401, 401, 401, 429 |
| Scenarios.DeletedUserTokenRejected | server/index.js:250-314 | for a Latin-1 username, log in under any Latin-1 identifier whose `toLowerCase` equals the stored username's `LOWER`: `/api/me` answers 200, delete answers 200, then `/api/me` with the same unexpired token answers 401 |
| Scenarios.NonAsciiNameRefused | server/index.js:250-271 | as written, a user whose Latin-1 username has a non-ASCII capital and whose e-mail is Latin-1 (such as "Élise") gets 401 logging in with that exact username and the right password |
| Scenarios.NonAsciiNameAcceptedWhenFolded | server/index.js:250-286 | with both sides lower-cased alike, the same login answers 200 |

## Left out

- Concurrency: requests are modelled one at a time. `AsyncLock` and the lock-ordering deadlock in `/api/register` have no effect on a single request and are not modelled.
- AuthServer.Server.Login: the reply's username and welcome message use the row's own username. The shared `globalCurrentUser` and its 300 ms delay can leak another request's username under concurrency; that is not modelled.
- AuthServer.Server.Login: the token is signed with the same `now` as the rate-limit charge. The source signs it after the 300 ms delay, so its `iat` and `exp` are at least 300 ms later.
- AuthServer.Server.Login: for an identifier or stored name with a capital outside the modelled ones, the lower-cased key and the lookup can differ from the source's. "Łukasz" and "łukasz" are charged to separate keys here and to one key in the source. A row stored as "Łukasz" is found here by the identifier "Łukasz", and the source answers 401. The same holds for `Server.LoginWith` and `Server.LoginCaseFolded`.
- bcrypt is an ideal one-way function. Its cost factor and its 72-byte truncation of passwords are not modelled.
- JWT signing is opaque: a token is empty, malformed, badly signed, or signed with claims. Signature cryptography, the secret, and the `iat`/`exp` encoding are not modelled. The `exp` claim of section 4.1.4 of RFC 7519 must lie after the current time; the jsonwebtoken library reads that time in whole seconds, `Math.floor(Date.now() / 1000)`, and so does the model.
- `Date.now()`, `Math.random()`, `generateId()`, the bcrypt salt and the e-mail service's answer are parameters. `Math.random()` is an exact real in [0, 1), not a double.
- Database errors other than the id collision on insert are not modelled: the 500 replies "Failed to save verification code" and "Failed to delete account", and errors of `db.get`.
- Request bodies whose fields are not strings (numbers, arrays, objects) are not modelled. A field is absent, empty or a string, and JavaScript truthiness means present and non-empty.
- UserTable.JsLowerChar: `toLowerCase` is modelled for A-Z, the Latin-1 capitals U+00C0-U+00DE (except U+00D7), the Greek capitals U+0391-U+03A9 and the Cyrillic capitals U+0400-U+042F. Other Unicode capitals, such as U+0141 "Ł" or the accented Greek capitals, are left unchanged. Mappings that change the length, such as U+0130, are not modelled. The mapping is exact on Latin-1 (`UserTable.JsLowerOnLatin1`).
- UserTable.JsLower: lower-cases character by character, so Unicode's Final_Sigma rule is not modelled. "ΑΣ" becomes "ασ" here and "ας" in JavaScript. It inherits the gaps of `JsLowerChar`.
- Scenarios.DeletedUserTokenRejected: stated only for Latin-1 usernames and identifiers, where the model's `toLowerCase` is exact. Beyond Latin-1 it would promise a login that the source can refuse ("Łukasz").
- Scenarios.NonAsciiNameRefused: stated only for Latin-1 usernames and e-mails, for the same reason. With "ÉŁ" and the e-mail "éł", the source answers 200.
- SQLite's `LOWER` is modelled as the built-in ASCII function; an ICU-enabled build that folds more letters is not modelled.
- The e-mail service (`server/services/emailService.js`) is not part of this model. Only its success or failure is an input, and that changes nothing but the log.
- Express setup, CORS, `console` logging, the root route, start-up and the auto-restart watchdog are not modelled.
- Client code other than the router guard (the auth store's API calls, `src/services/api.js`, `server/db.js`, views) is not part of this model. The store's `isAuthenticated` is modelled as "a non-empty token is held".
- Router: matching is exact on the path string. vue-router's case-insensitive and trailing-slash matching is not modelled.

## Findings

| source | as written | input that shows it | evidently intended | confidence | as-written member | corrected member |
|---|---|---|---|---|---|---|
| server/index.js:199-205 | `/api/register` looks up the code row but never compares it with the submitted code, and proceeds when no row exists | on an empty database, register `alice` / `a@x.com` / `Abcdef1!` with code `000000`, no code ever sent: 200 "User created successfully" | refuse with 400 "Invalid verification code" unless a row exists for the address and its code equals the submitted one | high (not executed) | AuthServer.AsWrittenSkipsCodeCheck | AuthServer.VerifiedCodeIsLive |
| server/index.js:255-268 | the identifier is lower-cased by JavaScript's full Unicode `toLowerCase`, the stored username and e-mail by SQLite's ASCII-only `LOWER`, so a stored name with a non-ASCII capital can never equal the identifier | register username `Élise`, then log in with identifier `Élise` and the right password: `toLowerCase` gives `élise`, `LOWER` keeps `Élise`, and the reply is 401 "Invalid credentials" | both sides lower-cased alike, so the user can log in by username in any case | high (not executed) | UserTable.LoginMissesNonAsciiUsername | UserTable.FoldedLoginFindsAnyCase |
| server/index.js:61-79 | the lock is announced for `Math.ceil(lockTime / 1000)` = 1800 seconds, yet the count resets once fifteen minutes pass after the last attempt | three wrong passwords, a fourth attempt locked at time t, then an attempt at t + 900001 ms: allowed, about 900 seconds before the announced wait is over | a locked identifier stays locked for the thirty minutes it is told to wait | medium (not executed) | RateLimit.LockLiftsBeforeRetryAfter | RateLimit.HeldLockLastsRetryAfter |
