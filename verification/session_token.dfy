/**
 * SessionTokenService: `generateToken` / `verifyToken` over an opaque JSON
 * Web Token. Signing is not modelled; a token either carries the server's
 * signature over its claims or it does not. A token is valid while the
 * current time is before its `exp` claim (section 4.1.4 of RFC 7519); the
 * library reads the current time in whole seconds.
 */
module SessionToken {
  import opened Wrappers

  /** `expiresIn: '1h'` */
  const TOKEN_TTL_SECONDS := 3600

  /** The decoded payload: `{id, email}` plus the `iat` and `exp` claims the library adds. */
  datatype Claims = Claims(id: string, email: string, iat: int, exp: int)

  /** What the client sends after `Bearer `. */
  datatype TokenText =
    | Empty                           // `Bearer ` followed by nothing
    | Malformed                       // not three base64url parts of JSON
    | BadSignature(claims: Claims)    // well formed, but not signed with the server's secret
    | Signed(claims: Claims)          // signed with the server's secret

  /** The `Authorization` request header. */
  datatype AuthHeader = NoHeader | OtherScheme | Bearer(token: TokenText)

  /** `Math.floor(Date.now() / 1000)`: the library's clock, in seconds. */
  function Seconds(nowMs: int): (s: int)
    ensures s * 1000 <= nowMs < s * 1000 + 1000
  {
    nowMs / 1000
  }

  /** `generateToken(user)` at time `nowMs`. */
  function GenerateToken(id: string, email: string, nowMs: int): (t: TokenText)
    ensures t.Signed? && t.claims.id == id && t.claims.email == email
    ensures t.claims.iat == Seconds(nowMs) && t.claims.exp == t.claims.iat + TOKEN_TTL_SECONDS
  {
    var iat := Seconds(nowMs);
    Signed(Claims(id, email, iat, iat + TOKEN_TTL_SECONDS))
  }

  /** `auth && auth.startsWith('Bearer ') ? auth.slice(7) : null` */
  function BearerToken(auth: AuthHeader): (t: Option<TokenText>)
    ensures t.Some? <==> auth.Bearer?
  {
    match auth
    case Bearer(token) => Some(token)
    case _ => None
  }

  /**
   * `verifyToken(token)`: `null` for a missing or empty token, a malformed
   * one, a bad signature, or one whose `exp` is not after the current second.
   */
  function VerifyToken(token: Option<TokenText>, nowMs: int): (r: Option<Claims>)
    ensures r.Some? ==> token == Some(Signed(r.value)) && Seconds(nowMs) < r.value.exp
    ensures token.Some? && token.value.Signed? && Seconds(nowMs) < token.value.claims.exp ==> r.Some?
  {
    match token
    case None => None
    case Some(Signed(claims)) => if Seconds(nowMs) >= claims.exp then None else Some(claims)
    case Some(_) => None
  }

  /** A token issued at `issuedMs` and presented at `nowMs` decodes to its own claims exactly while the second of `nowMs` is before `exp`. */
  lemma IssuedTokenRoundTrip(id: string, email: string, issuedMs: int, nowMs: int)
    ensures var c := Claims(id, email, Seconds(issuedMs), Seconds(issuedMs) + TOKEN_TTL_SECONDS);
      && (Seconds(nowMs) < c.exp ==> VerifyToken(Some(GenerateToken(id, email, issuedMs)), nowMs) == Some(c))
      && (Seconds(nowMs) >= c.exp ==> VerifyToken(Some(GenerateToken(id, email, issuedMs)), nowMs) == None)
  {
  }

  /** A fresh token validates for at least the next 3599 seconds and never from one hour on. */
  lemma TokenLifetime(id: string, email: string, issuedMs: int, nowMs: int)
    ensures issuedMs <= nowMs <= issuedMs + 3599000 ==>
      VerifyToken(Some(GenerateToken(id, email, issuedMs)), nowMs).Some?
    ensures nowMs >= issuedMs + 3600000 ==>
      VerifyToken(Some(GenerateToken(id, email, issuedMs)), nowMs).None?
  {
    var q := issuedMs / 1000;
    assert q * 1000 <= issuedMs < q * 1000 + 1000;
    if issuedMs <= nowMs <= issuedMs + 3599000 {
      assert nowMs < (q + 3600) * 1000;
      assert Seconds(nowMs) < q + 3600;
    }
    if nowMs >= issuedMs + 3600000 {
      assert nowMs >= (q + 3600) * 1000;
      assert Seconds(nowMs) >= q + 3600;
    }
  }

  /** A missing header, another scheme, an empty or malformed token, or a bad signature never validates. */
  lemma UnsignedTokensRejected(auth: AuthHeader, nowMs: int)
    requires !(auth.Bearer? && auth.token.Signed?)
    ensures VerifyToken(BearerToken(auth), nowMs) == None
  {
  }
}
