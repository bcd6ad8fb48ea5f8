/**
 * VerificationCodeStore arithmetic: how a code is drawn and written
 * (`generateVerificationCode`), the rows of the `codes` table, and the
 * resend-throttle and expiry rules of `/api/send-code` and `/api/register`.
 */
module VerificationCode {

  /** `60 * 1000`: minimum gap between two codes for one address. */
  const RESEND_COOLDOWN_MS := 60000
  /** `5 * 60 * 1000`: lifetime of a code. */
  const CODE_TTL_MS := 300000
  const MIN_CODE := 100000
  const MAX_CODE := 999999

  /** A row of the `codes` table, keyed by e-mail. */
  datatype CodeRow = CodeRow(code: string, sentAt: int, expiresAt: int)

  /** `Math.floor(100000 + Math.random() * 900000)` for a draw `rand` of `Math.random()`. */
  function CodeValue(rand: real): (n: int)
    requires 0.0 <= rand < 1.0
    ensures MIN_CODE <= n <= MAX_CODE
  {
    (100000.0 + rand * 900000.0).Floor
  }

  function DigitChar(d: nat): (c: char)
    requires d < 10
  {
    "0123456789"[d]
  }

  predicate IsDigitChar(c: char) { '0' <= c <= '9' }

  predicate AllDigits(s: string) {
    forall i | 0 <= i < |s| :: IsDigitChar(s[i])
  }

  /** `Number.prototype.toString()` for a natural number: its decimal digits, no leading zero. */
  function DecimalString(n: nat): (s: string)
    ensures |s| >= 1 && AllDigits(s)
    ensures n > 0 <==> s[0] != '0'
  {
    if n < 10 then [DigitChar(n)]
    else DecimalString(n / 10) + [DigitChar(n % 10)]
  }

  /** The number a string of decimal digits denotes. */
  function ParseDecimal(s: string): nat
    requires AllDigits(s)
  {
    if s == [] then 0
    else ParseDecimal(s[..|s| - 1]) * 10 + (s[|s| - 1] as int - '0' as int)
  }

  function Pow10(k: nat): (p: nat)
    ensures p >= 1
  {
    if k == 0 then 1 else 10 * Pow10(k - 1)
  }

  /** Writing a number in decimal and reading it back gives the number. */
  lemma {:induction false} ParseDecimalString(n: nat)
    ensures ParseDecimal(DecimalString(n)) == n
  {
    var s := DecimalString(n);
    if n >= 10 {
      ParseDecimalString(n / 10);
      assert s[..|s| - 1] == DecimalString(n / 10);
    }
  }

  /** A number with `k` digits is written with exactly `k` characters. */
  lemma {:induction false} DecimalStringLength(n: nat, k: nat)
    requires 1 <= k && Pow10(k - 1) <= n < Pow10(k)
    ensures |DecimalString(n)| == k
  {
    if k > 1 {
      DecimalStringLength(n / 10, k - 1);
    }
  }

  /**
   * `generateVerificationCode()`: a six-digit string with no leading zero,
   * denoting a number in 100000..999999.
   */
  function GenerateVerificationCode(rand: real): (code: string)
    requires 0.0 <= rand < 1.0
    ensures |code| == 6 && AllDigits(code) && code[0] != '0'
    ensures MIN_CODE <= ParseDecimal(code) <= MAX_CODE
  {
    var n := CodeValue(rand);
    assert Pow10(5) == 100000 && Pow10(6) == 1000000;
    DecimalStringLength(n, 6);
    ParseDecimalString(n);
    DecimalString(n)
  }

  /** The row `/api/send-code` writes for a code issued at `now`. */
  function FreshRow(rand: real, now: int): (row: CodeRow)
    requires 0.0 <= rand < 1.0
    ensures WellFormedRow(row) && row.sentAt == now
  {
    CodeRow(GenerateVerificationCode(rand), now, now + CODE_TTL_MS)
  }

  /** What every row written by `/api/send-code` satisfies. */
  predicate WellFormedRow(row: CodeRow) {
    |row.code| == 6 && AllDigits(row.code) && row.expiresAt == row.sentAt + CODE_TTL_MS
  }

  /** `row && now - row.sentAt < 60 * 1000`: a new code for this address is refused. */
  function IsThrottled(codes: map<string, CodeRow>, email: string, now: int): (throttled: bool)
    ensures throttled ==> email in codes && RetryAfterSeconds(now, codes[email].sentAt) >= 1
  {
    email in codes && now - codes[email].sentAt < RESEND_COOLDOWN_MS
  }

  /** `row && Date.now() > row.expiresAt`: for a row `/api/send-code` wrote, more than five minutes since it was sent. */
  function IsExpired(codes: map<string, CodeRow>, email: string, now: int): (expired: bool)
    ensures expired ==> email in codes
    ensures expired && WellFormedRow(codes[email]) ==> now - codes[email].sentAt > CODE_TTL_MS
  {
    email in codes && now > codes[email].expiresAt
  }

  /** `Math.ceil(x / d)` for an integer `x` and a positive integer `d`. */
  function CeilDiv(x: int, d: int): (q: int)
    requires d > 0
    ensures (q - 1) * d < x <= q * d
  {
    (x + d - 1) / d
  }

  /** `Math.ceil((60 * 1000 - (now - row.sentAt)) / 1000)`: whole seconds left in the cooldown, rounded up. */
  function RetryAfterSeconds(now: int, sentAt: int): (seconds: int)
    ensures (seconds - 1) * 1000 < RESEND_COOLDOWN_MS - (now - sentAt) <= seconds * 1000
  {
    CeilDiv(RESEND_COOLDOWN_MS - (now - sentAt), 1000)
  }

  /** Within the cooldown and with a clock that did not run backwards, the wait is 1 to 60 seconds. */
  lemma RetryAfterInRange(now: int, sentAt: int)
    requires sentAt <= now < sentAt + RESEND_COOLDOWN_MS
    ensures 1 <= RetryAfterSeconds(now, sentAt) <= 60
  {
  }

  /** A code issued at `now` for `email` is live for five minutes: not expired up to `now + 300000`, expired after. */
  lemma FreshRowLifetime(codes: map<string, CodeRow>, email: string, rand: real, now: int, t: int)
    requires 0.0 <= rand < 1.0
    ensures IsExpired(codes[email := FreshRow(rand, now)], email, t) <==> t > now + CODE_TTL_MS
  {
  }
}
