/**
 * The e-mail format test of `/api/send-code`: the regular expression
 * `^[^\s@]+@[^\s@]+\.[^\s@]+$` applied with JavaScript's meaning of `\s`.
 */
module EmailFormat {
  import opened Wrappers

  /** JavaScript's `\s`: the ECMAScript white-space and line-terminator characters. */
  predicate IsJsWhitespace(c: char) {
    var n := c as int;
    || (0x09 <= n <= 0x0D)                  // \t \n \v \f \r
    || n == 0x20 || n == 0xA0 || n == 0x1680
    || (0x2000 <= n <= 0x200A)
    || n == 0x2028 || n == 0x2029 || n == 0x202F || n == 0x205F
    || n == 0x3000 || n == 0xFEFF
  }

  /** `[^\s@]` */
  predicate PatternChar(c: char) {
    !IsJsWhitespace(c) && c != '@'
  }

  /** `[^\s@]*` over the whole of `s`. */
  predicate AllPatternChars(s: string) {
    forall i | 0 <= i < |s| :: PatternChar(s[i])
  }

  /**
   * What the regular expression accepts: some split `local @ domain . tld`
   * into three non-empty runs of `[^\s@]`. The domain run may itself contain
   * dots, so the split is an existential choice, as in the backtracking matcher.
   */
  ghost predicate MatchesEmailPattern(e: string) {
    exists at, dot | 0 < at && at + 1 < dot && dot + 1 < |e| ::
      && e[at] == '@' && e[dot] == '.'
      && AllPatternChars(e[..at]) && AllPatternChars(e[at + 1..dot]) && AllPatternChars(e[dot + 1..])
  }

  /** The first position of `c` in `s`, if any. */
  function FirstIndexOf(s: string, c: char): (r: Option<nat>)
    ensures r.Some? ==> r.value < |s| && s[r.value] == c && forall i | 0 <= i < r.value :: s[i] != c
    ensures r.None? ==> forall i | 0 <= i < |s| :: s[i] != c
  {
    if s == [] then None
    else if s[0] == c then Some(0)
    else
      match FirstIndexOf(s[1..], c)
      case None => None
      case Some(k) => Some(k + 1)
  }

  /**
   * The check as a single left-to-right decision: the first `@` is not at the
   * start, nothing before or after it is white space or another `@`, and a dot
   * sits strictly inside what follows the character after the `@`.
   */
  function IsValidEmail(e: string): (valid: bool)
    ensures valid ==> |e| >= 5 && e[0] != '@'
  {
    match FirstIndexOf(e, '@')
    case None => false
    case Some(at) =>
      && 0 < at
      && AllPatternChars(e[..at])
      && AllPatternChars(e[at + 1..])
      && exists dot | at + 1 < dot < |e| - 1 :: e[dot] == '.'
  }

  /**
   * `!email || !regex.test(email)` negated: the field is present and well
   * formed. The emptiness test is subsumed: the field passes exactly when it
   * is a string the regular expression matches.
   */
  function IsEmailFieldValid(email: Option<string>): (valid: bool)
    ensures valid <==> email.Some? && MatchesEmailPattern(email.value)
  {
    if email.Some? then
      IsValidEmailMatchesPattern(email.value);
      email.value != "" && IsValidEmail(email.value)
    else
      false
  }

  /** The decision procedure accepts exactly what the regular expression accepts. */
  lemma IsValidEmailMatchesPattern(e: string)
    ensures IsValidEmail(e) <==> MatchesEmailPattern(e)
  {
    if IsValidEmail(e) {
      ValidEmailMatches(e);
    }
    if MatchesEmailPattern(e) {
      var at, dot :| 0 < at && at + 1 < dot && dot + 1 < |e|
        && e[at] == '@' && e[dot] == '.'
        && AllPatternChars(e[..at]) && AllPatternChars(e[at + 1..dot]) && AllPatternChars(e[dot + 1..]);
      MatchIsValid(e, at, dot);
    }
  }

  /** Soundness: the split the decision procedure finds is a match. */
  lemma ValidEmailMatches(e: string)
    requires IsValidEmail(e)
    ensures MatchesEmailPattern(e)
  {
    var at := FirstIndexOf(e, '@').value;
    var dot :| at + 1 < dot < |e| - 1 && e[dot] == '.';
    var domain, tld, rest := e[at + 1..dot], e[dot + 1..], e[at + 1..];
    assert AllPatternChars(domain) by {
      forall i | 0 <= i < |domain| ensures PatternChar(domain[i]) {
        assert domain[i] == rest[i];
      }
    }
    assert AllPatternChars(tld) by {
      forall i | 0 <= i < |tld| ensures PatternChar(tld[i]) {
        assert tld[i] == rest[i + dot - at];
      }
    }
  }

  /** Completeness: any match is found, at the first `@`. */
  lemma MatchIsValid(e: string, at: nat, dot: nat)
    requires 0 < at && at + 1 < dot && dot + 1 < |e|
    requires e[at] == '@' && e[dot] == '.'
    requires AllPatternChars(e[..at]) && AllPatternChars(e[at + 1..dot]) && AllPatternChars(e[dot + 1..])
    ensures IsValidEmail(e)
  {
    var local, domain, tld, rest := e[..at], e[at + 1..dot], e[dot + 1..], e[at + 1..];
    assert forall i | 0 <= i < at :: e[i] == local[i];
    assert FirstIndexOf(e, '@') == Some(at);
    assert AllPatternChars(rest) by {
      forall i | 0 <= i < |rest| ensures PatternChar(rest[i]) {
        var j := at + 1 + i;
        if j < dot {
          assert rest[i] == domain[i];
        } else if j > dot {
          assert rest[i] == tld[j - dot - 1];
        }
      }
    }
  }

  /** An accepted address has exactly one `@` and no white space at all. */
  lemma ValidEmailShape(e: string)
    requires IsValidEmail(e)
    ensures exists at :: 0 <= at < |e| && e[at] == '@' && forall i | 0 <= i < |e| && i != at :: e[i] != '@'
    ensures forall i | 0 <= i < |e| :: !IsJsWhitespace(e[i])
  {
    var at := FirstIndexOf(e, '@').value;
    forall i | 0 <= i < |e| && i != at ensures PatternChar(e[i]) {
      if i < at {
        assert e[i] == e[..at][i];
      } else {
        assert e[i] == e[at + 1..][i - at - 1];
      }
    }
  }

  /** A plain address passes. */
  lemma PlainAddressAccepted()
    ensures IsValidEmail("a@x.com")
  {
    var e := "a@x.com";
    assert e[..1] == "a" && e[2..3] == "x" && e[4..] == "com";
    MatchIsValid(e, 1, 3);
  }

  /** An address without a dot after the `@` fails. */
  lemma AddressWithoutDotRefused()
    ensures !IsValidEmail("a@xcom")
  {
    var e := "a@xcom";
    assert FirstIndexOf(e, '@') == Some(1);
    forall i | 0 <= i < |e| ensures e[i] != '.' {
      assert e[i] in "a@xcom";
    }
  }

  /** An address with a space fails. */
  lemma AddressWithSpaceRefused()
    ensures !IsValidEmail("a b@x.com")
  {
    var e := "a b@x.com";
    assert FirstIndexOf(e, '@') == Some(3);
    assert e[..3][1] == ' ';
  }

  /** An address that starts with its `@` fails. */
  lemma AddressStartingWithAtRefused()
    ensures !IsValidEmail("@x.com")
  {
    assert FirstIndexOf("@x.com", '@') == Some(0);
  }
}
