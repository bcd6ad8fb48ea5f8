/**
 * CredentialVault: the password-strength policy of `isStrongPassword` and an
 * idealised bcrypt (`bcrypt.hashSync` / `bcrypt.compareSync`).
 */
module Credentials {

  // ---------------------------------------------------------------------------
  // Character classes of the four regular expressions in isStrongPassword
  // ---------------------------------------------------------------------------

  /** `[A-Z]` */
  predicate IsUpper(c: char) { 'A' <= c <= 'Z' }

  /** `[a-z]` */
  predicate IsLower(c: char) { 'a' <= c <= 'z' }

  /** `[0-9]` */
  predicate IsDigit(c: char) { '0' <= c <= '9' }

  /** `[!@#$%^&*]` */
  predicate IsSymbol(c: char) { c in "!@#$%^&*" }

  /** `/[class]/.test(s)`: the class matches somewhere in `s` (one scan, left to right). */
  function AnyChar(s: string, cls: char -> bool): (b: bool)
    ensures b <==> exists i :: 0 <= i < |s| && cls(s[i])
  {
    if s == [] then false
    else if cls(s[0]) then true
    else
      var rest := AnyChar(s[1..], cls);
      assert forall i :: 1 <= i < |s| ==> s[i] == s[1..][i - 1];
      rest
  }

  /**
   * JavaScript's `string.length`: the number of UTF-16 code units. A Dafny
   * `char` is a Unicode scalar value; those above U+FFFF take two code units.
   */
  function Utf16Length(s: string): (n: nat)
    ensures |s| <= n <= 2 * |s|
  {
    if s == [] then 0
    else (if s[0] as int > 0xFFFF then 2 else 1) + Utf16Length(s[1..])
  }

  const MIN_PASSWORD_LENGTH := 8

  /**
   * The five-rule strength policy: at least eight code units, an upper-case
   * letter, a lower-case letter, a digit and one of `!@#$%^&*`. The source's
   * `typeof password !== 'string'` branch is the type of the parameter here.
   */
  function IsStrongPassword(password: string): (strong: bool)
    ensures strong <==>
      && Utf16Length(password) >= MIN_PASSWORD_LENGTH
      && (exists i :: 0 <= i < |password| && IsUpper(password[i]))
      && (exists i :: 0 <= i < |password| && IsLower(password[i]))
      && (exists i :: 0 <= i < |password| && IsDigit(password[i]))
      && (exists i :: 0 <= i < |password| && IsSymbol(password[i]))
  {
    && Utf16Length(password) >= MIN_PASSWORD_LENGTH
    && AnyChar(password, IsUpper)
    && AnyChar(password, IsLower)
    && AnyChar(password, IsDigit)
    && AnyChar(password, IsSymbol)
  }

  /** A string of Basic Multilingual Plane characters has as many code units as characters. */
  lemma {:induction false} Utf16LengthOfBmp(s: string)
    requires forall i :: 0 <= i < |s| ==> s[i] as int <= 0xFFFF
    ensures Utf16Length(s) == |s|
  {
    if s != [] {
      assert forall i :: 0 <= i < |s[1..]| ==> s[1..][i] == s[i + 1];
      Utf16LengthOfBmp(s[1..]);
    }
  }

  /** "Abcdef1!" meets every rule. */
  lemma StrongExample()
    ensures IsStrongPassword("Abcdef1!")
  {
    var p := "Abcdef1!";
    Utf16LengthOfBmp(p);
    assert IsUpper(p[0]) && IsLower(p[1]) && IsDigit(p[6]) && IsSymbol(p[7]);
  }

  /** "abc12345" has no upper-case letter (and no symbol). */
  lemma NoUpperExample()
    ensures !IsStrongPassword("abc12345")
  {
    var p := "abc12345";
    assert !(exists i :: 0 <= i < |p| && IsUpper(p[i])) by {
      forall i | 0 <= i < |p| ensures !IsUpper(p[i]) {
        assert p[i] in "abc12345";
      }
    }
  }

  /** The empty string is weak (and is not an error). */
  lemma EmptyExample()
    ensures !IsStrongPassword("")
  {
  }

  /**
   * Length is counted in UTF-16 code units: seven characters, one of them
   * outside the Basic Multilingual Plane, are long enough.
   */
  lemma {:induction false} AstralCharacterCountsTwice()
    ensures IsStrongPassword("Aa1!bc\U{1F600}")
  {
    var p := "Aa1!bc\U{1F600}";
    assert |p| == 7;
    assert p[1..][1..][1..][1..][1..][1..] == ['\U{1F600}'];
    assert Utf16Length(['\U{1F600}']) == 2;
    assert IsUpper(p[0]) && IsLower(p[1]) && IsDigit(p[2]) && IsSymbol(p[3]);
  }

  // ---------------------------------------------------------------------------
  // Idealised bcrypt
  // ---------------------------------------------------------------------------

  /**
   * A stored bcrypt hash, seen as an ideal one-way function: it is determined
   * by the random salt and the password, and distinct passwords never collide.
   * The model reads `secret` only in `Matches`.
   */
  datatype PasswordHash = Bcrypt(salt: string, secret: string)

  /** `bcrypt.hashSync(password, 10)` with the salt it draws at random. */
  function Hash(password: string, salt: string): (h: PasswordHash)
    ensures h.salt == salt
    ensures forall other: string :: Matches(other, h) <==> other == password
  {
    Bcrypt(salt, password)
  }

  /** `bcrypt.compareSync(password, hash)`: hashing the password again with the stored salt reproduces the stored hash. */
  function Matches(password: string, h: PasswordHash): (ok: bool)
    ensures ok <==> Bcrypt(h.salt, password) == h
  {
    h.secret == password
  }

  /** Hashing the same password twice with different salts yields different stored values, both of which verify. */
  lemma SaltedHashesDiffer(password: string, salt1: string, salt2: string)
    requires salt1 != salt2
    ensures Hash(password, salt1) != Hash(password, salt2)
    ensures Matches(password, Hash(password, salt1)) && Matches(password, Hash(password, salt2))
  {
  }
}
