/**
 * The `users` table: rows in insertion (rowid) order, the queries the
 * handlers run against it, and the table's key constraints
 * (`id TEXT PRIMARY KEY`, `email TEXT UNIQUE`).
 */
module UserTable {
  import opened Wrappers
  import opened Credentials

  /** A row: `{id, username, email, password}`, the last being the bcrypt hash. */
  datatype User = User(id: string, username: string, email: string, password: PasswordHash)

  /** The user object the server returns: the row without `password`. */
  datatype PublicUser = PublicUser(id: string, username: string, email: string)

  /** `const { password: _pw, ...safeUser } = user` */
  function Public(u: User): (p: PublicUser)
    ensures p.id == u.id && p.username == u.username && p.email == u.email
  {
    PublicUser(u.id, u.username, u.email)
  }

  // ---------------------------------------------------------------------------
  // Lower-casing: SQLite's `LOWER` and JavaScript's `toLowerCase`
  // ---------------------------------------------------------------------------

  /** SQLite's built-in `LOWER` on one character: A-Z only. */
  function SqlLowerChar(c: char): (d: char)
    ensures !IsUpper(d)
    ensures !IsUpper(c) ==> d == c
    ensures IsUpper(c) ==> d as int == c as int + 32
  {
    if IsUpper(c) then (c as int + 32) as char else c
  }

  /** `LOWER(email)`, `LOWER(username)`: SQLite lower-cases ASCII letters only. */
  function SqlLower(s: string): (r: string)
    ensures |r| == |s|
    ensures forall i | 0 <= i < |s| :: !IsUpper(r[i]) && (IsUpper(s[i]) || r[i] == s[i])
  {
    seq(|s|, i requires 0 <= i < |s| => SqlLowerChar(s[i]))
  }

  /** A string without upper-case letters is its own lower-case form. */
  lemma SqlLowerOfLowerCase(s: string)
    requires forall i | 0 <= i < |s| :: !IsUpper(s[i])
    ensures SqlLower(s) == s
  {
  }

  /** Lower-casing twice is lower-casing once. */
  lemma SqlLowerIdempotent(s: string)
    ensures SqlLower(SqlLower(s)) == SqlLower(s)
  {
  }

  /**
   * The non-ASCII upper-case letters this model lower-cases: Latin-1
   * (U+00C0-U+00DE but U+00D7), basic Greek (U+0391-U+03A9 but U+03A2) and
   * basic Cyrillic (U+0400-U+042F).
   */
  predicate IsNonAsciiUpper(c: char) {
    || (0xC0 <= c as int <= 0xDE && c as int != 0xD7)
    || (0x391 <= c as int <= 0x3A9 && c as int != 0x3A2)
    || (0x400 <= c as int <= 0x42F)
  }

  /** JavaScript's `toLowerCase` on one character, for the letters above and A-Z. */
  function JsLowerChar(c: char): (d: char)
    ensures !IsUpper(d) && !IsNonAsciiUpper(d)
    ensures !IsUpper(c) && !IsNonAsciiUpper(c) ==> d == c
    ensures IsUpper(c) ==> d == SqlLowerChar(c)
  {
    if IsUpper(c) || (0xC0 <= c as int <= 0xDE && c as int != 0xD7) then (c as int + 32) as char
    else if 0x391 <= c as int <= 0x3A9 && c as int != 0x3A2 then (c as int + 32) as char
    else if 0x410 <= c as int <= 0x42F then (c as int + 32) as char
    else if 0x400 <= c as int <= 0x40F then (c as int + 80) as char
    else c
  }

  /** `identifier.toLowerCase()` */
  function JsLower(s: string): (r: string)
    ensures |r| == |s|
    ensures forall i | 0 <= i < |s| ::
      && !IsUpper(r[i]) && !IsNonAsciiUpper(r[i])
      && (IsUpper(s[i]) || IsNonAsciiUpper(s[i]) || r[i] == s[i])
  {
    seq(|s|, i requires 0 <= i < |s| => JsLowerChar(s[i]))
  }

  /**
   * Latin-1 text (U+0000-U+00FF). Unicode maps no Latin-1 character to
   * lower case outside the block, and with no context, so on such text
   * `JsLower` is all of `toLowerCase`.
   */
  predicate IsLatin1(s: string) {
    forall i | 0 <= i < |s| :: s[i] as int <= 0xFF
  }

  /** On Latin-1 text: A-Z and U+00C0-U+00DE except U+00D7 move up by 32; every other character stays. */
  lemma JsLowerOnLatin1(s: string)
    requires IsLatin1(s)
    ensures IsLatin1(JsLower(s))
    ensures forall i | 0 <= i < |s| ::
      JsLower(s)[i] as int ==
        if IsUpper(s[i]) || (0xC0 <= s[i] as int <= 0xDE && s[i] as int != 0xD7) then s[i] as int + 32 else s[i] as int
  {
  }

  /** Without non-ASCII upper-case letters the two lower-casings agree. */
  lemma JsLowerAgreesOnAscii(s: string)
    requires forall i | 0 <= i < |s| :: !IsNonAsciiUpper(s[i])
    ensures JsLower(s) == SqlLower(s)
  {
    forall i | 0 <= i < |s| ensures JsLower(s)[i] == SqlLower(s)[i] {
      if !IsUpper(s[i]) {
        assert JsLowerChar(s[i]) == s[i];
      }
    }
  }

  /**
   * A stored field holding a non-ASCII upper-case letter keeps it under
   * `LOWER`, while no JavaScript-lower-cased identifier holds one: the field
   * equals no lower-cased identifier at all.
   */
  lemma NonAsciiUpperNeverMatches(field: string, identifier: string, i: nat)
    requires i < |field| && IsNonAsciiUpper(field[i])
    ensures SqlLower(field) != JsLower(identifier)
  {
    if |field| == |identifier| {
      assert SqlLower(field)[i] == field[i];
      assert !IsNonAsciiUpper(JsLower(identifier)[i]);
    }
  }

  // ---------------------------------------------------------------------------
  // Queries: `db.get` returns the first matching row
  // ---------------------------------------------------------------------------

  datatype Query =
    | ByEmail(email: string)                     // WHERE email = ?
    | ById(id: string)                           // the PRIMARY KEY on id
    | ByLogin(identifier: string)                // WHERE LOWER(email) = ? OR LOWER(username) = ?
    | ByLoginFolded(identifier: string)          // the same, with the rows lower-cased as JavaScript does
    | ByIdAndEmail(id: string, email: string)    // WHERE id = ? AND email = ?

  predicate Satisfies(u: User, q: Query) {
    match q
    case ByEmail(e) => u.email == e
    case ById(id) => u.id == id
    case ByLogin(idv) => SqlLower(u.email) == idv || SqlLower(u.username) == idv
    case ByLoginFolded(idv) => JsLower(u.email) == idv || JsLower(u.username) == idv
    case ByIdAndEmail(id, e) => u.id == id && u.email == e
  }

  /** The position of the first row satisfying `q`, if any. */
  function FindFirst(users: seq<User>, q: Query): (r: Option<nat>)
    ensures r.Some? ==> r.value < |users| && Satisfies(users[r.value], q)
    ensures r.Some? ==> forall j | 0 <= j < r.value :: !Satisfies(users[j], q)
    ensures r.None? ==> forall j | 0 <= j < |users| :: !Satisfies(users[j], q)
  {
    if users == [] then None
    else if Satisfies(users[0], q) then Some(0)
    else
      match FindFirst(users[1..], q)
      case None => None
      case Some(k) => Some(k + 1)
  }

  /**
   * The login lookup as written finds a row whose e-mail or username, under
   * SQLite's `LOWER`, equals the identifier under JavaScript's `toLowerCase`
   * (that row, or an earlier one).
   */
  lemma LoginFindsAnyCase(users: seq<User>, identifier: string, k: nat)
    requires k < |users|
    requires SqlLower(users[k].email) == JsLower(identifier) || SqlLower(users[k].username) == JsLower(identifier)
    ensures FindFirst(users, ByLogin(JsLower(identifier))).Some?
    ensures FindFirst(users, ByLogin(JsLower(identifier))).value <= k
  {
  }

  /**
   * As written, a user whose username holds a non-ASCII upper-case letter is
   * found by the login lookup only through the e-mail, whatever is typed.
   */
  lemma LoginMissesNonAsciiUsername(u: User, identifier: string, i: nat)
    requires i < |u.username| && IsNonAsciiUpper(u.username[i])
    ensures Satisfies(u, ByLogin(JsLower(identifier))) ==> SqlLower(u.email) == JsLower(identifier)
  {
    NonAsciiUpperNeverMatches(u.username, identifier, i);
  }

  /**
   * With the rows lower-cased as the identifier is, a row whose e-mail or
   * username equals the identifier up to case is found (it, or an earlier one).
   */
  lemma FoldedLoginFindsAnyCase(users: seq<User>, identifier: string, k: nat)
    requires k < |users|
    requires JsLower(users[k].email) == JsLower(identifier) || JsLower(users[k].username) == JsLower(identifier)
    ensures FindFirst(users, ByLoginFolded(JsLower(identifier))).Some?
    ensures FindFirst(users, ByLoginFolded(JsLower(identifier))).value <= k
  {
  }

  /** For rows without non-ASCII upper-case letters the corrected lookup matches exactly the rows the one as written does. */
  lemma FoldedLoginAgreesOnAscii(u: User, idv: string)
    requires forall i | 0 <= i < |u.email| :: !IsNonAsciiUpper(u.email[i])
    requires forall i | 0 <= i < |u.username| :: !IsNonAsciiUpper(u.username[i])
    ensures Satisfies(u, ByLogin(idv)) <==> Satisfies(u, ByLoginFolded(idv))
  {
    JsLowerAgreesOnAscii(u.email);
    JsLowerAgreesOnAscii(u.username);
  }

  // ---------------------------------------------------------------------------
  // Key constraints
  // ---------------------------------------------------------------------------

  /** `email TEXT UNIQUE` (binary comparison: the case of an address matters). */
  predicate UniqueEmails(users: seq<User>) {
    forall i, j | 0 <= i < j < |users| :: users[i].email != users[j].email
  }

  /** `id TEXT PRIMARY KEY` */
  predicate UniqueIds(users: seq<User>) {
    forall i, j | 0 <= i < j < |users| :: users[i].id != users[j].id
  }

  predicate WellFormedTable(users: seq<User>) {
    UniqueEmails(users) && UniqueIds(users)
  }

  /** `'uuid-' + Math.random().toString(36).slice(2, 10)`: the prefix and up to eight base-36 digits. */
  predicate IsGeneratedId(id: string) {
    && 5 <= |id| <= 13
    && id[..5] == "uuid-"
    && forall i | 5 <= i < |id| :: IsDigit(id[i]) || IsLower(id[i])
  }

  /** Appending a row whose e-mail and id are both new keeps the table well formed. */
  lemma InsertKeepsKeys(users: seq<User>, u: User)
    requires WellFormedTable(users)
    requires FindFirst(users, ByEmail(u.email)).None?
    requires FindFirst(users, ById(u.id)).None?
    ensures WellFormedTable(users + [u])
  {
    var t := users + [u];
    forall i, j | 0 <= i < j < |t| ensures t[i].email != t[j].email && t[i].id != t[j].id {
      if j == |users| {
        assert !Satisfies(users[i], ByEmail(u.email)) && !Satisfies(users[i], ById(u.id));
      }
    }
  }

  // ---------------------------------------------------------------------------
  // DELETE FROM users WHERE email = ?
  // ---------------------------------------------------------------------------

  /** The table after deleting every row with this e-mail; the other rows keep their order. */
  function DeleteByEmail(users: seq<User>, email: string): (r: seq<User>)
    ensures |r| <= |users|
    ensures forall u :: u in r <==> u in users && u.email != email
  {
    if users == [] then []
    else if users[0].email == email then DeleteByEmail(users[1..], email)
    else [users[0]] + DeleteByEmail(users[1..], email)
  }

  /** Deleting an e-mail no row has changes nothing. */
  lemma {:induction false} DeleteAbsentEmail(users: seq<User>, email: string)
    requires forall j | 0 <= j < |users| :: users[j].email != email
    ensures DeleteByEmail(users, email) == users
  {
    if users != [] {
      var tail := users[1..];
      forall j | 0 <= j < |tail| ensures tail[j].email != email {
        assert tail[j] == users[j + 1];
      }
      DeleteAbsentEmail(tail, email);
      assert users == [users[0]] + tail;
    }
  }

  /**
   * With unique e-mails the delete removes exactly the row that has this
   * e-mail, if there is one, and nothing else.
   */
  lemma {:induction false} DeleteRemovesOnlyThatRow(users: seq<User>, email: string)
    requires UniqueEmails(users)
    ensures FindFirst(users, ByEmail(email)).None? ==> DeleteByEmail(users, email) == users
    ensures FindFirst(users, ByEmail(email)).Some? ==>
      var k := FindFirst(users, ByEmail(email)).value;
      DeleteByEmail(users, email) == users[..k] + users[k + 1..]
  {
    match FindFirst(users, ByEmail(email))
    case None =>
      DeleteAbsentEmail(users, email);
    case Some(k) =>
      DeleteFoundRow(users, email, k);
  }

  /** The step of the previous lemma for a row found at position `k`. */
  lemma {:induction false} DeleteFoundRow(users: seq<User>, email: string, k: nat)
    requires UniqueEmails(users)
    requires k < |users| && users[k].email == email
    ensures DeleteByEmail(users, email) == users[..k] + users[k + 1..]
    decreases k
  {
    var tail := users[1..];
    if k == 0 {
      forall j | 0 <= j < |tail| ensures tail[j].email != email {
        assert tail[j] == users[j + 1];
      }
      DeleteAbsentEmail(tail, email);
    } else {
      UniqueEmailsTail(users);
      assert tail[k - 1] == users[k];
      DeleteFoundRow(tail, email, k - 1);
      assert users[0].email != email;
      assert DeleteByEmail(users, email) == [users[0]] + DeleteByEmail(tail, email);
      RemoveFromTail(users, k);
    }
  }

  /** Removing position `k > 0` keeps the head and removes position `k - 1` of the tail. */
  lemma RemoveFromTail(users: seq<User>, k: nat)
    requires 0 < k < |users|
    ensures users[..k] + users[k + 1..] == [users[0]] + (users[1..][..k - 1] + users[1..][k..])
  {
  }

  lemma UniqueEmailsTail(users: seq<User>)
    requires UniqueEmails(users) && users != []
    ensures UniqueEmails(users[1..])
  {
    var tail := users[1..];
    forall i, j | 0 <= i < j < |tail| ensures tail[i].email != tail[j].email {
      assert tail[i] == users[i + 1] && tail[j] == users[j + 1];
    }
  }

  /** Deleting rows keeps the key constraints. */
  lemma {:induction false} DeleteKeepsKeys(users: seq<User>, email: string)
    requires WellFormedTable(users)
    ensures WellFormedTable(DeleteByEmail(users, email))
  {
    DeleteRemovesOnlyThatRow(users, email);
    var found := FindFirst(users, ByEmail(email));
    if found.Some? {
      RemoveKeepsKeys(users, found.value);
    }
  }

  /** Removing the row at position `k` keeps both keys unique. */
  lemma RemoveKeepsKeys(users: seq<User>, k: nat)
    requires WellFormedTable(users) && k < |users|
    ensures WellFormedTable(users[..k] + users[k + 1..])
  {
    var r := users[..k] + users[k + 1..];
    forall i, j | 0 <= i < j < |r| ensures r[i].email != r[j].email && r[i].id != r[j].id {
      var i', j' := if i < k then i else i + 1, if j < k then j else j + 1;
      assert r[i] == users[i'] && r[j] == users[j'];
    }
  }
}
