/**
 * The User document and the checks Mongoose applies to it when it is saved:
 * every path is required, the email must match
 *     /^[^\s@]+@[^\s@]+\.[^\s@]+$/
 * and the gender must be one of Male, Female, Other. Also the two password
 * helpers the schema attaches to a document, comparePassword and
 * hashedPassword, over the abstract hasher.
 */
module UserSchema {
  import opened Bcrypt

  /** A JavaScript Date, as milliseconds since the epoch. */
  type Date = int

  /** One user document. `password` holds whatever was written there: a bcrypt hash after signup. */
  datatype User = User(
    username: string,
    email: string,
    password: string,
    fullName: string,
    dateOfBirth: Date,
    gender: string)

  /** `\s` of JavaScript regular expressions: the white-space and line-terminator characters. */
  predicate IsJsWhitespace(c: char)
  {
    || c == '\t' || c == '\n' || c == '\U{000B}' || c == '\U{000C}' || c == '\r' || c == ' '
    || c == '\U{00A0}' || c == '\U{1680}' || ('\U{2000}' <= c <= '\U{200A}')
    || c == '\U{2028}' || c == '\U{2029}' || c == '\U{202F}' || c == '\U{205F}'
    || c == '\U{3000}' || c == '\U{FEFF}'
  }

  /** The class `[^\s@]`. */
  predicate IsEmailChar(c: char)
  {
    c != '@' && !IsJsWhitespace(c)
  }

  predicate AllEmailChars(s: string)
  {
    forall i :: 0 <= i < |s| ==> IsEmailChar(s[i])
  }

  /** A '.' that is neither the first nor the last character. */
  predicate HasInnerDot(s: string)
  {
    exists i :: 0 < i < |s| - 1 && s[i] == '.'
  }

  /**
   * What the email expression matches, read off its shape: the value is
   * a + "@" + b + "." + c with a, b, c non-empty runs of `[^\s@]`.
   */
  ghost predicate EmailPatternMatches(v: string)
  {
    exists a: string, b: string, c: string ::
      && |a| > 0 && |b| > 0 && |c| > 0
      && AllEmailChars(a) && AllEmailChars(b) && AllEmailChars(c)
      && v == a + "@" + b + "." + c
  }

  /** The position of the first '@', or |s| when there is none. */
  function IndexOfAt(s: string): (k: nat)
    ensures k <= |s|
    ensures k < |s| ==> s[k] == '@'
    ensures forall j :: 0 <= j < k ==> s[j] != '@'
  {
    if s == [] then 0
    else if s[0] == '@' then 0
    else 1 + IndexOfAt(s[1..])
  }

  /** The email validator of the schema: split at the first '@' and check both sides. */
  function IsValidEmail(v: string): bool
  {
    var k := IndexOfAt(v);
    && 0 < k < |v|
    && AllEmailChars(v[..k])
    && AllEmailChars(v[k + 1..])
    && HasInnerDot(v[k + 1..])
  }

  lemma IndexOfAtAt(a: string, rest: string)
    requires AllEmailChars(a)
    ensures IndexOfAt(a + "@" + rest) == |a|
  {
    var s := a + "@" + rest;
    assert s[|a|] == '@';
  }

  lemma ValidEmailMatchesPattern(v: string)
    requires IsValidEmail(v)
    ensures EmailPatternMatches(v)
  {
    var k := IndexOfAt(v);
    var a, d := v[..k], v[k + 1..];
    var i :| 0 < i < |d| - 1 && d[i] == '.';
    var b, c := d[..i], d[i + 1..];
    assert d == b + "." + c;
    assert v == a + "@" + d;
    assert AllEmailChars(b) && AllEmailChars(c) by {
      forall j | 0 <= j < |b| ensures IsEmailChar(b[j]) { assert b[j] == d[j]; }
      forall j | 0 <= j < |c| ensures IsEmailChar(c[j]) { assert c[j] == d[i + 1 + j]; }
    }
    assert v == a + "@" + b + "." + c;
  }

  lemma PatternMatchIsValidEmail(v: string, a: string, b: string, c: string)
    requires |a| > 0 && |b| > 0 && |c| > 0
    requires AllEmailChars(a) && AllEmailChars(b) && AllEmailChars(c)
    requires v == a + "@" + b + "." + c
    ensures IsValidEmail(v)
  {
    var d := b + "." + c;
    assert v == a + "@" + d;
    IndexOfAtAt(a, d);
    assert v[..|a|] == a;
    assert v[|a| + 1..] == d;
    assert d[|b|] == '.';
    assert AllEmailChars(d) by {
      forall j | 0 <= j < |d| ensures IsEmailChar(d[j]) {
        if j < |b| { assert d[j] == b[j]; }
        else if j > |b| { assert d[j] == c[j - |b| - 1]; }
      }
    }
  }

  /** A plain address passes the email validator. */
  lemma SampleEmailValid()
    ensures IsValidEmail("alice@example.com")
  {
    PatternMatchIsValidEmail("alice@example.com", "alice", "example", "com");
  }

  /** The validator accepts exactly what the regular expression matches. */
  lemma EmailValidatorMatchesPattern(v: string)
    ensures IsValidEmail(v) <==> EmailPatternMatches(v)
  {
    if IsValidEmail(v) {
      ValidEmailMatchesPattern(v);
    }
    if EmailPatternMatches(v) {
      var a: string, b: string, c: string :|
        && |a| > 0 && |b| > 0 && |c| > 0
        && AllEmailChars(a) && AllEmailChars(b) && AllEmailChars(c)
        && v == a + "@" + b + "." + c;
      PatternMatchIsValidEmail(v, a, b, c);
    }
  }

  /**
   * An accepted email has exactly one '@', which is neither first nor last,
   * no white space anywhere, and a '.' in the domain that is neither the
   * domain's first nor its last character.
   */
  lemma ValidEmailShape(v: string)
    requires IsValidEmail(v)
    ensures forall j :: 0 <= j < |v| ==> !IsJsWhitespace(v[j])
    ensures exists k :: 0 < k < |v| - 1 && v[k] == '@' && HasInnerDot(v[k + 1..])
    ensures forall j1, j2 :: 0 <= j1 < |v| && 0 <= j2 < |v| && v[j1] == '@' && v[j2] == '@' ==> j1 == j2
  {
    var k := IndexOfAt(v);
    var d := v[k + 1..];
    assert v == v[..k] + [v[k]] + d;
    forall j | 0 <= j < |v| && j != k ensures IsEmailChar(v[j]) {
      if j < k { assert v[j] == v[..k][j]; } else { assert v[j] == d[j - k - 1]; }
    }
    assert 0 < k < |v| - 1 && v[k] == '@' && HasInnerDot(v[k + 1..]);
  }

  const GenderValues: seq<string> := ["Male", "Female", "Other"]

  /** The enum validator on `gender`. */
  predicate IsValidGender(g: string)
  {
    g in GenderValues
  }

  /** Mongoose's `required` on a String path: present and not the empty string. */
  predicate IsPresent(s: string)
  {
    |s| > 0
  }

  /** All validators of the schema, as `save()` runs them. */
  predicate IsValidDocument(u: User)
  {
    && IsPresent(u.username)
    && IsPresent(u.email) && IsValidEmail(u.email)
    && IsPresent(u.password)
    && IsPresent(u.fullName)
    && IsPresent(u.gender) && IsValidGender(u.gender)
  }

  /**
   * A document is valid exactly when username, password and full name are
   * non-empty, the email matches the pattern and the gender is one of the
   * three values.
   */
  lemma ValidDocumentIff(u: User)
    ensures IsValidDocument(u) <==>
              && u.username != [] && u.password != [] && u.fullName != []
              && EmailPatternMatches(u.email)
              && (u.gender == "Male" || u.gender == "Female" || u.gender == "Other")
  {
    EmailValidatorMatchesPattern(u.email);
  }

  /**
   * `comparePassword(candidate)`: bcrypt.compare of the candidate against the
   * stored password. With a sound hasher, a candidate always matches a hash
   * made from it.
   */
  function ComparePassword(h: Hasher, u: User, candidate: string): (r: bool)
    ensures Sound(h) && (exists s :: u.password == h.hash(candidate, s)) ==> r
  {
    h.compare(candidate, u.password)
  }

  /** `hashedPassword(password)`: bcrypt.hash with a fresh salt (passed in). */
  function HashedPassword(h: Hasher, password: string, salt: Salt): (r: string)
    ensures Sound(h) ==> r != [] && h.compare(password, r)
  {
    h.hash(password, salt)
  }
}
