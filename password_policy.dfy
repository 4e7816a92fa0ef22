/**
 * The password policy of the User model (userSchema.methods.validatePassword):
 * three checks applied in order, the first failure wins.
 *   1. at least 8 characters;
 *   2. the complexity regular expression
 *        ^(?=.*[a-z])(?=.*[A-Z])(?=.*\d)(?=.*[@$!%*?&])[A-Za-z\d@$!%*?&]+$
 *      i.e. one lower-case letter, one upper-case letter, one digit and one of
 *      the specials @$!%*?&, and no character outside those four classes;
 *   3. the lower-cased password must not be one of 24 common passwords.
 * The source throws an Error with a fixed message on failure and returns true
 * on success; here the outcome is a Verdict.
 */
module PasswordPolicy {

  /** Why a password was refused. */
  datatype Violation = TooShort | InsufficientComplexity | TooCommon
  {
    /** The message of the Error the source throws. */
    function Message(): string
    {
      match this
      case TooShort => "Password must be at least 8 characters long."
      case InsufficientComplexity =>
        "Password must contain at least one uppercase letter, one lowercase letter, one number, and one special character."
      case TooCommon => "Password is too common."
    }
  }

  datatype Verdict = Accepted | Rejected(violation: Violation)

  const MinLength: nat := 8

  /** The fixed list of common passwords, compared against the lower-cased password. */
  const CommonPasswords: seq<string> := [
    "123456", "password", "12345678", "qwerty", "12345", "123456789",
    "football", "1234", "1234567", "baseball", "welcome", "1234567890",
    "abc123", "111111", "1qaz2wsx", "dragon", "master", "monkey",
    "letmein", "login", "princess", "qwertyuiop", "solo", "passw0rd"
  ]

  predicate IsLower(c: char) { 'a' <= c <= 'z' }
  predicate IsUpper(c: char) { 'A' <= c <= 'Z' }
  /** `\d` without the unicode flag: ASCII digits only. */
  predicate IsDigit(c: char) { '0' <= c <= '9' }
  /** The special characters of the complexity expression: `[@$!%*?&]`. */
  predicate IsSpecial(c: char)
  {
    c == '@' || c == '$' || c == '!' || c == '%' || c == '*' || c == '?' || c == '&'
  }

  /** The four character classes the complexity expression asks for. */
  datatype CharClass = Lower | Upper | Digit | Special

  predicate InClass(c: char, k: CharClass)
  {
    match k
    case Lower => IsLower(c)
    case Upper => IsUpper(c)
    case Digit => IsDigit(c)
    case Special => IsSpecial(c)
  }

  /** The closing class `[A-Za-z\d@$!%*?&]`. */
  predicate IsAllowed(c: char)
  {
    IsLower(c) || IsUpper(c) || IsDigit(c) || IsSpecial(c)
  }

  const AllClasses: set<CharClass> := {Lower, Upper, Digit, Special}

  /** The lookahead `(?=.*[k])`: some character of p is in class k. */
  ghost predicate Contains(p: string, k: CharClass)
  {
    exists i :: 0 <= i < |p| && InClass(p[i], k)
  }

  /** The body `[A-Za-z\d@$!%*?&]+$`, apart from non-emptiness. */
  ghost predicate AllAllowed(p: string)
  {
    forall i :: 0 <= i < |p| ==> IsAllowed(p[i])
  }

  /** What the complexity expression accepts, read declaratively. */
  ghost predicate MeetsComplexity(p: string)
  {
    && Contains(p, Lower) && Contains(p, Upper) && Contains(p, Digit) && Contains(p, Special)
    && AllAllowed(p)
  }

  /** The classes one character belongs to. */
  function ClassesOf(c: char): set<CharClass>
  {
    (if IsLower(c) then {Lower} else {}) + (if IsUpper(c) then {Upper} else {})
    + (if IsDigit(c) then {Digit} else {}) + (if IsSpecial(c) then {Special} else {})
  }

  /** What one pass over a password collects: the classes seen, and whether every character is allowed. */
  datatype Scan = Scan(seen: set<CharClass>, allAllowed: bool)

  lemma ContainsUnfold(p: string, k: CharClass)
    requires p != []
    ensures Contains(p, k) <==> InClass(p[0], k) || Contains(p[1..], k)
  {
    if Contains(p, k) && !InClass(p[0], k) {
      var i :| 0 <= i < |p| && InClass(p[i], k);
      assert p[1..][i - 1] == p[i];
    }
    if Contains(p[1..], k) {
      var i :| 0 <= i < |p[1..]| && InClass(p[1..][i], k);
      assert p[i + 1] == p[1..][i];
    }
  }

  /** Decides the complexity expression in one pass over the password. */
  function ScanPassword(p: string): (r: Scan)
    ensures forall k :: k in r.seen <==> Contains(p, k)
    ensures r.allAllowed <==> AllAllowed(p)
  {
    if p == [] then Scan({}, true)
    else
      var rest := ScanPassword(p[1..]);
      assert forall k :: Contains(p, k) <==> InClass(p[0], k) || Contains(p[1..], k) by {
        forall k ensures Contains(p, k) <==> InClass(p[0], k) || Contains(p[1..], k) {
          ContainsUnfold(p, k);
        }
      }
      assert AllAllowed(p) <==> IsAllowed(p[0]) && AllAllowed(p[1..]) by {
        if IsAllowed(p[0]) && AllAllowed(p[1..]) {
          forall i | 0 <= i < |p| ensures IsAllowed(p[i]) {
            if i > 0 { assert p[i] == p[1..][i - 1]; }
          }
        }
      }
      Scan(ClassesOf(p[0]) + rest.seen, IsAllowed(p[0]) && rest.allAllowed)
  }

  /** The complexity test of validatePassword, decided by one scan. */
  function ComplexityTest(p: string): (r: bool)
    ensures r <==> MeetsComplexity(p)
  {
    var s := ScanPassword(p);
    AllClasses <= s.seen && s.allAllowed
  }

  /** ASCII lower-casing of one character. */
  function LowerChar(c: char): char
  {
    if IsUpper(c) then (c as int + 32) as char else c
  }

  /**
   * `String.prototype.toLowerCase`, on the ASCII letters. Only passwords that
   * passed the complexity check reach it, and those are all ASCII, where the
   * two agree.
   */
  function ToLowerCase(s: string): (r: string)
    ensures |r| == |s|
    ensures forall i :: 0 <= i < |s| ==> r[i] == LowerChar(s[i])
  {
    if s == [] then [] else [LowerChar(s[0])] + ToLowerCase(s[1..])
  }

  /** `validatePassword(password)`: true, or the first violated rule. */
  function ValidatePassword(p: string): (r: Verdict)
    ensures |p| < MinLength ==> r == Rejected(TooShort)
    ensures |p| >= MinLength && !MeetsComplexity(p) ==> r == Rejected(InsufficientComplexity)
    ensures r == Rejected(TooCommon) <==>
              |p| >= MinLength && MeetsComplexity(p) && ToLowerCase(p) in CommonPasswords
    ensures r == Accepted <==>
              |p| >= MinLength && MeetsComplexity(p) && ToLowerCase(p) !in CommonPasswords
  {
    if |p| < MinLength then Rejected(TooShort)
    else if !ComplexityTest(p) then Rejected(InsufficientComplexity)
    else if ToLowerCase(p) in CommonPasswords then Rejected(TooCommon)
    else Accepted
  }

  /** Only lower-case letters and digits: what every common password is made of. */
  ghost predicate LowerAndDigits(e: string)
  {
    forall i :: 0 <= i < |e| ==> IsLower(e[i]) || IsDigit(e[i])
  }

  // The 24 entries are checked in four lemmas of six, which keeps each proof obligation small.
  lemma FirstQuarterLowerAndDigits()
    ensures LowerAndDigits("123456") && LowerAndDigits("password") && LowerAndDigits("12345678")
    ensures LowerAndDigits("qwerty") && LowerAndDigits("12345") && LowerAndDigits("123456789")
  {
  }

  lemma SecondQuarterLowerAndDigits()
    ensures LowerAndDigits("football") && LowerAndDigits("1234") && LowerAndDigits("1234567")
    ensures LowerAndDigits("baseball") && LowerAndDigits("welcome") && LowerAndDigits("1234567890")
  {
  }

  lemma ThirdQuarterLowerAndDigits()
    ensures LowerAndDigits("abc123") && LowerAndDigits("111111") && LowerAndDigits("1qaz2wsx")
    ensures LowerAndDigits("dragon") && LowerAndDigits("master") && LowerAndDigits("monkey")
  {
  }

  lemma FourthQuarterLowerAndDigits()
    ensures LowerAndDigits("letmein") && LowerAndDigits("login") && LowerAndDigits("princess")
    ensures LowerAndDigits("qwertyuiop") && LowerAndDigits("solo") && LowerAndDigits("passw0rd")
  {
  }

  /** Every common password is made of lower-case letters and digits only. */
  lemma CommonPasswordsAreLowerAndDigits(e: string)
    requires e in CommonPasswords
    ensures LowerAndDigits(e)
  {
    FirstQuarterLowerAndDigits();
    SecondQuarterLowerAndDigits();
    ThirdQuarterLowerAndDigits();
    FourthQuarterLowerAndDigits();
  }

  /**
   * A password that passes the complexity check holds a special character,
   * which lower-casing keeps where it is: its lower-cased form is never made
   * of lower-case letters and digits only.
   */
  lemma ComplexNeverLowerAndDigits(p: string)
    requires MeetsComplexity(p)
    ensures !LowerAndDigits(ToLowerCase(p))
  {
    var i :| 0 <= i < |p| && InClass(p[i], Special);
    assert ToLowerCase(p)[i] == p[i];
  }

  /** Hence a password that passes the complexity check is never a common password. */
  lemma ComplexNeverCommon(p: string)
    requires MeetsComplexity(p)
    ensures ToLowerCase(p) !in CommonPasswords
  {
    ComplexNeverLowerAndDigits(p);
    if ToLowerCase(p) in CommonPasswords {
      CommonPasswordsAreLowerAndDigits(ToLowerCase(p));
    }
  }

  /** The "too common" branch can never be taken. */
  lemma TooCommonUnreachable(p: string)
    ensures ValidatePassword(p) != Rejected(TooCommon)
  {
    if |p| >= MinLength && MeetsComplexity(p) {
      ComplexNeverCommon(p);
    }
  }

  /** The policy accepts exactly the passwords of length at least 8 that meet the complexity rule. */
  lemma AcceptedIffLongAndComplex(p: string)
    ensures ValidatePassword(p) == Accepted <==> |p| >= MinLength && MeetsComplexity(p)
  {
    if |p| >= MinLength && MeetsComplexity(p) {
      ComplexNeverCommon(p);
    }
  }

  /**
   * A common password in any casing fails the complexity rule, so the policy
   * refuses it before the denylist is consulted (see RefusedWhenNotComplex).
   */
  lemma CommonPasswordFailsComplexity(p: string)
    requires ToLowerCase(p) in CommonPasswords
    ensures !MeetsComplexity(p)
  {
    if MeetsComplexity(p) {
      ComplexNeverCommon(p);
    }
  }

  /** A password that fails the complexity rule is refused for its length when short, otherwise for complexity. */
  lemma RefusedWhenNotComplex(p: string)
    requires !MeetsComplexity(p)
    ensures ValidatePassword(p) == Rejected(if |p| < MinLength then TooShort else InsufficientComplexity)
  {
  }

  /** "PASSWORD" is refused for complexity, not as a common password. */
  lemma AllCapsPasswordRefusedForComplexity()
    ensures ValidatePassword("PASSWORD") == Rejected(InsufficientComplexity)
  {
    assert ToLowerCase("PASSWORD") == "password";
    CommonPasswordFailsComplexity("PASSWORD");
    RefusedWhenNotComplex("PASSWORD");
  }

  /** A character outside `[A-Za-z0-9@$!%*?&]` (a space, '#', '-') anywhere in a long password refuses it. */
  lemma ForeignCharacterRefused(p: string, i: int)
    requires |p| >= MinLength && 0 <= i < |p| && !IsAllowed(p[i])
    ensures ValidatePassword(p) == Rejected(InsufficientComplexity)
  {
  }

  /** A password with one character of each class and nothing else is accepted. */
  lemma SampleAccepted()
    ensures ValidatePassword("Abcdef1!") == Accepted
  {
    var p := "Abcdef1!";
    assert InClass(p[1], Lower) && InClass(p[0], Upper) && InClass(p[6], Digit) && InClass(p[7], Special);
    assert MeetsComplexity(p);
    AcceptedIffLongAndComplex(p);
  }
}
