/** Password strength (src/lib/password-validation.ts): five criteria, each a
    length bound or the presence of one character from a class, and a verdict
    that all five hold. A Dafny string holds Unicode scalar values, while
    JavaScript's `length` counts UTF-16 code units, so the length bound is
    stated over `Utf16Length`. The character classes are ASCII ranges, as the
    regular expressions (without the `u` flag) read them; the two halves of a
    surrogate pair lie outside every class, so testing the classes on scalar
    values gives the same answers as on code units. */
module PasswordValidation {

  /** `passwordCriteria.minLength`. */
  const MinLength: nat := 8

  /** The characters of `passwordCriteria.hasSpecialChar`'s bracket class. */
  const SpecialChars: string := "!@#$%^&*(),.?\":{}|<>"

  /** JavaScript's `s.length`: a character beyond the Basic Multilingual Plane
      is a surrogate pair and counts twice. */
  function Utf16Length(s: string): (n: nat)
    ensures |s| <= n <= 2 * |s|
  {
    if s == [] then 0
    else Utf16Length(s[..|s| - 1]) + (if s[|s| - 1] as int > 0xFFFF then 2 else 1)
  }

  /** For text within the Basic Multilingual Plane the two lengths agree. */
  lemma {:induction false} Utf16LengthOfBasicPlane(s: string)
    requires forall i :: 0 <= i < |s| ==> s[i] as int <= 0xFFFF
    ensures Utf16Length(s) == |s|
  {
    if s != [] {
      Utf16LengthOfBasicPlane(s[..|s| - 1]);
    }
  }

  predicate IsUpper(c: char) { 'A' <= c <= 'Z' }
  predicate IsLower(c: char) { 'a' <= c <= 'z' }
  /** `\d` without the `u` flag: the ASCII digits only. */
  predicate IsNumber(c: char) { '0' <= c <= '9' }
  predicate IsSpecial(c: char) { c in SpecialChars }

  /** `re.test(s)` for a one-character class `re`: scans the password until a
      member of the class is found. */
  function Contains(s: string, inClass: char -> bool): (found: bool)
    ensures found <==> exists i :: 0 <= i < |s| && inClass(s[i])
  {
    if s == [] then false
    else if inClass(s[0]) then true
    else
      var rest := Contains(s[1..], inClass);
      assert forall i :: 1 <= i < |s| ==> s[i] == s[1..][i - 1];
      rest
  }

  datatype Criteria = Criteria(
    minLength: bool, hasUpperCase: bool, hasLowerCase: bool, hasNumbers: bool, hasSpecialChar: bool)

  datatype PasswordStrength = PasswordStrength(isValid: bool, criteria: Criteria)

  /** `validatePassword`: every criterion means what its name says, and the
      password is valid exactly when all five hold. */
  function ValidatePassword(password: string): (r: PasswordStrength)
    ensures r.criteria.minLength <==> Utf16Length(password) >= MinLength
    ensures r.criteria.hasUpperCase <==> exists i :: 0 <= i < |password| && IsUpper(password[i])
    ensures r.criteria.hasLowerCase <==> exists i :: 0 <= i < |password| && IsLower(password[i])
    ensures r.criteria.hasNumbers <==> exists i :: 0 <= i < |password| && IsNumber(password[i])
    ensures r.criteria.hasSpecialChar <==> exists i :: 0 <= i < |password| && IsSpecial(password[i])
    ensures r.isValid <==> r.criteria.minLength && r.criteria.hasUpperCase && r.criteria.hasLowerCase &&
                           r.criteria.hasNumbers && r.criteria.hasSpecialChar
  {
    var c := Criteria(
      Utf16Length(password) >= MinLength,
      Contains(password, IsUpper),
      Contains(password, IsLower),
      Contains(password, IsNumber),
      Contains(password, IsSpecial));
    PasswordStrength(c.minLength && c.hasUpperCase && c.hasLowerCase && c.hasNumbers && c.hasSpecialChar, c)
  }

  /** The empty password fails every criterion. */
  lemma EmptyPasswordInvalid()
    ensures ValidatePassword("") == PasswordStrength(false, Criteria(false, false, false, false, false))
  {
  }

  /** A special character is neither a letter nor a digit. */
  lemma SpecialIsNotAlphanumeric(c: char)
    requires IsSpecial(c)
    ensures !IsUpper(c) && !IsLower(c) && !IsNumber(c)
  {
  }

  /** Positions i, j, k, l of the password hold, in that order, an upper-case
      letter, a lower-case letter, a digit and a special character, and no two
      of them coincide. */
  predicate FourKindsAt(password: string, i: int, j: int, k: int, l: int) {
    && 0 <= i < |password| && 0 <= j < |password| && 0 <= k < |password| && 0 <= l < |password|
    && IsUpper(password[i]) && IsLower(password[j]) && IsNumber(password[k]) && IsSpecial(password[l])
    && i != j && i != k && i != l && j != k && j != l && k != l
  }

  /** A valid password has four different positions, one per character class:
      the classes are disjoint, so no character serves two criteria. */
  lemma ValidNeedsFourKinds(password: string)
    requires ValidatePassword(password).isValid
    ensures exists i, j, k, l :: FourKindsAt(password, i, j, k, l)
  {
    var i :| 0 <= i < |password| && IsUpper(password[i]);
    var j :| 0 <= j < |password| && IsLower(password[j]);
    var k :| 0 <= k < |password| && IsNumber(password[k]);
    var l :| 0 <= l < |password| && IsSpecial(password[l]);
    SpecialIsNotAlphanumeric(password[l]);
    assert FourKindsAt(password, i, j, k, l);
  }

  /** A password meeting all five criteria. */
  lemma ValidExample()
    ensures ValidatePassword("Passw0rd!").isValid
  {
    var p := "Passw0rd!";
    assert IsUpper(p[0]) && IsLower(p[1]) && IsNumber(p[5]) && IsSpecial(p[8]);
    Utf16LengthOfBasicPlane(p);
  }

  /** Six characters, two of them emoji, are eight UTF-16 code units, so the
      length bound holds and the password is valid. */
  lemma AstralExample()
    ensures Utf16Length("Aa1!\U{1F600}\U{1F600}") == 8
    ensures ValidatePassword("Aa1!\U{1F600}\U{1F600}").isValid
  {
    var p := "Aa1!\U{1F600}\U{1F600}";
    assert p[..5][..4] == p[..4];
    assert p[..4] == "Aa1!";
    Utf16LengthOfBasicPlane("Aa1!");
    assert IsUpper(p[0]) && IsLower(p[1]) && IsNumber(p[2]) && IsSpecial(p[3]);
  }

  /** A password that is too short but meets the four other criteria. */
  lemma ShortExample()
    ensures ValidatePassword("Pa0!").criteria == Criteria(false, true, true, true, true)
    ensures !ValidatePassword("Pa0!").isValid
  {
    var q := "Pa0!";
    Utf16LengthOfBasicPlane(q);
    assert IsUpper(q[0]) && IsLower(q[1]) && IsNumber(q[2]) && IsSpecial(q[3]);
  }

  /** A long password without any upper-case letter is invalid. */
  lemma NoUpperCaseExample()
    ensures !ValidatePassword("password1!").criteria.hasUpperCase
    ensures !ValidatePassword("password1!").isValid
  {
    var s := "password1!";
    assert forall i | 0 <= i < |s| :: !IsUpper(s[i]);
    assert !ValidatePassword(s).criteria.hasUpperCase;
  }
}
