/**
 * The password rule of the registration validator: the regular expression
 * `^(?=.*[a-z])(?=.*[A-Z])(?=.*\d)(?=.*[@$!%*?&])[A-Za-z\d@$!%*?&]{8,}$`
 * (routes/auth.js), read literally and as a one-pass scan, with a proof that
 * the two agree.
 */
module PasswordRule {
  import opened CharClasses

  /** The minimum length that `{8,}` demands. */
  const MIN_PASSWORD_LENGTH: nat := 8

  /** The four character classes the lookaheads ask for. */
  datatype CharClass = Lower | Upper | Digit | Special

  predicate InClass(c: char, cls: CharClass) {
    match cls
    case Lower => IsLower(c)
    case Upper => IsUpper(c)
    case Digit => IsDigit(c)
    case Special => IsSpecial(c)
  }

  /** `[A-Za-z\d@$!%*?&]`: the only characters a password may contain. */
  predicate InAlphabet(c: char) {
    IsLower(c) || IsUpper(c) || IsDigit(c) || IsSpecial(c)
  }

  /**
   * The lookahead `(?=.*[x])` succeeds at the start of `s`: some character of
   * class `cls` is preceded only by characters that `.` matches.
   */
  ghost predicate LookaheadFinds(s: string, cls: CharClass) {
    exists i | 0 <= i < |s| :: InClass(s[i], cls) && NoLineTerminator(s[..i])
  }

  /** The regular expression matches the whole of `s`. */
  ghost predicate MatchesPasswordPattern(s: string) {
    && LookaheadFinds(s, Lower)
    && LookaheadFinds(s, Upper)
    && LookaheadFinds(s, Digit)
    && LookaheadFinds(s, Special)
    && |s| >= MIN_PASSWORD_LENGTH
    && forall k | 0 <= k < |s| :: InAlphabet(s[k])
  }

  /** Some character of `s` belongs to `cls`. */
  ghost predicate Contains(s: string, cls: CharClass) {
    exists i | 0 <= i < |s| :: InClass(s[i], cls)
  }

  /** What one pass over a password learns about it. */
  datatype Traits = Traits(
    hasLower: bool,
    hasUpper: bool,
    hasDigit: bool,
    hasSpecial: bool,
    alphabetOnly: bool)

  /** The traits of `s`, gathered from its last character backwards. */
  function Scan(s: string): (t: Traits)
    ensures t.hasLower <==> Contains(s, Lower)
    ensures t.hasUpper <==> Contains(s, Upper)
    ensures t.hasDigit <==> Contains(s, Digit)
    ensures t.hasSpecial <==> Contains(s, Special)
    ensures t.alphabetOnly <==> forall k | 0 <= k < |s| :: InAlphabet(s[k])
  {
    if |s| == 0 then Traits(false, false, false, false, true)
    else
      var init := s[..|s| - 1];
      var c := s[|s| - 1];
      var t := Scan(init);
      assert forall k | 0 <= k < |init| :: init[k] == s[k];
      Traits(
        t.hasLower || IsLower(c),
        t.hasUpper || IsUpper(c),
        t.hasDigit || IsDigit(c),
        t.hasSpecial || IsSpecial(c),
        t.alphabetOnly && InAlphabet(c))
  }

  /** The executable password check: long enough, one alphabet, all four classes present. */
  predicate IsStrongPassword(s: string) {
    var t := Scan(s);
    |s| >= MIN_PASSWORD_LENGTH && t.alphabetOnly && t.hasLower && t.hasUpper && t.hasDigit && t.hasSpecial
  }

  /** No alphabet character is a line terminator. */
  lemma AlphabetHasNoLineTerminator(s: string)
    requires forall k | 0 <= k < |s| :: InAlphabet(s[k])
    ensures NoLineTerminator(s)
  {
  }

  /** Over the password alphabet, a lookahead succeeds exactly when the class occurs. */
  lemma {:induction false} LookaheadIsContains(s: string, cls: CharClass)
    requires forall k | 0 <= k < |s| :: InAlphabet(s[k])
    ensures LookaheadFinds(s, cls) <==> Contains(s, cls)
  {
    if Contains(s, cls) {
      var i :| 0 <= i < |s| && InClass(s[i], cls);
      AlphabetHasNoLineTerminator(s[..i]);
    }
  }

  /** The regular expression and the executable check accept the same strings. */
  lemma {:induction false} PasswordCheckMatchesPattern(s: string)
    ensures IsStrongPassword(s) <==> MatchesPasswordPattern(s)
  {
    if forall k | 0 <= k < |s| :: InAlphabet(s[k]) {
      LookaheadIsContains(s, Lower);
      LookaheadIsContains(s, Upper);
      LookaheadIsContains(s, Digit);
      LookaheadIsContains(s, Special);
    }
  }

  /**
   * The rules the password message lists: at least eight characters, drawn
   * from `A-Za-z0-9@$!%*?&`, with a lower-case letter, an upper-case letter,
   * a digit and one of `@$!%*?&`.
   */
  ghost predicate ObeysPasswordRules(s: string) {
    && |s| >= MIN_PASSWORD_LENGTH
    && (forall k | 0 <= k < |s| :: InAlphabet(s[k]))
    && (exists i | 0 <= i < |s| :: IsLower(s[i]))
    && (exists i | 0 <= i < |s| :: IsUpper(s[i]))
    && (exists i | 0 <= i < |s| :: IsDigit(s[i]))
    && (exists i | 0 <= i < |s| :: IsSpecial(s[i]))
  }

  /**
   * A password is accepted exactly when it is at least eight characters long,
   * is drawn from `A-Za-z0-9@$!%*?&`, and holds a lower-case letter, an
   * upper-case letter, a digit and one of `@$!%*?&`.
   */
  lemma PasswordAcceptanceCharacterized(s: string)
    ensures MatchesPasswordPattern(s) <==> ObeysPasswordRules(s)
  {
    PasswordCheckMatchesPattern(s);
  }
}

/** Concrete passwords the password regular expression accepts and refuses. */
module PasswordExamples {
  import opened CharClasses
  import opened PasswordRule

  lemma Accepted()
    ensures MatchesPasswordPattern("Passw0rd!")
  {
    var s := "Passw0rd!";
    assert InClass(s[1], Lower) && NoLineTerminator(s[..1]);
    assert InClass(s[0], Upper) && NoLineTerminator(s[..0]);
    assert InClass(s[5], Digit) && NoLineTerminator(s[..5]);
    assert InClass(s[8], Special) && NoLineTerminator(s[..8]);
  }

  lemma RefusedTooShort()
    ensures !MatchesPasswordPattern("Pa0!abc")
  {
  }

  lemma RefusedWithoutUpper()
    ensures !MatchesPasswordPattern("password0!")
  {
    PasswordCheckMatchesPattern("password0!");
  }

  lemma RefusedOutsideAlphabet()
    ensures !MatchesPasswordPattern("Passw0rd!#")
  {
    assert !InAlphabet("Passw0rd!#"[9]);
  }
}
