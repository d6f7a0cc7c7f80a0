/**
 * The email rule of the registration validator: the regular expression
 * `^[^\s@]+@[^\s@]+\.[^\s@]+$` (routes/auth.js), read as a predicate on split
 * points and as an executable check, with a proof that the two agree.
 */
module EmailRule {
  import opened Wrappers
  import opened CharClasses

  /** `[^\s@]`: neither whitespace nor an at sign. */
  predicate IsPlain(c: char) {
    !IsWhitespace(c) && c != '@'
  }

  /** `[^\s@]+` matches all of `t`. */
  ghost predicate PlainRun(t: string) {
    |t| > 0 && forall k | 0 <= k < |t| :: IsPlain(t[k])
  }

  /**
   * The regular expression matches `s`: there is an `@` at `at` and a `.` at
   * `dot` that cut `s` into three non-empty runs of plain characters.
   */
  ghost predicate MatchesEmailPattern(s: string) {
    exists at, dot | 0 <= at < dot < |s| ::
      && s[at] == '@' && s[dot] == '.'
      && PlainRun(s[..at]) && PlainRun(s[at + 1..dot]) && PlainRun(s[dot + 1..])
  }

  /** The index of the first occurrence of `c` in `s`, if any. */
  function FirstIndex(s: string, c: char): (r: Option<nat>)
    ensures r.None? <==> c !in s
    ensures r.Some? ==> r.value < |s| && s[r.value] == c && c !in s[..r.value]
  {
    if |s| == 0 then None
    else if s[0] == c then Some(0)
    else match FirstIndex(s[1..], c)
      case None => None
      case Some(i) =>
        assert s[1..][..i] == s[1..i + 1];
        Some(i + 1)
  }

  /** `d` has a `.` that is neither its first nor its last character. */
  predicate HasInnerDot(d: string) {
    exists j | 0 < j < |d| - 1 :: d[j] == '.'
  }

  /**
   * The executable email check: no whitespace, exactly one `@` with something
   * before it, and a domain after it with an inner dot.
   */
  predicate IsValidEmail(s: string) {
    && NoWhitespace(s)
    && match FirstIndex(s, '@')
       case None => false
       case Some(at) => at > 0 && '@' !in s[at + 1..] && HasInnerDot(s[at + 1..])
  }

  /** `PlainRun` of a slice, restated on the indices of the whole string. */
  lemma PlainRunSlice(s: string, lo: nat, hi: nat)
    requires lo <= hi <= |s|
    ensures PlainRun(s[lo..hi]) <==> lo < hi && forall k | lo <= k < hi :: IsPlain(s[k])
  {
    var t := s[lo..hi];
    if lo < hi && forall k | lo <= k < hi :: IsPlain(s[k]) {
      forall i | 0 <= i < |t| ensures IsPlain(t[i]) {
        assert t[i] == s[lo + i];
      }
    }
    if PlainRun(t) {
      forall k | lo <= k < hi ensures IsPlain(s[k]) {
        assert s[k] == t[k - lo];
      }
    }
  }

  /** Every string the executable check accepts matches the regular expression. */
  lemma ValidEmailMatchesPattern(s: string)
    requires IsValidEmail(s)
    ensures MatchesEmailPattern(s)
  {
    var at := FirstIndex(s, '@').value;
    var domain := s[at + 1..];
    var j :| 0 < j < |domain| - 1 && domain[j] == '.';
    var dot := at + 1 + j;
    assert s[dot] == domain[j];
    forall k | 0 <= k < |s| && k != at ensures IsPlain(s[k]) {
      if k < at {
        assert s[k] == s[..at][k];
      } else {
        assert s[k] == domain[k - at - 1];
      }
    }
    PlainRunSlice(s, 0, at);
    PlainRunSlice(s, at + 1, dot);
    PlainRunSlice(s, dot + 1, |s|);
  }

  /** Every string the regular expression matches passes the executable check. */
  lemma PatternMatchIsValidEmail(s: string)
    requires MatchesEmailPattern(s)
    ensures IsValidEmail(s)
  {
    var at, dot :| 0 <= at < dot < |s| && s[at] == '@' && s[dot] == '.'
      && PlainRun(s[..at]) && PlainRun(s[at + 1..dot]) && PlainRun(s[dot + 1..]);
    PlainRunSlice(s, 0, at);
    PlainRunSlice(s, at + 1, dot);
    PlainRunSlice(s, dot + 1, |s|);
    assert forall k | 0 <= k < |s| && k != at :: IsPlain(s[k]);
    assert NoWhitespace(s);
    assert FirstIndex(s, '@') == Some(at) by {
      assert forall k | 0 <= k < at :: s[..at][k] == s[k];
      assert '@' !in s[..at];
    }
    var domain := s[at + 1..];
    assert '@' !in domain by {
      assert forall k | 0 <= k < |domain| :: domain[k] == s[at + 1 + k];
    }
    assert domain[dot - at - 1] == '.';
  }

  /** The regular expression and the executable check accept the same strings. */
  lemma EmailCheckMatchesPattern(s: string)
    ensures IsValidEmail(s) <==> MatchesEmailPattern(s)
  {
    if IsValidEmail(s) {
      ValidEmailMatchesPattern(s);
    }
    if MatchesEmailPattern(s) {
      PatternMatchIsValidEmail(s);
    }
  }

  /** Two distinct positions holding `c` make it occur at least twice. */
  lemma TwoOccurrences(s: string, c: char, i: nat, j: nat)
    requires i < j < |s| && s[i] == c && s[j] == c
    ensures multiset(s)[c] >= 2
  {
    assert s == s[..i] + [s[i]] + s[i + 1..j] + [s[j]] + s[j + 1..];
    assert multiset(s) == multiset(s[..i]) + multiset{c} + multiset(s[i + 1..j])
      + multiset{c} + multiset(s[j + 1..]);
  }

  /** A character at `at` that occurs nowhere else occurs exactly once. */
  lemma SingleOccurrence(s: string, c: char, at: nat)
    requires at < |s| && s[at] == c && c !in s[..at] && c !in s[at + 1..]
    ensures multiset(s)[c] == 1
  {
    assert s == s[..at] + [s[at]] + s[at + 1..];
    assert multiset(s) == multiset(s[..at]) + multiset{c} + multiset(s[at + 1..]);
  }

  /**
   * An address is accepted exactly when it has no whitespace, exactly one `@`,
   * something before that `@`, and a domain after it whose `.` is neither its
   * first nor its last character.
   */
  lemma EmailAcceptanceCharacterized(s: string)
    ensures MatchesEmailPattern(s) <==>
      && NoWhitespace(s)
      && multiset(s)['@'] == 1
      && exists at | 0 < at < |s| :: s[at] == '@' && HasInnerDot(s[at + 1..])
  {
    EmailCheckMatchesPattern(s);
    if IsValidEmail(s) {
      var at := FirstIndex(s, '@').value;
      SingleOccurrence(s, '@', at);
      assert s[at] == '@' && HasInnerDot(s[at + 1..]);
    }
    if && NoWhitespace(s) && multiset(s)['@'] == 1
       && exists at | 0 < at < |s| :: s[at] == '@' && HasInnerDot(s[at + 1..])
    {
      var at :| 0 < at < |s| && s[at] == '@' && HasInnerDot(s[at + 1..]);
      var first := FirstIndex(s, '@').value;
      if first != at {
        TwoOccurrences(s, '@', first, at);
        assert false;
      }
      if '@' in s[at + 1..] {
        var k :| at < k < |s| && s[k] == '@';
        TwoOccurrences(s, '@', at, k);
        assert false;
      }
    }
  }
}

/** Concrete addresses the email regular expression accepts and refuses. */
module EmailExamples {
  import opened EmailRule

  lemma Accepted()
    ensures MatchesEmailPattern("a@b.c")
  {
    var s := "a@b.c";
    PlainRunSlice(s, 0, 1);
    PlainRunSlice(s, 2, 3);
    PlainRunSlice(s, 4, 5);
    assert s[1] == '@' && s[3] == '.';
  }

  lemma RefusedWithoutDot()
    ensures !MatchesEmailPattern("a@b")
  {
    EmailCheckMatchesPattern("a@b");
  }

  lemma RefusedWithTwoAts()
    ensures !MatchesEmailPattern("a@@b.c")
  {
    EmailAcceptanceCharacterized("a@@b.c");
    TwoOccurrences("a@@b.c", '@', 1, 2);
  }

  lemma RefusedWithSpace()
    ensures !MatchesEmailPattern("a @b.c")
  {
    EmailAcceptanceCharacterized("a @b.c");
    assert "a @b.c"[1] == ' ';
  }

  lemma RefusedWithoutLocalPart()
    ensures !MatchesEmailPattern("@b.c")
  {
    EmailCheckMatchesPattern("@b.c");
  }

  lemma RefusedWithDotFirst()
    ensures !MatchesEmailPattern("a@.c")
  {
    EmailCheckMatchesPattern("a@.c");
  }
}
