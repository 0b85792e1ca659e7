/** The `local@domain.tld` shape that both the client and the backend test with the
    regular expression /^[^\s@]+@[^\s@]+\.[^\s@]+$/ . */
module EmailShape {
  import opened JsString

  /** A character of the class `[^\s@]`. */
  predicate IsAtomChar(c: char) {
    !IsWhitespace(c) && c != '@'
  }

  /** A match of `[^\s@]+`. */
  predicate IsAtom(s: string) {
    |s| > 0 && forall i :: 0 <= i < |s| ==> IsAtomChar(s[i])
  }

  /** `t` reads as `a@b.c` with each of `a`, `b`, `c` a match of `[^\s@]+`. */
  predicate SplitsAs(t: string, a: string, b: string, c: string) {
    IsAtom(a) && IsAtom(b) && IsAtom(c) && t == a + "@" + b + "." + c
  }

  /** The language of the anchored regular expression, read off its syntax. */
  ghost predicate MatchesPattern(t: string) {
    exists a: string, b: string, c: string :: SplitsAs(t, a, b, c)
  }

  predicate NoWhitespace(t: string) {
    forall i :: 0 <= i < |t| ==> !IsWhitespace(t[i])
  }

  /** A '.' strictly inside `d`: neither its first nor its last character. */
  predicate HasInnerDot(d: string) {
    exists j :: 0 < j < |d| - 1 && d[j] == '.'
  }

  /** The regular-expression test decided on the string itself: no whitespace, exactly
      one '@', something before it, and a '.' strictly inside what follows it. */
  predicate HasEmailShape(t: string) {
    NoWhitespace(t) && multiset(t)['@'] == 1
    && var k := IndexOf(t, '@'); k > 0 && HasInnerDot(t[k + 1..])
  }

  /** The direct test accepts exactly the strings the regular expression matches. */
  lemma ShapeMatchesPattern(t: string)
    ensures HasEmailShape(t) <==> MatchesPattern(t)
  {
    if HasEmailShape(t) {
      ShapeGivesPattern(t);
    }
    if MatchesPattern(t) {
      var a, b, c :| SplitsAs(t, a, b, c);
      PatternGivesShape(t, a, b, c);
    }
  }

  /** Every string the direct test accepts splits as `a@b.c`. */
  lemma ShapeGivesPattern(t: string)
    requires HasEmailShape(t)
    ensures MatchesPattern(t)
  {
    var k := IndexOf(t, '@');
    var j :| 0 < j < |t[k + 1..]| - 1 && t[k + 1..][j] == '.';
    var m := k + 1 + j;
    assert t[m] == '.';
    OnlyOneAt(t, k);
    AtomSlice(t, 0, k);
    AtomSlice(t, k + 1, m);
    AtomSlice(t, m + 1, |t|);
    Rebuild(t, k, m);
    assert SplitsAs(t, t[0..k], t[k + 1..m], t[m + 1..|t|]);
  }

  /** A string with '@' at `k` and '.' at a later `m` is the pieces around them rejoined. */
  lemma Rebuild(t: string, k: int, m: int)
    requires 0 <= k < m < |t| && t[k] == '@' && t[m] == '.'
    ensures t == t[0..k] + "@" + t[k + 1..m] + "." + t[m + 1..|t|]
  {
    assert t == t[0..k] + [t[k]] + t[k + 1..m] + [t[m]] + t[m + 1..|t|];
  }

  /** Apart from the first '@', a string with exactly one '@' and no whitespace has only
      characters of the class `[^\s@]`. */
  lemma OnlyOneAt(t: string, k: int)
    requires NoWhitespace(t) && multiset(t)['@'] == 1
    requires 0 <= k < |t| && t[k] == '@' && '@' !in t[..k]
    ensures forall i :: 0 <= i < |t| && i != k ==> IsAtomChar(t[i])
  {
    assert t == t[..k] + [t[k]] + t[k + 1..];
    assert multiset(t) == multiset(t[..k]) + multiset{'@'} + multiset(t[k + 1..]);
    forall i | 0 <= i < |t| && i != k ensures IsAtomChar(t[i]) {
      if i < k {
        assert t[i] == t[..k][i];
      } else {
        assert t[i] == t[k + 1..][i - k - 1];
      }
    }
  }

  /** A slice made of characters of the class `[^\s@]` matches `[^\s@]+` when non-empty. */
  lemma AtomSlice(t: string, i: int, j: int)
    requires 0 <= i < j <= |t|
    requires forall n :: i <= n < j ==> IsAtomChar(t[n])
    ensures IsAtom(t[i..j])
  {
    forall n | 0 <= n < j - i ensures IsAtomChar(t[i..j][n]) {
      assert t[i..j][n] == t[i + n];
    }
  }

  /** Every string of the form `a@b.c` passes the direct test. */
  lemma PatternGivesShape(t: string, a: string, b: string, c: string)
    requires SplitsAs(t, a, b, c)
    ensures HasEmailShape(t)
  {
    var d := b + "." + c;
    DomainChars(b, c);
    assert t == a + "@" + d;
    forall i | 0 <= i < |t| ensures !IsWhitespace(t[i]) {
      if i < |a| {
        assert t[i] == a[i];
      } else if i > |a| {
        assert t[i] == d[i - |a| - 1];
      }
    }
    assert '@' !in a;
    assert multiset(t) == multiset(a) + multiset{'@'} + multiset(d) by {
      assert t == a + ['@'] + d;
    }
    assert t[..|a|] == a;
    IndexOfAt(t, '@', |a|);
    assert t[|a| + 1..] == d && d[|b|] == '.';
  }

  /** Every character of `b.c`, for atoms `b` and `c`, is of the class `[^\s@]`. */
  lemma DomainChars(b: string, c: string)
    requires IsAtom(b) && IsAtom(c)
    ensures forall i :: 0 <= i < |b + "." + c| ==> IsAtomChar((b + "." + c)[i])
    ensures '@' !in b + "." + c
  {
    var d := b + "." + c;
    forall i | 0 <= i < |d| ensures IsAtomChar(d[i]) {
      if i < |b| {
        assert d[i] == b[i];
      } else if i > |b| {
        assert d[i] == c[i - |b| - 1];
      } else {
        assert d[i] == '.';
      }
    }
  }

  /** A string of the form `a@b.c` splits at its '@' into `a` and `b.c`. */
  lemma PatternSplit(t: string, a: string, b: string, c: string)
    requires SplitsAs(t, a, b, c)
    ensures Split(t, '@') == [a, b + "." + c]
  {
    var d := b + "." + c;
    assert '@' !in a && '@' !in b && '@' !in c;
    assert '@' !in d by {
      forall i | 0 <= i < |d| ensures d[i] != '@' {
        if i < |b| { assert d[i] == b[i]; } else if i > |b| { assert d[i] == c[i - |b| - 1]; }
      }
    }
    assert t == Join([a, d], '@');
    SplitJoin([a, d], '@');
  }

  /** On a well-shaped string, `split('@')` yields two pieces, a non-empty local part and
      a domain with an inner '.', that rebuild the string around the one '@'. */
  lemma ShapeSplit(t: string)
    requires HasEmailShape(t)
    ensures |Split(t, '@')| == 2
    ensures Split(t, '@')[0] + "@" + Split(t, '@')[1] == t
    ensures Split(t, '@')[0] == t[..IndexOf(t, '@')] != ""
    ensures Split(t, '@')[1] == t[IndexOf(t, '@') + 1..]
    ensures HasInnerDot(Split(t, '@')[1])
  {
    JoinSplit(t, '@');
    var k := IndexOf(t, '@');
    assert Split(t[k + 1..], '@') == [t[k + 1..]];
  }
}
