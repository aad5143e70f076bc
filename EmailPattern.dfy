/**
 The checkout page's e-mail pattern `^[^\s@]+@[^\s@]+\.[^\s@]+$`, applied to the raw
 (untrimmed) field value. `MatchesPattern` reads the pattern literally as three
 non-empty runs of the class `[^\s@]` joined by `@` and `.`; `IsEmailShaped` is a
 decidable description of the same language, and `ShapedIffMatches` proves the two agree.
 */
module EmailPattern {
  import opened Wrappers
  import opened JsString

  /** A character of the class `[^\s@]`. */
  predicate IsPlainChar(c: char) {
    !IsWhiteSpace(c) && c != '@'
  }

  predicate AllPlain(s: string) {
    forall i | 0 <= i < |s| :: IsPlainChar(s[i])
  }

  /** `s` splits as `local @ domain . tld` with its `@` at `at` and that `.` at `dot`,
      each of the three runs non-empty and made of `[^\s@]`. */
  ghost predicate SplitsAt(s: string, at: int, dot: int) {
    && 0 < at && at + 1 < dot && dot + 1 < |s|
    && s[at] == '@' && s[dot] == '.'
    && AllPlain(s[..at]) && AllPlain(s[at + 1..dot]) && AllPlain(s[dot + 1..])
  }

  /** The anchored regular expression, read literally. */
  ghost predicate MatchesPattern(s: string) {
    exists at, dot :: SplitsAt(s, at, dot)
  }

  /** The position of the first `c` in `s`, if any. */
  function IndexOf(s: string, c: char): (r: Option<nat>)
    ensures r.None? <==> c !in s
    ensures r.Some? ==> r.value < |s| && s[r.value] == c && c !in s[..r.value]
  {
    if s == [] then None
    else if s[0] == c then Some(0)
    else
      match IndexOf(s[1..], c)
      case None => None
      case Some(i) =>
        assert s[..i + 1] == [s[0]] + s[1..][..i];
        Some(i + 1)
  }

  /** `d` holds a `.` with at least one character before it and one after it. */
  predicate HasInnerDot(d: string) {
    exists k | 0 < k < |d| - 1 :: d[k] == '.'
  }

  /**
   The accepted shape, stated without a regular expression: split at the first `@`,
   the local part is non-empty, neither part holds white space or a further `@`
   (so there is exactly one `@` and no white space at all), and the domain has
   an inner `.`.
   */
  predicate IsEmailShaped(s: string) {
    match IndexOf(s, '@')
    case None => false
    case Some(at) =>
      at > 0 && AllPlain(s[..at]) && AllPlain(s[at + 1..]) && HasInnerDot(s[at + 1..])
  }

  lemma AllPlainSlice(s: string, i: int, j: int)
    requires AllPlain(s) && 0 <= i <= j <= |s|
    ensures AllPlain(s[i..j])
  {
    assert forall k | 0 <= k < j - i :: s[i..j][k] == s[i + k];
  }

  lemma ShapedImpliesMatches(s: string)
    requires IsEmailShaped(s)
    ensures MatchesPattern(s)
  {
    var at := IndexOf(s, '@').value;
    var d := s[at + 1..];
    var k :| 0 < k < |d| - 1 && d[k] == '.';
    var dot := at + 1 + k;
    assert d[..k] == s[at + 1..dot];
    assert d[k + 1..] == s[dot + 1..];
    AllPlainSlice(d, 0, k);
    AllPlainSlice(d, k + 1, |d|);
    assert SplitsAt(s, at, dot);
  }

  lemma SplitImpliesShaped(s: string, at: int, dot: int)
    requires SplitsAt(s, at, dot)
    ensures IsEmailShaped(s)
  {
    assert '@' !in s[..at] by {
      assert forall i | 0 <= i < at :: s[..at][i] != '@';
    }
    var found := IndexOf(s, '@');
    assert found.value == at;
    var d := s[at + 1..];
    forall i | 0 <= i < |d| ensures IsPlainChar(d[i]) {
      if i < dot - at - 1 {
        assert d[i] == s[at + 1..dot][i];
      } else if i > dot - at - 1 {
        assert d[i] == s[dot + 1..][i - (dot - at)];
      }
    }
    assert d[dot - at - 1] == '.';
  }

  /** The decidable shape accepts exactly the strings the pattern matches. */
  lemma ShapedIffMatches(s: string)
    ensures IsEmailShaped(s) <==> MatchesPattern(s)
  {
    if IsEmailShaped(s) {
      ShapedImpliesMatches(s);
    }
    if MatchesPattern(s) {
      var at, dot :| SplitsAt(s, at, dot);
      SplitImpliesShaped(s, at, dot);
    }
  }

  lemma NoAtInPlain(s: string)
    requires AllPlain(s)
    ensures multiset(s)['@'] == 0
  {
    assert forall i | 0 <= i < |s| :: s[i] != '@';
  }

  /** A shaped address has no white space anywhere and exactly one `@`. */
  lemma ShapedHasOneAtAndNoSpace(s: string)
    requires IsEmailShaped(s)
    ensures forall i | 0 <= i < |s| :: !IsWhiteSpace(s[i])
    ensures multiset(s)['@'] == 1
  {
    var at := IndexOf(s, '@').value;
    assert s == s[..at] + [s[at]] + s[at + 1..];
    assert multiset(s) == multiset(s[..at]) + multiset{'@'} + multiset(s[at + 1..]);
    NoAtInPlain(s[..at]);
    NoAtInPlain(s[at + 1..]);
    forall i | 0 <= i < |s| ensures !IsWhiteSpace(s[i]) {
      if i < at {
        assert s[i] == s[..at][i];
      } else if i > at {
        assert s[i] == s[at + 1..][i - at - 1];
      }
    }
  }

  /** The converse of `ShapedHasOneAtAndNoSpace`: no white space anywhere, exactly one
      `@`, a non-empty local part before it and an inner `.` after it are enough. */
  lemma ConditionsImplyShaped(s: string, at: int)
    requires forall i | 0 <= i < |s| :: !IsWhiteSpace(s[i])
    requires 0 < at < |s| && s[at] == '@'
    requires multiset(s)['@'] == 1
    requires HasInnerDot(s[at + 1..])
    ensures IsEmailShaped(s)
  {
    assert s == s[..at] + [s[at]] + s[at + 1..];
    assert multiset(s) == multiset(s[..at]) + multiset{'@'} + multiset(s[at + 1..]);
    assert '@' !in s[..at] && '@' !in s[at + 1..];
    assert AllPlain(s[..at]) by {
      assert forall k | 0 <= k < at :: s[..at][k] == s[k];
    }
    var domain := s[at + 1..];
    assert AllPlain(domain) by {
      assert forall k | 0 <= k < |domain| :: domain[k] == s[at + 1 + k];
    }
  }

  /** Any three non-empty `[^\s@]` runs joined by `@` and `.` have the accepted shape. */
  lemma ShapedFromParts(local: string, domain: string, tld: string)
    requires local != [] && domain != [] && tld != []
    requires AllPlain(local) && AllPlain(domain) && AllPlain(tld)
    ensures IsEmailShaped(local + "@" + domain + "." + tld)
  {
    var s := local + "@" + domain + "." + tld;
    var at := |local|;
    var dot := |local| + 1 + |domain|;
    assert s[..at] == local;
    assert s[at + 1..dot] == domain;
    assert s[dot + 1..] == tld;
    assert SplitsAt(s, at, dot);
    ShapedIffMatches(s);
  }

  /** The pattern accepts `a@b.co`. */
  lemma AcceptedExample()
    ensures IsEmailShaped("a@b.co")
  {
    var s := "a@b.co";
    assert SplitsAt(s, 1, 3) by {
      assert s[..1] == "a" && s[2..3] == "b" && s[4..] == "co";
    }
    SplitImpliesShaped(s, 1, 3);
  }

  /** The domain may hold several dots: `a@b.c.d` is accepted. */
  lemma AcceptedSeveralDots()
    ensures IsEmailShaped("a@b.c.d")
  {
    var s := "a@b.c.d";
    assert SplitsAt(s, 1, 5) by {
      assert s[..1] == "a" && s[2..5] == "b.c" && s[6..] == "d";
    }
    SplitImpliesShaped(s, 1, 5);
  }

  /** The pattern refuses `not-an-email` (no `@`) and ` a@b.co` (the pattern sees the
      untrimmed value, whose leading space is not in `[^\s@]`). */
  lemma RefusedExamples()
    ensures !IsEmailShaped("not-an-email")
    ensures !IsEmailShaped(" a@b.co")
  {
    assert '@' !in "not-an-email";
    var s := " a@b.co";
    assert IndexOf(s, '@') == Some(2) by {
      assert s[..2] == " a";
    }
    assert !IsPlainChar(s[..2][0]);
  }

  /** A dot right after the `@` or at the very end is not an inner dot. */
  lemma RefusedDotExamples()
    ensures !IsEmailShaped("a@.co")
    ensures !IsEmailShaped("a@b.")
  {
    assert IndexOf("a@.co", '@') == Some(1);
    assert "a@.co"[2..] == ".co";
    assert IndexOf("a@b.", '@') == Some(1);
    assert "a@b."[2..] == "b.";
  }
}
