/**
 The small part of JavaScript's string library that the checkout page relies on:
 the white-space set shared by `String.prototype.trim`, the regular-expression class
 `\s` and `parseInt`, the `trim()` operation, and decimal `parseInt`.
 */
module JsString {
  import opened Wrappers

  /** ECMAScript WhiteSpace and LineTerminator code points (Zs taken from Unicode 15).
      `trim`, `\s` and the leading-space skip of `parseInt` all use this one set. */
  predicate IsWhiteSpace(c: char) {
    if c < '\U{00A0}' then
      c == ' ' || ('\t' <= c <= '\r')  // TAB, LF, VT, FF, CR
    else
      || c == '\U{00A0}' || c == '\U{1680}' || ('\U{2000}' <= c <= '\U{200A}')
      || c == '\U{2028}' || c == '\U{2029}' || c == '\U{202F}' || c == '\U{205F}'
      || c == '\U{3000}' || c == '\U{FEFF}'
  }

  /** Every character of `s` is white space (also true of the empty string). */
  predicate IsBlank(s: string) {
    forall i | 0 <= i < |s| :: IsWhiteSpace(s[i])
  }

  /** `s` with its leading white space removed: a suffix of `s` that starts with a
      non-space character, and everything cut off is white space. */
  function TrimStart(s: string): (r: string)
    ensures |r| <= |s| && r == s[|s| - |r|..]
    ensures IsBlank(s[..|s| - |r|])
    ensures r == [] || !IsWhiteSpace(r[0])
    decreases |s|
  {
    if s != [] && IsWhiteSpace(s[0]) then TrimStart(s[1..]) else s
  }

  /** `s` with its trailing white space removed: a prefix of `s` that ends with a
      non-space character, and everything cut off is white space. */
  function TrimEnd(s: string): (r: string)
    ensures |r| <= |s| && r == s[..|r|]
    ensures IsBlank(s[|r|..])
    ensures r == [] || !IsWhiteSpace(r[|r| - 1])
    decreases |s|
  {
    if s != [] && IsWhiteSpace(s[|s| - 1]) then
      var r := TrimEnd(s[..|s| - 1]);
      assert s[|r|..] == s[..|s| - 1][|r|..] + [s[|s| - 1]];
      r
    else s
  }

  /** `String.prototype.trim`: white space removed from both ends. The result is a
      slice of `s`, everything cut off on either side is white space, and the
      result neither starts nor ends with white space. */
  function Trim(s: string): (r: string)
    ensures |r| <= |s|
    ensures exists i, j | 0 <= i <= j <= |s| :: r == s[i..j] && IsBlank(s[..i]) && IsBlank(s[j..])
    ensures r == [] || (!IsWhiteSpace(r[0]) && !IsWhiteSpace(r[|r| - 1]))
  {
    TrimBothIsSlice(s);
    TrimEnd(TrimStart(s))
  }

  /** Trimming the start and then the end cuts only white space from each side. */
  lemma TrimBothIsSlice(s: string)
    ensures var r := TrimEnd(TrimStart(s));
      exists i, j | 0 <= i <= j <= |s| :: r == s[i..j] && IsBlank(s[..i]) && IsBlank(s[j..])
  {
    BlankEndsSlice(s, TrimStart(s), TrimEnd(TrimStart(s)));
  }

  /** A blank-prefixed suffix `t` of `s`, then a blank-suffixed prefix `r` of `t`: `r` is a
      slice of `s` with blank ends. */
  lemma BlankEndsSlice(s: string, t: string, r: string)
    requires |t| <= |s| && t == s[|s| - |t|..] && IsBlank(s[..|s| - |t|])
    requires |r| <= |t| && r == t[..|r|] && IsBlank(t[|r|..])
    ensures exists i, j | 0 <= i <= j <= |s| :: r == s[i..j] && IsBlank(s[..i]) && IsBlank(s[j..])
  {
    var i := |s| - |t|;
    var j := i + |r|;
    assert r == s[i..j];
    assert IsBlank(s[j..]) by {
      forall k | 0 <= k < |s| - j ensures IsWhiteSpace(s[j..][k]) {
        assert s[j..][k] == t[|r| + k] == t[|r|..][k];
      }
    }
  }

  /** `s.trim() !== ''` holds exactly when `s` has a character that is not white space. */
  lemma TrimEmptyIffBlank(s: string)
    ensures Trim(s) == [] <==> IsBlank(s)
  {
    var t := TrimStart(s);
    var r := TrimEnd(t);
    assert r == Trim(s);
    if r == [] {
      assert t[|r|..] == t;
      assert t == [];
      assert s[..|s| - |t|] == s;
    } else {
      assert r[0] == t[0];
      assert t[0] == s[|s| - |t|];
    }
  }

  /** A string with a non-space character survives `trim()` non-empty. */
  lemma TrimNonEmptyAt(s: string, i: int)
    requires 0 <= i < |s| && !IsWhiteSpace(s[i])
    ensures Trim(s) != ""
  {
    TrimEmptyIffBlank(s);
  }

  /** Trimming is idempotent. */
  lemma TrimIdempotent(s: string)
    ensures Trim(Trim(s)) == Trim(s)
  {
    var r := Trim(s);
    assert r == [] || !IsWhiteSpace(r[0]);
    assert TrimStart(r) == r;
    assert r == [] || !IsWhiteSpace(r[|r| - 1]);
    assert TrimEnd(r) == r;
  }

  predicate IsDigit(c: char) {
    '0' <= c <= '9'
  }

  predicate AllDigits(s: string) {
    forall i | 0 <= i < |s| :: IsDigit(s[i])
  }

  /** The length of the longest prefix of `s` made of decimal digits. */
  function DigitPrefixLength(s: string): (n: nat)
    ensures n <= |s|
    ensures AllDigits(s[..n])
    ensures n < |s| ==> !IsDigit(s[n])
  {
    if s != [] && IsDigit(s[0]) then 1 + DigitPrefixLength(s[1..]) else 0
  }

  /** The number a string of decimal digits denotes, most significant digit first. */
  function DigitsValue(ds: string): nat
    requires AllDigits(ds)
  {
    if ds == [] then 0
    else 10 * DigitsValue(ds[..|ds| - 1]) + (ds[|ds| - 1] as int - '0' as int)
  }

  /** The value of the leading run of digits of `u`, `None` when `u` does not start
      with a digit. */
  function ParseDigits(u: string): Option<int> {
    var n := DigitPrefixLength(u);
    if n == 0 then None else Some(DigitsValue(u[..n]))
  }

  /** An optional sign followed by digits. */
  function ParseSigned(t: string): Option<int> {
    if t != [] && t[0] == '-' then
      match ParseDigits(t[1..])
      case None => None
      case Some(v) => Some(-v)
    else if t != [] && t[0] == '+' then ParseDigits(t[1..])
    else ParseDigits(t)
  }

  /**
   `parseInt(s)` with radix 10: skip leading white space, read an optional sign, then
   the longest run of decimal digits; `None` is `NaN` (no digit at all). A parsed
   `-0` is reported as `Some(0)`, which JavaScript's `||` treats the same way.
   */
  function ParseInt(s: string): Option<int> {
    ParseSigned(TrimStart(s))
  }

  /** The decimal digits of a natural number, without leading zeros. */
  function NatToDecimal(n: nat): (ds: string)
    ensures |ds| > 0 && AllDigits(ds)
  {
    if n < 10 then ['0' + n as char]
    else NatToDecimal(n / 10) + ['0' + (n % 10) as char]
  }

  /** The decimal rendering of an integer (`String(n)` for a safe integer). */
  function IntToDecimal(n: int): (s: string)
    ensures |s| > 0
  {
    if n < 0 then "-" + NatToDecimal(-n) else NatToDecimal(n)
  }

  lemma {:induction false} DigitsValueOfDecimal(n: nat)
    ensures DigitsValue(NatToDecimal(n)) == n
  {
    var ds := NatToDecimal(n);
    if n >= 10 {
      DigitsValueOfDecimal(n / 10);
      assert ds[..|ds| - 1] == NatToDecimal(n / 10);
    }
  }

  lemma {:induction false} DigitPrefixOfDigits(ds: string, rest: string)
    requires AllDigits(ds)
    requires rest == [] || !IsDigit(rest[0])
    ensures DigitPrefixLength(ds + rest) == |ds|
  {
    if ds != [] {
      assert (ds + rest)[1..] == ds[1..] + rest;
      DigitPrefixOfDigits(ds[1..], rest);
    }
  }

  lemma TrimStartKeeps(s: string)
    requires s != [] && !IsWhiteSpace(s[0])
    ensures TrimStart(s) == s
  {
  }

  lemma ParseDigitsThenRest(ds: string, rest: string)
    requires ds != [] && AllDigits(ds)
    requires rest == [] || !IsDigit(rest[0])
    ensures ParseDigits(ds + rest) == Some(DigitsValue(ds))
  {
    DigitPrefixOfDigits(ds, rest);
    assert (ds + rest)[..|ds|] == ds;
  }

  lemma ParseIntAtDigit(s: string, v: int)
    requires s != [] && IsDigit(s[0])
    requires ParseDigits(s) == Some(v)
    ensures ParseInt(s) == Some(v)
  {
    TrimStartKeeps(s);
  }

  lemma ParseIntAtMinus(s: string, v: int)
    requires s != [] && s[0] == '-'
    requires ParseDigits(s[1..]) == Some(v)
    ensures ParseInt(s) == Some(-v)
  {
    TrimStartKeeps(s);
  }

  lemma ParseDigitsOfDecimal(n: nat, rest: string)
    requires rest == [] || !IsDigit(rest[0])
    ensures ParseDigits(NatToDecimal(n) + rest) == Some(n)
  {
    ParseDigitsThenRest(NatToDecimal(n), rest);
    DigitsValueOfDecimal(n);
  }

  lemma ConsTail(c: char, a: string, b: string)
    ensures ([c] + a + b)[0] == c
    ensures ([c] + a + b)[1..] == a + b
  {
  }

  lemma ParseIntOfNegative(n: int, rest: string)
    requires n < 0
    requires rest == [] || !IsDigit(rest[0])
    ensures ParseInt(IntToDecimal(n) + rest) == Some(n)
  {
    var ds := NatToDecimal(-n);
    var s := ['-'] + ds + rest;
    assert IntToDecimal(n) + rest == s by {
      assert IntToDecimal(n) == ['-'] + ds;
    }
    assert ParseInt(s) == Some(n) by {
      ConsTail('-', ds, rest);
      ParseDigitsOfDecimal(-n, rest);
      ParseIntAtMinus(s, -n);
    }
  }

  lemma ParseIntOfNatural(n: int, rest: string)
    requires n >= 0
    requires rest == [] || !IsDigit(rest[0])
    ensures ParseInt(IntToDecimal(n) + rest) == Some(n)
  {
    var ds := NatToDecimal(n);
    assert IntToDecimal(n) == ds;
    assert ParseInt(ds + rest) == Some(n) by {
      assert (ds + rest)[0] == ds[0];
      ParseDigitsOfDecimal(n, rest);
      ParseIntAtDigit(ds + rest, n);
    }
  }

  /** `parseInt` reads back the decimal rendering of any integer, ignoring whatever
      follows it from the first non-digit on (so `parseInt("3.5")` is 3). */
  lemma ParseIntOfDecimal(n: int, rest: string)
    requires rest == [] || !IsDigit(rest[0])
    ensures ParseInt(IntToDecimal(n) + rest) == Some(n)
  {
    if n < 0 {
      ParseIntOfNegative(n, rest);
    } else {
      ParseIntOfNatural(n, rest);
    }
  }

  /** A string without any decimal digit parses to `NaN`. */
  lemma ParseIntWithoutDigits(s: string)
    requires forall i | 0 <= i < |s| :: !IsDigit(s[i])
    ensures ParseInt(s) == None
  {
    var t := TrimStart(s);
    assert t == s[|s| - |t|..];
    assert forall i | 0 <= i < |t| :: t[i] == s[|s| - |t| + i];
  }
}
