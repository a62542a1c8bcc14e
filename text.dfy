/** Character classes, decimal numerals, `str.split` on one separator, the
    `'{:.2f}'` format and Python's `float()` on the decimal strings the label
    grammar lets through. */
module Text {
  import opened Wrappers

  predicate IsDigit(c: char) { '0' <= c <= '9' }

  predicate IsLower(c: char) { 'a' <= c <= 'z' }

  /** The decimal separators accepted by the label grammar: `[\.,]`. */
  predicate IsSeparator(c: char) { c == '.' || c == ',' }

  predicate AllDigits(s: string) { forall i :: 0 <= i < |s| ==> IsDigit(s[i]) }

  predicate NoChar(s: string, c: char) { forall i :: 0 <= i < |s| ==> s[i] != c }

  function DigitChar(d: nat): (c: char)
    requires d < 10
    ensures IsDigit(c) && DigitValue(c) == d
  {
    (('0' as int) + d) as char
  }

  function DigitValue(c: char): nat
    requires IsDigit(c)
  {
    (c as int) - ('0' as int)
  }

  /** `'{}'.format(n)` for a non-negative integer. */
  function NatToString(n: nat): (s: string)
    ensures |s| > 0 && AllDigits(s)
    ensures DigitsValue(s) == n
  {
    if n < 10 then [DigitChar(n)] else NatToString(n / 10) + [DigitChar(n % 10)]
  }

  /** `int(s)` for a string of decimal digits (leading zeros allowed). */
  function DigitsValue(s: string): nat
    requires AllDigits(s)
  {
    if s == [] then 0 else DigitsValue(s[..|s| - 1]) * 10 + DigitValue(s[|s| - 1])
  }

  lemma {:induction false} NatToStringInjective(m: nat, n: nat)
    requires NatToString(m) == NatToString(n)
    ensures m == n
  {
    assert DigitsValue(NatToString(m)) == m;
  }

  function Pow10(k: nat): (p: nat)
    ensures p > 0
  {
    if k == 0 then 1 else 10 * Pow10(k - 1)
  }

  // ---------------------------------------------------------------------------
  // Searching

  /** The first index at or after `from` holding `c`. */
  function FindFrom(s: string, c: char, from: nat): (r: Option<nat>)
    requires from <= |s|
    ensures r.Some? ==> from <= r.value < |s| && s[r.value] == c
                        && forall k :: from <= k < r.value ==> s[k] != c
    ensures r.None? ==> forall k :: from <= k < |s| ==> s[k] != c
    decreases |s| - from
  {
    if from == |s| then None
    else if s[from] == c then Some(from)
    else FindFrom(s, c, from + 1)
  }

  /** The first `c` at or after `from` is at `i`. */
  lemma FindFromAt(s: string, c: char, from: nat, i: nat)
    requires from <= i < |s| && s[i] == c
    requires forall k :: from <= k < i ==> s[k] != c
    ensures FindFrom(s, c, from) == Some(i)
  {
  }

  /** Python's `sub in s`. */
  predicate Contains(s: string, sub: string)
    decreases |s|
  {
    (|sub| <= |s| && s[..|sub|] == sub) || (|s| > 0 && Contains(s[1..], sub))
  }

  /** The character classes of the regular expressions of the label grammar. */
  datatype CharClass = Lower | Digit | Separator | ModeChar

  predicate InClass(c: char, k: CharClass) {
    match k
    case Lower => IsLower(c)
    case Digit => IsDigit(c)
    case Separator => IsSeparator(c)
    case ModeChar => IsLower(c) || c == '-'
  }

  /** End of the longest run of class `k` starting at `from`: what a greedy
      `[k]*` consumes. */
  function SpanEnd(s: string, from: nat, k: CharClass): (e: nat)
    requires from <= |s|
    ensures from <= e <= |s|
    ensures forall i :: from <= i < e ==> InClass(s[i], k)
    ensures e < |s| ==> !InClass(s[e], k)
    decreases |s| - from
  {
    if from < |s| && InClass(s[from], k) then SpanEnd(s, from + 1, k) else from
  }

  lemma {:induction false} SpanEndOfRun(s: string, from: nat, e: nat, k: CharClass)
    requires from <= e <= |s|
    requires forall i :: from <= i < e ==> InClass(s[i], k)
    requires e < |s| ==> !InClass(s[e], k)
    ensures SpanEnd(s, from, k) == e
    decreases e - from
  {
    if from < e {
      SpanEndOfRun(s, from + 1, e, k);
    }
  }

  // ---------------------------------------------------------------------------
  // str.split on a single separator character

  /** `s.split(sep)`: never empty; the pieces hold no separator. */
  function Split(s: string, sep: char): (r: seq<string>)
    ensures |r| > 0
    decreases |s|
  {
    match FindFrom(s, sep, 0)
    case None => [s]
    case Some(i) => [s[..i]] + Split(s[i + 1..], sep)
  }

  lemma SplitNoSeparator(s: string, sep: char)
    requires NoChar(s, sep)
    ensures Split(s, sep) == [s]
  {
  }

  lemma SplitCons(p: string, sep: char, rest: string)
    requires NoChar(p, sep)
    ensures Split(p + [sep] + rest, sep) == [p] + Split(rest, sep)
  {
    var s := p + [sep] + rest;
    var f := FindFrom(s, sep, 0);
    assert f == Some(|p|) by {
      assert s[|p|] == sep;
      if f.None? {
        assert false;
      } else {
        assert forall k :: 0 <= k < |p| ==> s[k] == p[k];
      }
    }
    assert s[..|p|] == p;
    assert s[|p| + 1..] == rest;
  }

  // ---------------------------------------------------------------------------
  // '{:.2f}' and float()

  /** Round half to even, the rule of Python's float formatting and of
      `np.round` (applied here to the exact value). */
  function RoundHalfEven(v: real): (n: int)
    ensures NearestEven(v, n)
  {
    var f := v.Floor;
    var frac := v - f as real;
    if frac < 1.0 / 2.0 then f
    else if frac > 1.0 / 2.0 then f + 1
    else if f % 2 == 0 then f else f + 1
  }

  /** `n` is an integer nearest to `v`, and the even one on a tie. */
  predicate NearestEven(v: real, n: int) {
    || v - 1.0 / 2.0 < n as real < v + 1.0 / 2.0
    || ((n as real == v - 1.0 / 2.0 || n as real == v + 1.0 / 2.0) && n % 2 == 0)
  }

  /** Only one integer is nearest-or-even, so the rounding is that integer. */
  lemma NearestEvenUnique(v: real, n: int)
    requires NearestEven(v, n)
    ensures n == RoundHalfEven(v)
  {
  }

  /** A value that two decimals represent exactly. */
  predicate IsHundredths(v: real) { (v * 100.0).Floor as real == v * 100.0 }

  /** `'{:.2f}'.format(v)` */
  function Fixed2(v: real): string {
    if v < 0.0 then "-" + Fixed2NonNeg(-v) else Fixed2NonNeg(v)
  }

  function Fixed2NonNeg(v: real): string
    requires v >= 0.0
  {
    var h := RoundHalfEven(v * 100.0);
    var h' := if h < 0 then 0 else h;
    NatToString(h' / 100) + "." + [DigitChar(h' % 100 / 10), DigitChar(h' % 10)]
  }

  /** `float(s.replace(',', '.'))` for `s` of the shape `\d*[\.,]*\d*`:
      `None` is the ValueError raised for no digit or for more than one
      separator. */
  function ParseDecimal(s: string): (r: Option<real>)
  {
    var a := SpanEnd(s, 0, Digit);
    var b := SpanEnd(s, a, Separator);
    var c := SpanEnd(s, b, Digit);
    if c != |s| || b - a > 1 || (a == 0 && c == b) then None
    else
      Some(DigitsValue(s[..a]) as real
           + DigitsValue(s[b..c]) as real / Pow10(c - b) as real)
  }

  lemma {:induction false} ParseFixed2(v: real)
    requires v >= 0.0 && IsHundredths(v)
    ensures ParseDecimal(Fixed2(v)) == Some(v)
  {
    var p, q := Fixed2Parts(v);
    assert Pow10(|q|) == 100 by {
      assert Pow10(1) == 10 * Pow10(0);
    }
    ParseOneSeparator(p, '.', q);
  }

  lemma Fixed2Shape(v: real) returns (h: nat)
    requires v >= 0.0 && IsHundredths(v)
    ensures h as real == v * 100.0
    ensures Fixed2(v) == NatToString(h / 100) + "." + [DigitChar(h % 100 / 10), DigitChar(h % 10)]
  {
    var f := (v * 100.0).Floor;
    assert f as real == v * 100.0;
    assert RoundHalfEven(v * 100.0) == f;
    h := f;
  }

  /** For a non-negative value of two decimals, '{:.2f}' is an integer part
      and two decimals around a '.', whose values make up the value. */
  lemma Fixed2Parts(v: real) returns (p: string, q: string)
    requires v >= 0.0 && IsHundredths(v)
    ensures Fixed2(v) == p + "." + q
    ensures |p| > 0 && AllDigits(p) && |q| == 2 && AllDigits(q)
    ensures DigitsValue(p) as real + DigitsValue(q) as real / 100.0 == v
  {
    var h := Fixed2Shape(v);
    p := NatToString(h / 100);
    q := [DigitChar(h % 100 / 10), DigitChar(h % 10)];
    LastDigit(h);
    TwoDigits(h % 100);
    HundredthsSum(h / 100, h % 100, h, v);
  }

  lemma LastDigit(h: nat)
    ensures h % 100 % 10 == h % 10
  {
    var a, b := h / 100, h % 100;
    var c, d := b / 10, b % 10;
    assert h == 10 * (10 * a + c) + d;
  }

  lemma TwoDigits(m: nat)
    requires m < 100
    ensures DigitsValue([DigitChar(m / 10), DigitChar(m % 10)]) == m
  {
    var d1, d2 := DigitChar(m / 10), DigitChar(m % 10);
    assert [d1, d2][..1] == [d1];
    assert [d1][..0] == [];
    assert DigitsValue([d1]) == m / 10;
  }

  lemma HundredthsSum(q: nat, r: nat, h: nat, v: real)
    requires h == 100 * q + r
    requires h as real == v * 100.0
    ensures q as real + r as real / 100.0 == v
  {
    assert h as real == 100.0 * q as real + r as real;
  }

  lemma {:induction false} ParseDecimalCommaDot(p: string, q: string)
    requires AllDigits(p) && AllDigits(q)
    ensures ParseDecimal(p + "," + q) == ParseDecimal(p + "." + q)
  {
    ParseOneSeparator(p, ',', q);
    ParseOneSeparator(p, '.', q);
  }

  lemma {:induction false} ParseOneSeparator(p: string, sep: char, q: string)
    requires AllDigits(p) && AllDigits(q) && IsSeparator(sep)
    ensures ParseDecimal(p + [sep] + q) ==
            if p == [] && q == [] then None
            else Some(DigitsValue(p) as real + DigitsValue(q) as real / Pow10(|q|) as real)
  {
    var s := p + [sep] + q;
    SeparatorSpans(p, sep, q);
    assert s[..|p|] == p;
    assert s[|p| + 1..|s|] == q;
  }

  /** The three runs `ParseDecimal` scans in `p + [sep] + q`. */
  lemma SeparatorSpans(p: string, sep: char, q: string)
    requires AllDigits(p) && AllDigits(q) && IsSeparator(sep)
    ensures var s := p + [sep] + q;
            SpanEnd(s, 0, Digit) == |p| && SpanEnd(s, |p|, Separator) == |p| + 1
            && SpanEnd(s, |p| + 1, Digit) == |s|
  {
    var s := p + [sep] + q;
    assert forall i :: 0 <= i < |p| ==> s[i] == p[i];
    assert forall i :: |p| + 1 <= i < |s| ==> s[i] == q[i - |p| - 1];
    SpanEndOfRun(s, 0, |p|, Digit);
    SpanEndOfRun(s, |p|, |p| + 1, Separator);
    SpanEndOfRun(s, |p| + 1, |s|, Digit);
  }
}
