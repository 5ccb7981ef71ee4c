/**
 * The JavaScript string and number built-ins the funnel relies on, written out:
 * `String.prototype.trim`, `replace(/[^\d]/g, '')`, `parseInt(_, 10)` on a digit
 * string, the decimal rendering of a non-negative integer in a template literal,
 * `split('.').pop()` and `startsWith`.
 */
module JsText {

  /** ECMAScript WhiteSpace and LineTerminator code points: what `trim` removes. */
  predicate IsWhitespace(c: char) {
    c == '\t' || c == '\n' || c == '\U{000B}' || c == '\U{000C}' || c == '\r' || c == ' '
    || c == '\U{00A0}' || c == '\U{1680}' || ('\U{2000}' <= c <= '\U{200A}')
    || c == '\U{2028}' || c == '\U{2029}' || c == '\U{202F}' || c == '\U{205F}'
    || c == '\U{3000}' || c == '\U{FEFF}'
  }

  predicate AllWhitespace(s: string) {
    forall i :: 0 <= i < |s| ==> IsWhitespace(s[i])
  }

  /** The length of the run of whitespace that `s` starts with. */
  function LeadingWhitespace(s: string): (k: nat)
    ensures k <= |s|
    ensures forall i :: 0 <= i < k ==> IsWhitespace(s[i])
    ensures k < |s| ==> !IsWhitespace(s[k])
  {
    if |s| > 0 && IsWhitespace(s[0]) then
      var k := 1 + LeadingWhitespace(s[1..]);
      assert forall i :: 1 <= i < k ==> s[i] == s[1..][i - 1];
      k
    else
      0
  }

  /** Where the run of whitespace that `s` ends with begins. */
  function TrailingWhitespace(s: string): (e: nat)
    ensures e <= |s|
    ensures forall i :: e <= i < |s| ==> IsWhitespace(s[i])
    ensures e > 0 ==> !IsWhitespace(s[e - 1])
  {
    if |s| > 0 && IsWhitespace(s[|s| - 1]) then
      var e := TrailingWhitespace(s[..|s| - 1]);
      assert forall i :: e <= i < |s| - 1 ==> s[i] == s[..|s| - 1][i];
      e
    else
      |s|
  }

  /**
   * `String.prototype.trim`: the part of `s` between the whitespace it starts
   * with and the whitespace it ends with.
   */
  function Trim(s: string): (r: string)
    ensures var k := LeadingWhitespace(s);
      k + |r| <= |s| && r == s[k..k + |r|]
      && forall i :: 0 <= i < |s| && (i < k || k + |r| <= i) ==> IsWhitespace(s[i])
    ensures r == [] <==> AllWhitespace(s)
    ensures r != [] ==> !IsWhitespace(r[0]) && !IsWhitespace(r[|r| - 1])
  {
    var k := LeadingWhitespace(s);
    if k == |s| then
      []
    else
      var e := TrailingWhitespace(s);
      assert k < e by {
        assert !IsWhitespace(s[k]);
      }
      s[k..e]
  }

  /** Trimming a text that neither starts nor ends with whitespace leaves it as it is. */
  lemma TrimKeepsPlainText(s: string)
    requires s != [] && !IsWhitespace(s[0]) && !IsWhitespace(s[|s| - 1])
    ensures Trim(s) == s
  {
  }

  /**
   * `s.trim() === ''`: a name "counts" in the form when it is not blank.
   * Stated directly as "all whitespace"; `BlankIffTrimmedEmpty` ties it to `Trim`.
   */
  predicate IsBlank(s: string) {
    AllWhitespace(s)
  }

  /** A name is blank exactly when trimming leaves nothing. */
  lemma BlankIffTrimmedEmpty(s: string)
    ensures IsBlank(s) <==> Trim(s) == []
  {
  }

  predicate IsDigit(c: char) {
    '0' <= c <= '9'
  }

  predicate AllDigits(s: string) {
    forall i :: 0 <= i < |s| ==> IsDigit(s[i])
  }

  /**
   * `s.replace(/[^\d]/g, '')`: `\d` is exactly the ASCII digits, so this
   * keeps the ASCII digits of `s`, in order.
   */
  function AsciiDigits(s: string): (r: string)
    ensures AllDigits(r)
    ensures |r| <= |s|
    ensures AllDigits(s) ==> r == s
    ensures r == [] <==> forall i :: 0 <= i < |s| ==> !IsDigit(s[i])
  {
    if s == [] then []
    else
      var rest := AsciiDigits(s[1..]);
      assert forall i :: 1 <= i < |s| ==> s[i] == s[1..][i - 1];
      if IsDigit(s[0]) then [s[0]] + rest else rest
  }

  /** The filter keeps the digits in the order they appear: it distributes over concatenation. */
  lemma {:induction false} AsciiDigitsConcat(a: string, b: string)
    ensures AsciiDigits(a + b) == AsciiDigits(a) + AsciiDigits(b)
  {
    if a != [] {
      assert (a + b)[0] == a[0];
      assert (a + b)[1..] == a[1..] + b;
      AsciiDigitsConcat(a[1..], b);
    } else {
      assert a + b == b;
    }
  }

  function DigitValue(c: char): (d: nat)
    requires IsDigit(c)
    ensures d < 10
  {
    (c - '0') as nat
  }

  function DigitChar(d: nat): (c: char)
    requires d < 10
    ensures IsDigit(c) && DigitValue(c) == d
  {
    ('0' as int + d) as char
  }

  /** The base-10 value of a string of ASCII digits (the value `parseInt(ds, 10)` computes for non-empty `ds`). */
  function DecimalValue(ds: string): nat
    requires AllDigits(ds)
  {
    if ds == [] then 0
    else 10 * DecimalValue(ds[..|ds| - 1]) + DigitValue(ds[|ds| - 1])
  }

  /** A JavaScript number as far as `parseInt` results go: NaN, or an integer. */
  datatype JsNumber = NaN | Int(n: int)

  /** `parseInt(ds, 10)` for a string `ds` of ASCII digits: NaN exactly when `ds` is empty. */
  function ParseDigits(ds: string): (r: JsNumber)
    requires AllDigits(ds)
    ensures r.NaN? <==> ds == []
  {
    if ds == [] then NaN else Int(DecimalValue(ds))
  }

  /** The decimal text of `n`, as a template literal renders a non-negative integer. */
  function NatToDecimal(n: nat): (r: string)
    ensures |r| > 0 && AllDigits(r)
    ensures r[0] == '0' ==> n == 0
  {
    if n < 10 then [DigitChar(n)] else NatToDecimal(n / 10) + [DigitChar(n % 10)]
  }

  /** Reading the rendered decimal back gives the number. */
  lemma {:induction false} DecimalRoundTrip(n: nat)
    ensures DecimalValue(NatToDecimal(n)) == n
  {
    if n >= 10 {
      var p := NatToDecimal(n / 10);
      var r := p + [DigitChar(n % 10)];
      assert r[..|r| - 1] == p;
      DecimalRoundTrip(n / 10);
    }
  }

  /** `parseInt` of a rendered number gives that number back. */
  lemma ParseRendered(n: nat)
    ensures ParseDigits(NatToDecimal(n)) == Int(n)
  {
    DecimalRoundTrip(n);
  }

  /** Distinct numbers render as distinct decimal texts. */
  lemma NatToDecimalInjective(a: nat, b: nat)
    requires NatToDecimal(a) == NatToDecimal(b)
    ensures a == b
  {
    DecimalRoundTrip(a);
    DecimalRoundTrip(b);
  }

  predicate StartsWith(s: string, prefix: string) {
    |prefix| <= |s| && s[..|prefix|] == prefix
  }

  /**
   * `s.split('.').pop()`: the text after the last '.', or the whole of `s`
   * when it has no '.'; that is, the longest suffix of `s` without a '.'.
   */
  function LastSegment(s: string): (r: string)
    ensures '.' !in r
    ensures |r| <= |s| && r == s[|s| - |r|..]
    ensures |r| < |s| ==> s[|s| - |r| - 1] == '.'
  {
    if s == [] || s[|s| - 1] == '.' then []
    else
      var r := LastSegment(s[..|s| - 1]);
      r + [s[|s| - 1]]
  }

  /** The segment after the last dot of `head + "." + tail` is `tail` when `tail` has no dot. */
  lemma {:induction false} LastSegmentAfterDot(head: string, tail: string)
    requires '.' !in tail
    ensures LastSegment(head + "." + tail) == tail
  {
    if tail != [] {
      var s := head + "." + tail;
      var t := tail[..|tail| - 1];
      assert s[..|s| - 1] == head + "." + t;
      assert '.' !in t by { assert forall i :: 0 <= i < |t| ==> t[i] == tail[i]; }
      LastSegmentAfterDot(head, t);
      assert tail == t + [tail[|tail| - 1]];
    }
  }

  /** A text without a dot is its own last segment. */
  lemma {:induction false} LastSegmentWithoutDot(s: string)
    requires '.' !in s
    ensures LastSegment(s) == s
  {
    if s != [] {
      var t := s[..|s| - 1];
      assert '.' !in t by { assert forall i :: 0 <= i < |t| ==> t[i] == s[i]; }
      LastSegmentWithoutDot(t);
      assert s == t + [s[|s| - 1]];
    }
  }

  /** The position of the first '.' of `s`, or `|s|` when there is none. */
  function FirstDot(s: string): (i: nat)
    ensures i <= |s|
  {
    if s == [] || s[0] == '.' then 0 else 1 + FirstDot(s[1..])
  }

  lemma {:induction false} FirstDotAfter(a: string, b: string)
    requires '.' !in a
    ensures FirstDot(a + "." + b) == |a|
  {
    if a != [] {
      assert (a + "." + b)[1..] == a[1..] + "." + b;
      assert '.' !in a[1..] by { assert forall i :: 0 <= i < |a[1..]| ==> a[1..][i] == a[i + 1]; }
      FirstDotAfter(a[1..], b);
    }
  }

  /** Splitting at the first dot is unambiguous when the part before the dot has none. */
  lemma FirstDotSplit(a: string, b: string, c: string, d: string)
    requires '.' !in a && '.' !in c
    requires a + "." + b == c + "." + d
    ensures a == c && b == d
  {
    var s := a + "." + b;
    FirstDotAfter(a, b);
    FirstDotAfter(c, d);
    assert a == s[..|a|] == c;
    assert b == s[|a| + 1..] == d;
  }
}
