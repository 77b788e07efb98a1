/** Character classes, decimal digit strings and JavaScript's String.prototype.trim,
    as the loan tracker uses them on titles, amounts and generated loan names. */
module Text {

  predicate IsDigit(c: char) {
    '0' <= c <= '9'
  }

  function DigitChar(d: nat): (c: char)
    requires d < 10
    ensures IsDigit(c) && DigitValue(c) == d
  {
    (('0' as int) + d) as char
  }

  function DigitValue(c: char): (d: nat)
    requires IsDigit(c)
    ensures d < 10
  {
    (c as int) - ('0' as int)
  }

  predicate AllDigits(s: string) {
    forall k :: 0 <= k < |s| ==> IsDigit(s[k])
  }

  /** The characters JavaScript's `trim` removes: the WhiteSpace and
      LineTerminator code points of ECMAScript. */
  predicate IsWhitespace(c: char) {
    || c == '\t' || c == '\n' || c == '\U{000B}' || c == '\U{000C}' || c == '\r'
    || c == ' ' || c == '\U{00A0}' || c == '\U{1680}'
    || ('\U{2000}' <= c <= '\U{200A}')
    || c == '\U{2028}' || c == '\U{2029}' || c == '\U{202F}' || c == '\U{205F}'
    || c == '\U{3000}' || c == '\U{FEFF}'
  }

  /** Length of the longest prefix of `s` whose characters all satisfy `p`. */
  function CountLeading(s: string, p: char -> bool): (n: nat)
    ensures n <= |s|
    ensures forall k :: 0 <= k < n ==> p(s[k])
    ensures n < |s| ==> !p(s[n])
  {
    if s == [] || !p(s[0]) then 0 else 1 + CountLeading(s[1..], p)
  }

  /** Length of the longest suffix of `s` whose characters all satisfy `p`. */
  function CountTrailing(s: string, p: char -> bool): (n: nat)
    ensures n <= |s|
    ensures forall k :: |s| - n <= k < |s| ==> p(s[k])
    ensures n < |s| ==> !p(s[|s| - 1 - n])
  {
    if s == [] || !p(s[|s| - 1]) then 0 else 1 + CountTrailing(s[..|s| - 1], p)
  }

  /** A prefix that is exactly `u` when `u` satisfies `p` throughout and the
      character after it does not. */
  lemma CountLeadingExact(u: string, m: string, p: char -> bool)
    requires forall k :: 0 <= k < |u| ==> p(u[k])
    requires m == [] || !p(m[0])
    ensures CountLeading(u + m, p) == |u|
  {
    var s := u + m;
    assert forall k :: 0 <= k < |u| ==> s[k] == u[k];
    assert |u| < |s| ==> s[|u|] == m[0];
  }

  lemma CountTrailingExact(m: string, v: string, p: char -> bool)
    requires forall k :: 0 <= k < |v| ==> p(v[k])
    requires m == [] || !p(m[|m| - 1])
    ensures CountTrailing(m + v, p) == |v|
  {
    var s := m + v;
    assert forall k :: |m| <= k < |s| ==> s[k] == v[k - |m|];
    assert |v| < |s| ==> s[|s| - 1 - |v|] == m[|m| - 1];
  }

  /** JavaScript's `trim`: the input without its leading and trailing whitespace. */
  function Trim(s: string): (r: string)
    ensures |r| <= |s|
    ensures r == [] || (!IsWhitespace(r[0]) && !IsWhitespace(r[|r| - 1]))
    ensures r == [] <==> forall k :: 0 <= k < |s| ==> IsWhitespace(s[k])
  {
    var a := CountLeading(s, IsWhitespace);
    var t := s[a..];
    var r := t[..|t| - CountTrailing(t, IsWhitespace)];
    assert r != [] ==> r[0] == s[a];
    assert a < |s| ==> t[0] == s[a];
    r
  }

  /** Trim is determined by its result: whitespace around a core that neither
      starts nor ends with whitespace is exactly what it strips. */
  lemma TrimStripsSurrounding(u: string, m: string, v: string)
    requires forall k :: 0 <= k < |u| ==> IsWhitespace(u[k])
    requires forall k :: 0 <= k < |v| ==> IsWhitespace(v[k])
    requires m == [] || (!IsWhitespace(m[0]) && !IsWhitespace(m[|m| - 1]))
    ensures Trim(u + m + v) == m
  {
    var s := u + m + v;
    if m == [] {
      assert s == u + v;
      assert forall k :: 0 <= k < |s| ==> IsWhitespace(s[k]) by {
        forall k | 0 <= k < |s| ensures IsWhitespace(s[k]) {
          if k < |u| { assert s[k] == u[k]; } else { assert s[k] == v[k - |u|]; }
        }
      }
    } else {
      assert s == u + (m + v);
      CountLeadingExact(u, m + v, IsWhitespace);
      var t := s[|u|..];
      assert t == m + v;
      CountTrailingExact(m, v, IsWhitespace);
      assert t[..|t| - |v|] == m;
    }
  }

  lemma TrimIdempotent(s: string)
    ensures Trim(Trim(s)) == Trim(s)
  {
    var r := Trim(s);
    assert [] + r + [] == r;
    TrimStripsSurrounding([], r, []);
  }

  /** Decimal rendering of a natural number, without leading zeros, as a
      JavaScript template literal prints an integer. */
  function NatToDecimal(n: nat): (s: string)
    ensures |s| >= 1 && AllDigits(s)
    ensures |s| > 1 ==> s[0] != '0'
  {
    if n < 10 then [DigitChar(n)] else NatToDecimal(n / 10) + [DigitChar(n % 10)]
  }

  /** The number a string of decimal digits denotes. */
  function DecimalValue(s: string): nat
    requires AllDigits(s)
  {
    if s == [] then 0 else 10 * DecimalValue(s[..|s| - 1]) + DigitValue(s[|s| - 1])
  }

  lemma {:induction false} DecimalRoundTrip(n: nat)
    ensures DecimalValue(NatToDecimal(n)) == n
  {
    if n >= 10 {
      var s := NatToDecimal(n);
      assert s[..|s| - 1] == NatToDecimal(n / 10);
      DecimalRoundTrip(n / 10);
    }
  }

  /** A title of spaces only trims to nothing. */
  lemma {:induction false} TrimBlank()
    ensures Trim("   ") == []
  {
    assert forall k :: 0 <= k < |"   "| ==> IsWhitespace("   "[k]);
  }

  /** A padded title trims to its core. */
  lemma {:induction false} TrimPadded()
    ensures Trim(" Car  ") == "Car"
  {
    assert " " + "Car" + "  " == " Car  ";
    TrimStripsSurrounding(" ", "Car", "  ");
  }
}
