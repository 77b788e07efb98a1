/** The amount-input sanitiser of the loan tracker: keep only the characters
    `0-9`, `.` and `-`, parse the rest as a decimal number the way JavaScript's
    `parseFloat` does, and fall back to 0. Amounts are exact reals. */
module Amount {
  import opened Text
  import opened Wrappers

  predicate IsAmountChar(c: char) {
    IsDigit(c) || c == '.' || c == '-'
  }

  predicate AllAmountChars(s: string) {
    forall k :: 0 <= k < |s| ==> IsAmountChar(s[k])
  }

  /** The filter step of the sanitiser (the regular expression `[^0-9.-]+`
      replaced by nothing). */
  function KeepAmountChars(s: string): (r: string)
    ensures AllAmountChars(r)
    ensures |r| <= |s|
  {
    if s == [] then []
    else (if IsAmountChar(s[0]) then [s[0]] else []) + KeepAmountChars(s[1..])
  }

  /** Every character outside `[0-9.-]` is dropped, every character inside it
      is kept, each as often as it occurs. */
  lemma {:induction false} KeepAmountCharsCounts(s: string, c: char)
    ensures multiset(KeepAmountChars(s))[c] == if IsAmountChar(c) then multiset(s)[c] else 0
  {
    if s != [] {
      assert s == [s[0]] + s[1..];
      KeepAmountCharsCounts(s[1..], c);
    }
  }

  /** The filter works character by character: it keeps the survivors in
      their original order. */
  lemma {:induction false} KeepAmountCharsConcat(a: string, b: string)
    ensures KeepAmountChars(a + b) == KeepAmountChars(a) + KeepAmountChars(b)
  {
    if a != [] {
      var ab := a + b;
      assert ab != [] && ab[0] == a[0];
      assert ab[1..] == a[1..] + b;
      KeepAmountCharsConcat(a[1..], b);
      calc {
        KeepAmountChars(ab);
        (if IsAmountChar(a[0]) then [a[0]] else []) + KeepAmountChars(a[1..] + b);
        (if IsAmountChar(a[0]) then [a[0]] else []) + (KeepAmountChars(a[1..]) + KeepAmountChars(b));
        ((if IsAmountChar(a[0]) then [a[0]] else []) + KeepAmountChars(a[1..])) + KeepAmountChars(b);
        KeepAmountChars(a) + KeepAmountChars(b);
      }
    } else {
      assert a + b == b;
    }
  }

  lemma {:induction false} KeepAmountCharsFixes(s: string)
    requires AllAmountChars(s)
    ensures KeepAmountChars(s) == s
  {
    if s != [] {
      KeepAmountCharsFixes(s[1..]);
    }
  }

  lemma {:induction false} KeepAmountCharsIdempotent(s: string)
    ensures KeepAmountChars(KeepAmountChars(s)) == KeepAmountChars(s)
  {
    KeepAmountCharsFixes(KeepAmountChars(s));
  }

  /** The value of the digits after a decimal point. */
  function FractionValue(d: string): (v: real)
    requires AllDigits(d)
    ensures 0.0 <= v < 1.0
  {
    if d == [] then 0.0 else (DigitValue(d[0]) as real + FractionValue(d[1..])) / 10.0
  }

  /** The digits right after a decimal point that starts `rest`, if any. */
  function FractionDigits(rest: string): (f: string)
    ensures AllDigits(f)
  {
    if |rest| > 0 && rest[0] == '.' then rest[1..][..CountLeading(rest[1..], IsDigit)] else []
  }

  /** The unsigned part of `parseFloat`: the longest prefix of the form
      `digits [. [digits]]` or `. digits`; the rest is ignored. None stands
      for NaN, the result when that prefix holds no digit. */
  function ParseUnsigned(body: string): Option<real>
  {
    var whole := CountLeading(body, IsDigit);
    var fraction := FractionDigits(body[whole..]);
    if whole == 0 && fraction == [] then None
    else Some(DecimalValue(body[..whole]) as real + FractionValue(fraction))
  }

  /** JavaScript's `parseFloat` on a string made only of `0-9`, `.` and `-`:
      an optional minus sign before the unsigned number. (Whitespace, `+`,
      exponents and `Infinity`, which `parseFloat` also reads, cannot occur
      after the filter.) */
  function ParseDecimal(s: string): Option<real>
    requires AllAmountChars(s)
  {
    if |s| > 0 && s[0] == '-' then
      match ParseUnsigned(s[1..])
      case None => None
      case Some(x) => Some(-x)
    else ParseUnsigned(s)
  }

  /** `sanitizeAmountInput`: filter, parse, and replace NaN by 0 (`|| 0` also
      turns a parsed 0 or -0 into 0, which reals do not tell apart). */
  function Sanitize(input: string): real
  {
    match ParseDecimal(KeepAmountChars(input))
    case None => 0.0
    case Some(x) => x
  }

  /** Text without any digit cannot be parsed and sanitises to 0. */
  lemma {:induction false} ParseUnsignedWithoutDigits(body: string)
    requires forall k :: 0 <= k < |body| ==> !IsDigit(body[k])
    ensures ParseUnsigned(body) == None
  {
    assert CountLeading(body, IsDigit) == 0;
    assert body[0..] == body;
    if |body| > 0 && body[0] == '.' {
      assert CountLeading(body[1..], IsDigit) == 0;
    }
  }

  lemma {:induction false} SanitizeWithoutDigits(s: string)
    requires forall k :: 0 <= k < |s| ==> !IsDigit(s[k])
    ensures Sanitize(s) == 0.0
  {
    var t := KeepAmountChars(s);
    assert forall k :: 0 <= k < |t| ==> !IsDigit(t[k]) by {
      forall k | 0 <= k < |t| ensures !IsDigit(t[k]) {
        assert t[k] in multiset(t);
        KeepAmountCharsCounts(s, t[k]);
      }
    }
    if |t| > 0 && t[0] == '-' {
      ParseUnsignedWithoutDigits(t[1..]);
    } else {
      ParseUnsignedWithoutDigits(t);
    }
  }

  /** Sanitising depends only on the characters the filter keeps. */
  lemma {:induction false} SanitizeIgnoresForeignChars(s: string)
    ensures Sanitize(KeepAmountChars(s)) == Sanitize(s)
  {
    KeepAmountCharsIdempotent(s);
  }

  /** `Number.prototype.toFixed(2)` of `cents / 100`: a sign for negative
      values, then the magnitude. */
  function FixedTwo(cents: int): (s: string)
    ensures AllAmountChars(s)
  {
    if cents < 0 then "-" + UnsignedFixedTwo(-cents) else UnsignedFixedTwo(cents)
  }

  /** The whole part without leading zeros, a point and exactly two digits. */
  function UnsignedFixedTwo(m: nat): (s: string)
    ensures AllAmountChars(s) && |s| > 0 && IsDigit(s[0])
  {
    NatToDecimal(m / 100) + "." + [DigitChar(m % 100 / 10), DigitChar(m % 10)]
  }

  lemma {:induction false} CentsDigits(m: nat)
    ensures m == 100 * (m / 100) + 10 * (m % 100 / 10) + m % 10
  {
    var q, r := m / 100, m % 100;
    var t, u := r / 10, r % 10;
    assert m == 100 * q + r;
    assert r == 10 * t + u;
    LastDigit(10 * q + t, u);
    assert m == 10 * (10 * q + t) + u;
  }

  lemma {:induction false} LastDigit(k: int, u: int)
    requires 0 <= u < 10
    ensures (10 * k + u) % 10 == u
  {
  }

  /** The whole part of `parseFloat` is the longest run of leading digits. */
  lemma {:induction false} ParseUnsignedSplit(w: string, rest: string)
    requires AllDigits(w) && w != []
    requires rest == [] || !IsDigit(rest[0])
    ensures ParseUnsigned(w + rest) == Some(DecimalValue(w) as real + FractionValue(FractionDigits(rest)))
  {
    var body := w + rest;
    CountLeadingExact(w, rest, IsDigit);
    assert body[..|w|] == w;
    assert body[|w|..] == rest;
  }

  /** After the point, the fraction is the longest run of digits. */
  lemma {:induction false} FractionDigitsPoint(f: string, tail: string)
    requires AllDigits(f)
    requires tail == [] || !IsDigit(tail[0])
    ensures FractionDigits("." + (f + tail)) == f
  {
    var rest := "." + (f + tail);
    assert rest[1..] == f + tail;
    CountLeadingExact(f, tail, IsDigit);
    assert (f + tail)[..|f|] == f;
  }

  /** `parseFloat` reads `digits . digits` in full and ignores whatever
      follows that does not start with a digit (a second point, a minus sign). */
  lemma {:induction false} ParseUnsignedPoint(w: string, f: string, tail: string)
    requires AllDigits(w) && w != [] && AllDigits(f)
    requires tail == [] || !IsDigit(tail[0])
    ensures ParseUnsigned(w + "." + f + tail) == Some(DecimalValue(w) as real + FractionValue(f))
  {
    assert w + "." + f + tail == w + ("." + (f + tail));
    ParseUnsignedSplit(w, "." + (f + tail));
    FractionDigitsPoint(f, tail);
  }

  /** With no whole part, `parseFloat` reads `. digits` as the fraction
      alone. */
  lemma {:induction false} ParseUnsignedLeadingPoint(f: string, tail: string)
    requires AllDigits(f) && f != []
    requires tail == [] || !IsDigit(tail[0])
    ensures ParseUnsigned("." + f + tail) == Some(FractionValue(f))
  {
    var body := "." + f + tail;
    assert body == "." + (f + tail);
    assert CountLeading(body, IsDigit) == 0;
    assert body[0..] == body;
    FractionDigitsPoint(f, tail);
  }

  /** A leading minus negates the number after it: `parseFloat` reads
      `- digits . digits` as the negated whole part plus fraction. */
  lemma {:induction false} ParseDecimalNegative(w: string, f: string, tail: string)
    requires AllDigits(w) && w != [] && AllDigits(f)
    requires tail == [] || !IsDigit(tail[0])
    requires AllAmountChars("-" + w + "." + f + tail)
    ensures ParseDecimal("-" + w + "." + f + tail) == Some(-(DecimalValue(w) as real + FractionValue(f)))
  {
    var s := "-" + w + "." + f + tail;
    assert s[1..] == w + "." + f + tail;
    ParseUnsignedPoint(w, f, tail);
  }

  lemma {:induction false} ParseUnsignedFixedTwo(m: nat)
    ensures ParseUnsigned(UnsignedFixedTwo(m)) == Some(m as real / 100.0)
  {
    var whole := NatToDecimal(m / 100);
    var d1, d2 := m % 100 / 10, m % 10;
    var dd := [DigitChar(d1), DigitChar(d2)];
    assert whole + "." + dd + [] == whole + "." + dd;
    ParseUnsignedPoint(whole, dd, []);
    DecimalRoundTrip(m / 100);
    assert FractionValue(dd) == d1 as real / 10.0 + d2 as real / 100.0 by {
      assert dd[1..] == [DigitChar(d2)];
      assert [DigitChar(d2)][1..] == [];
      assert FractionValue([DigitChar(d2)]) == d2 as real / 10.0;
      assert FractionValue(dd) == (d1 as real + d2 as real / 10.0) / 10.0;
    }
    CentsDigits(m);
  }

  lemma {:induction false} ParseDecimalFixedTwo(cents: int)
    ensures ParseDecimal(FixedTwo(cents)) == Some(cents as real / 100.0)
  {
    var s := FixedTwo(cents);
    if cents < 0 {
      var m: nat := -cents;
      var u := UnsignedFixedTwo(m);
      assert s == "-" + u;
      assert s[1..] == u;
      ParseUnsignedFixedTwo(m);
      assert -(m as real / 100.0) == cents as real / 100.0;
    } else {
      ParseUnsignedFixedTwo(cents);
    }
  }

  /** `toFixed(2)` of a whole number of cents sanitises back to that amount,
      sign included. */
  lemma {:induction false} SanitizeFixedTwo(cents: int)
    ensures Sanitize(FixedTwo(cents)) == cents as real / 100.0
  {
    KeepAmountCharsFixes(FixedTwo(cents));
    ParseDecimalFixedTwo(cents);
  }

  /** Sanitising text that the filter keeps whole is parsing it. */
  lemma {:induction false} SanitizeKept(s: string, v: real)
    requires AllAmountChars(s)
    requires ParseDecimal(s) == Some(v)
    ensures Sanitize(s) == v
  {
    KeepAmountCharsFixes(s);
  }

  /** "-.5" is read as a negative fraction with no whole part. */
  lemma {:induction false} SanitizeNegativeFraction()
    ensures Sanitize("-.5") == -0.5
  {
    assert "5"[1..] == [];
    assert FractionValue("5") == 0.5;
    assert "." + "5" + [] == ".5";
    ParseUnsignedLeadingPoint("5", []);
    assert "-.5"[1..] == ".5";
    SanitizeKept("-.5", -0.5);
  }

  lemma {:induction false} DecimalValueTwelve()
    ensures AllDigits("12") && DecimalValue("12") == 12
  {
    assert "12"[..1] == "1" && "1"[..0] == [];
  }

  lemma {:induction false} ParseSecondPoint()
    ensures ParseUnsigned("12.3.4") == Some(12.3)
  {
    DecimalValueTwelve();
    assert "3"[1..] == [];
    assert FractionValue("3") == 0.3;
    assert "12" + "." + "3" + ".4" == "12.3.4";
    ParseUnsignedPoint("12", "3", ".4");
  }

  /** `parseFloat` stops at the second decimal point. */
  lemma {:induction false} SanitizeStopsAtSecondPoint()
    ensures Sanitize("12.3.4") == 12.3
  {
    ParseSecondPoint();
    assert ParseDecimal("12.3.4") == Some(12.3);
    SanitizeKept("12.3.4", 12.3);
  }

  /** A lone minus sign is NaN for `parseFloat`, hence 0. */
  lemma {:induction false} SanitizeLoneMinus()
    ensures Sanitize("-") == 0.0
  {
    SanitizeWithoutDigits("-");
  }

  lemma {:induction false} ParseThreeDecimals()
    ensures ParseUnsigned("1.234") == Some(1.234)
  {
    assert "1"[..0] == [];
    assert DecimalValue("1") == 1;
    assert "234"[1..] == "34" && "34"[1..] == "4" && "4"[1..] == [];
    assert FractionValue("234") == 0.234;
    assert "1" + "." + "234" + [] == "1.234";
    ParseUnsignedPoint("1", "234", []);
  }

  /** A typed amount keeps every decimal it is given. */
  lemma {:induction false} SanitizeThreeDecimals()
    ensures Sanitize("1.234") == 1.234
  {
    ParseThreeDecimals();
    assert ParseDecimal("1.234") == Some(1.234);
    SanitizeKept("1.234", 1.234);
  }
}
