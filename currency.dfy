/** `formatCurrency`: an amount as the tracker displays it, rounded to two
    decimals with `en-US` thousands separators, and what the sanitiser reads
    back from such a display. */
module Currency {
  import opened Text
  import opened Amount

  /** The nearest integer, ties away from zero: the default rounding of
      `toLocaleString` (and of `toFixed` on an exact value). */
  function RoundHalfAway(y: real): (r: int)
    ensures y >= 0.0 ==> r as real - 0.5 <= y < r as real + 0.5
    ensures y < 0.0 ==> r as real - 0.5 < y <= r as real + 0.5
  {
    if y >= 0.0 then (y + 0.5).Floor else -((-y + 0.5).Floor)
  }

  lemma {:induction false} RoundHalfAwayInteger(c: int)
    ensures RoundHalfAway(c as real) == c
  {
    var r := RoundHalfAway(c as real);
    assert c - 1 < r < c + 1;
  }

  /** The whole number of cents an amount is displayed with. */
  function Cents(x: real): int {
    RoundHalfAway(x * 100.0)
  }

  /** The amount the display of `x` stands for. */
  function RoundToCents(x: real): (r: real)
    ensures -0.005 <= r - x <= 0.005
  {
    Cents(x) as real / 100.0
  }

  lemma {:induction false} CentsOfWholeCents(c: int)
    ensures Cents(c as real / 100.0) == c
  {
    assert c as real / 100.0 * 100.0 == c as real;
    RoundHalfAwayInteger(c);
  }

  /** An amount already in whole cents is displayed exactly. */
  lemma {:induction false} RoundToCentsWholeCents(c: int)
    ensures RoundToCents(c as real / 100.0) == c as real / 100.0
  {
    CentsOfWholeCents(c);
  }

  lemma {:induction false} RoundToCentsIdempotent(x: real)
    ensures RoundToCents(RoundToCents(x)) == RoundToCents(x)
  {
    RoundToCentsWholeCents(Cents(x));
  }

  /** A digit string with a comma before every group of three digits
      counted from the right, as `en-US` groups an integer part. */
  function GroupThousands(w: string): (r: string)
    ensures |w| <= 3 ==> r == w
    ensures |w| > 3 ==> |r| > 4 && r[|r| - 4] == ','
  {
    if |w| <= 3 then w else GroupThousands(w[..|w| - 3]) + "," + w[|w| - 3..]
  }

  /** Counted from the right, every fourth character of a grouped digit
      string is a comma and every other one is a digit. With
      `KeepAmountCharsUngroups`, which fixes the digits and their order, this
      determines the grouped string. */
  lemma {:induction false} GroupThousandsCommas(w: string)
    requires AllDigits(w)
    ensures forall i :: 0 <= i < |GroupThousands(w)| ==>
              (GroupThousands(w)[i] == ',' <==> (|GroupThousands(w)| - i) % 4 == 0)
    decreases |w|
  {
    var r := GroupThousands(w);
    if |w| <= 3 {
      forall i | 0 <= i < |r|
        ensures r[i] == ',' <==> (|r| - i) % 4 == 0
      {
        assert IsDigit(w[i]);
      }
    } else {
      var head, tail := w[..|w| - 3], w[|w| - 3..];
      assert AllDigits(head) by {
        forall k | 0 <= k < |head| ensures IsDigit(head[k]) { assert head[k] == w[k]; }
      }
      var g := GroupThousands(head);
      GroupThousandsCommas(head);
      assert r == g + "," + tail;
      forall i | 0 <= i < |r|
        ensures r[i] == ',' <==> (|r| - i) % 4 == 0
      {
        if i < |g| {
          assert r[i] == g[i];
          assert |r| - i == (|g| - i) + 4;
          assert (|g| - i + 4) % 4 == (|g| - i) % 4;
        } else if i == |g| {
          assert |r| - i == 4 && r[i] == ',';
        } else {
          assert r[i] == w[|w| - 3 + (i - |g| - 1)];
          assert IsDigit(r[i]);
          assert 1 <= |r| - i <= 3;
        }
      }
    }
  }

  /** The sanitiser's filter takes the separators out again. */
  lemma {:induction false} KeepAmountCharsUngroups(w: string)
    requires AllDigits(w)
    ensures KeepAmountChars(GroupThousands(w)) == w
    decreases |w|
  {
    if |w| <= 3 {
      KeepAmountCharsFixes(w);
    } else {
      var head, tail := w[..|w| - 3], w[|w| - 3..];
      assert GroupThousands(w) == GroupThousands(head) + ("," + tail);
      KeepAmountCharsUngroups(head);
      UngroupStep(GroupThousands(head), tail);
      assert head + tail == w;
    }
  }

  lemma {:induction false} UngroupStep(g: string, tail: string)
    requires AllDigits(tail)
    ensures KeepAmountChars(g + ("," + tail)) == KeepAmountChars(g) + tail
  {
    var s := "," + tail;
    assert s[1..] == tail;
    KeepAmountCharsFixes(tail);
    KeepAmountCharsConcat(g, s);
  }

  /** The magnitude of `m` cents: grouped whole part, a point, two digits. */
  function GroupedFixedTwo(m: nat): string {
    GroupThousands(NatToDecimal(m / 100)) + "." + [DigitChar(m % 100 / 10), DigitChar(m % 10)]
  }

  /** `amount.toLocaleString('en-US', {minimumFractionDigits: 2,
      maximumFractionDigits: 2})`: the amount rounded to cents, then shown. */
  function FormatCurrency(x: real): string {
    FormatCents(Cents(x))
  }

  /** A whole number of cents as `en-US` shows it with two decimals. */
  function FormatCents(c: int): string {
    if c < 0 then "-" + GroupedFixedTwo(-c) else GroupedFixedTwo(c)
  }

  lemma {:induction false} KeepGroupedFixedTwo(m: nat)
    ensures KeepAmountChars(GroupedFixedTwo(m)) == UnsignedFixedTwo(m)
  {
    var w := NatToDecimal(m / 100);
    var rest := "." + [DigitChar(m % 100 / 10), DigitChar(m % 10)];
    assert GroupedFixedTwo(m) == GroupThousands(w) + rest;
    KeepAmountCharsConcat(GroupThousands(w), rest);
    KeepAmountCharsUngroups(w);
    KeepAmountCharsFixes(rest);
    assert UnsignedFixedTwo(m) == w + rest;
  }

  /** Filtering a displayed amount, peso sign included, leaves `toFixed(2)`
      of its cents. */
  lemma {:induction false} KeepDisplayedAmount(x: real)
    ensures KeepAmountChars("\U{20B1}" + FormatCurrency(x)) == FixedTwo(Cents(x))
  {
    KeepAmountCharsConcat("\U{20B1}", FormatCents(Cents(x)));
    PesoSignDropped();
    KeepFormatCents(Cents(x));
  }

  lemma {:induction false} PesoSignDropped()
    ensures KeepAmountChars("\U{20B1}") == []
  {
    assert "\U{20B1}"[1..] == [];
  }

  lemma {:induction false} KeepFormatCents(c: int)
    ensures KeepAmountChars(FormatCents(c)) == FixedTwo(c)
  {
    if c < 0 {
      var m: nat := -c;
      KeepAmountCharsConcat("-", GroupedFixedTwo(m));
      KeepAmountCharsFixes("-");
      KeepGroupedFixedTwo(m);
    } else {
      KeepGroupedFixedTwo(c);
    }
  }

  /** Reading a displayed amount back, as the payment-table rebuild does,
      gives the amount rounded to cents. */
  lemma {:induction false} SanitizeDisplayed(x: real)
    ensures Sanitize("\U{20B1}" + FormatCurrency(x)) == RoundToCents(x)
  {
    var c := Cents(x);
    KeepDisplayedAmount(x);
    KeepAmountCharsFixes(FixedTwo(c));
    SanitizeFixedTwo(c);
  }

  /** An amount editor pre-fills `toFixed(2)` of the sanitised display;
      confirming it unchanged stores the amount rounded to cents, so an amount
      already in whole cents is kept. */
  lemma {:induction false} ConfirmUnchangedRoundsToCents(x: real)
    ensures Sanitize(FixedTwo(Cents(Sanitize("\U{20B1}" + FormatCurrency(x))))) == RoundToCents(x)
  {
    var c := Cents(x);
    var shown := Sanitize("\U{20B1}" + FormatCurrency(x));
    SanitizeDisplayed(x);
    assert shown == c as real / 100.0;
    CentsOfWholeCents(c);
    assert Cents(shown) == c;
    SanitizeFixedTwo(c);
  }

  lemma {:induction false} NatToDecimalSample()
    ensures NatToDecimal(9838) == "9838"
  {
    assert DigitChar(9) == '9' && DigitChar(8) == '8' && DigitChar(3) == '3';
    assert NatToDecimal(9) == "9";
    assert NatToDecimal(98) == "98";
    assert NatToDecimal(983) == "983";
  }

  lemma {:induction false} GroupSample()
    ensures GroupThousands("9838") == "9,838"
  {
    assert "9838"[..1] == "9" && "9838"[1..] == "838";
  }

  lemma {:induction false} FormatSample()
    ensures FormatCents(983802) == "9,838.02"
  {
    assert 983802 / 100 == 9838 && 983802 % 100 / 10 == 0 && 983802 % 10 == 2;
    NatToDecimalSample();
    GroupSample();
    assert DigitChar(0) == '0' && DigitChar(2) == '2';
    assert GroupedFixedTwo(983802) == "9,838" + "." + "02";
  }

  /** A payment cell as the table shows it: the peso sign and the thousands
      separator are dropped. */
  lemma {:induction false} SanitizeDisplayedAmount()
    ensures Sanitize("\U{20B1}9,838.02") == 9838.02
  {
    assert 9838.02 * 100.0 == 983802 as real;
    RoundHalfAwayInteger(983802);
    FormatSample();
    assert "\U{20B1}" + FormatCurrency(9838.02) == "\U{20B1}9,838.02";
    SanitizeDisplayed(9838.02);
  }
}
