/** ValueFormatter: bank values written with DecimalFormat (digits grouped in
    threes, at most two fraction digits rounded DOWN, trailing zeros dropped),
    optionally with a '+' for non-negative values, and abbreviated with a
    K / M / B suffix from 10,000 up. */
module ValueFormatters {
  import opened JavaInts

  /** Three decimal digits, with leading zeros: a group after a separator. */
  function Pad3(n: nat): (s: string)
    requires n < 1000
    ensures |s| == 3 && AllDigits(s) && DigitsValue(s) == n
  {
    var s := [DigitChar(n / 100), DigitChar(n / 10 % 10), DigitChar(n % 10)];
    DigitsValueThree(n / 100, n / 10 % 10, n % 10);
    s
  }

  /** DecimalFormat's integer part: decimal digits, a ',' before every group of three. */
  function Grouped(n: nat): string
    decreases n
  {
    if n < 1000 then NatToString(n) else Grouped(n / 1000) + "," + Pad3(n % 1000)
  }

  /** The characters of s other than the grouping separator. */
  function Ungroup(s: string): string {
    if s == [] then [] else Ungroup(s[..|s| - 1]) + (if s[|s| - 1] == ',' then [] else [s[|s| - 1]])
  }

  /** One to three digits, then any number of "," + three digits. */
  predicate WellGrouped(s: string)
    decreases |s|
  {
    if |s| <= 3 then 1 <= |s| && AllDigits(s)
    else |s| >= 5 && s[|s| - 4] == ',' && AllDigits(s[|s| - 3..]) && WellGrouped(s[..|s| - 4])
  }

  /** How a truncated quotient m / d is written: its integer part grouped,
      then FractionText of the first two fraction digits. */
  function DecimalDown(m: nat, d: nat): string
    requires d >= 1
  {
    Grouped(m / d) + FractionText(Truncated2(m % d, d))
  }

  /** The first two fraction digits of rem / d, rounded DOWN. */
  function Truncated2(rem: nat, d: nat): (f: nat)
    requires d >= 1 && rem < d
    ensures f < 100
    ensures f * d <= rem * 100 < (f + 1) * d
  {
    var f := rem * 100 / d;
    DivisionBounds(rem * 100, d);
    FewerThanHundred(f, rem, d);
    f
  }

  lemma DivisionBounds(x: nat, d: nat)
    requires d >= 1
    ensures (x / d) * d <= x < (x / d + 1) * d
  {
    assert x == (x / d) * d + x % d;
  }

  lemma FewerThanHundred(f: nat, rem: nat, d: nat)
    requires d >= 1 && rem < d && f * d <= rem * 100
    ensures f < 100
  {
    assert f * d < 100 * d;
  }

  /** The fraction part of at most two digits, with trailing zeros dropped and
      no decimal point when nothing is left. */
  function FractionText(f: nat): (s: string)
    requires f < 100
    ensures s == "" <==> f == 0
    ensures s != "" ==> 2 <= |s| <= 3 && s[0] == '.' && AllDigits(s[1..]) && s[|s| - 1] != '0'
    ensures |s| == 2 ==> DigitsValue(s[1..]) * 10 == f
    ensures |s| == 3 ==> DigitsValue(s[1..]) == f
  {
    if f == 0 then ""
    else if f % 10 == 0 then "." + [DigitChar(f / 10)]
    else
      var s := "." + [DigitChar(f / 10), DigitChar(f % 10)];
      assert s[1..] == [DigitChar(f / 10), DigitChar(f % 10)];
      DigitsValueTwo(f / 10, f % 10);
      s
  }

  /** The absolute value as a mathematical integer. */
  function Magnitude(v: int): nat {
    if v < 0 then -v else v
  }

  /** Math.abs on a long: Long.MIN_VALUE has no positive counterpart and is
      returned unchanged. */
  function Abs64(v: int64): (r: int64)
    ensures v != INT64_MIN ==> r == Magnitude(v)
    ensures v == INT64_MIN ==> r == v
  {
    if v >= 0 then v else if v == INT64_MIN then v else -v
  }

  /** The divisor and suffix formatAbbreviated picks. */
  datatype Scale = Scale(divisor: nat, suffix: string)

  function ScaleFor(absolute: int): (r: Scale)
    ensures r.divisor >= 1
  {
    if absolute < 10000 then Scale(1, "")
    else if absolute < 1000000 then Scale(1000, "K")
    else if absolute < 1000000000 then Scale(1000000, "M")
    else Scale(1000000000, "B")
  }

  /** The prefix DecimalFormat writes: its negative prefix "-" is never changed. */
  function SignPrefix(positivePrefix: string, value: int): string {
    if value < 0 then "-" else positivePrefix
  }

  /** format(value) for a formatter whose positive prefix is positivePrefix. */
  function FormatWith(positivePrefix: string, value: int64): string {
    SignPrefix(positivePrefix, value) + Grouped(Magnitude(value))
  }

  /** formatAbbreviated(value): value / divisor through the same formatter,
      then the suffix. */
  function FormatAbbreviatedWith(positivePrefix: string, value: int64): string {
    var scale := ScaleFor(Abs64(value));
    SignPrefix(positivePrefix, value) + DecimalDown(Magnitude(value), scale.divisor) + scale.suffix
  }

  /** The formatter object: only its positive prefix changes after construction. */
  class ValueFormatter {
    var positivePrefix: string

    constructor()
      ensures positivePrefix == ""
    {
      positivePrefix := "";
    }

    function Format(value: int64): string
      reads this
    {
      FormatWith(positivePrefix, value)
    }

    function FormatAbbreviated(value: int64): string
      reads this
    {
      FormatAbbreviatedWith(positivePrefix, value)
    }

    method SetShowPositiveSign(show: bool)
      modifies this
      ensures positivePrefix == if show then "+" else ""
    {
      positivePrefix := if show then "+" else "";
    }
  }

  // ---------------------------------------------------------------------
  // Properties

  lemma DigitsValueTwo(a: nat, b: nat)
    requires a < 10 && b < 10
    ensures AllDigits([DigitChar(a), DigitChar(b)])
    ensures DigitsValue([DigitChar(a), DigitChar(b)]) == a * 10 + b
  {
    var s := [DigitChar(a), DigitChar(b)];
    assert DigitValue(DigitChar(a)) == a && DigitValue(DigitChar(b)) == b;
    assert s[..1] == [DigitChar(a)];
    assert [DigitChar(a)][..0] == [];
    assert DigitsValue(s[..1]) == a;
  }

  lemma DigitsValueThree(a: nat, b: nat, c: nat)
    requires a < 10 && b < 10 && c < 10
    ensures AllDigits([DigitChar(a), DigitChar(b), DigitChar(c)])
    ensures DigitsValue([DigitChar(a), DigitChar(b), DigitChar(c)]) == (a * 10 + b) * 10 + c
  {
    var s := [DigitChar(a), DigitChar(b), DigitChar(c)];
    assert s[..2] == [DigitChar(a), DigitChar(b)];
    DigitsValueTwo(a, b);
  }

  lemma AllDigitsAppend(x: string, y: string)
    requires AllDigits(x) && AllDigits(y)
    ensures AllDigits(x + y)
  {
    forall i | 0 <= i < |x + y| ensures IsDigit((x + y)[i]) {
      if i >= |x| { assert (x + y)[i] == y[i - |x|]; }
    }
  }

  lemma ShiftDigit(a: nat, p: nat, b: nat, c: nat)
    ensures (a * p + b) * 10 + c == a * (p * 10) + (b * 10 + c)
  {
  }

  lemma {:induction false} DigitsValueAppend(x: string, y: string)
    requires AllDigits(x) && AllDigits(y)
    ensures AllDigits(x + y)
    ensures DigitsValue(x + y) == DigitsValue(x) * Pow10(|y|) + DigitsValue(y)
    decreases |y|
  {
    AllDigitsAppend(x, y);
    if y == [] {
      assert x + y == x;
    } else {
      var y' := y[..|y| - 1];
      var c := DigitValue(y[|y| - 1]);
      assert (x + y)[..|x + y| - 1] == x + y';
      assert (x + y)[|x + y| - 1] == y[|y| - 1];
      DigitsValueAppend(x, y');
      assert DigitsValue(x + y) == DigitsValue(x + y') * 10 + c;
      assert DigitsValue(y) == DigitsValue(y') * 10 + c;
      ShiftDigit(DigitsValue(x), Pow10(|y'|), DigitsValue(y'), c);
    }
  }

  function Pow10(k: nat): nat {
    if k == 0 then 1 else Pow10(k - 1) * 10
  }

  lemma {:induction false} UngroupAppend(a: string, b: string)
    ensures Ungroup(a + b) == Ungroup(a) + Ungroup(b)
    decreases |b|
  {
    if b == [] {
      assert a + b == a;
    } else {
      var b' := b[..|b| - 1];
      assert (a + b)[..|a + b| - 1] == a + b';
      UngroupAppend(a, b');
    }
  }

  lemma {:induction false} UngroupDigits(s: string)
    requires AllDigits(s)
    ensures Ungroup(s) == s
    decreases |s|
  {
    if s != [] {
      assert s[|s| - 1] != ',' by { assert IsDigit(s[|s| - 1]); }
      UngroupDigits(s[..|s| - 1]);
    }
  }

  /** Taking the separators out of Grouped(n) leaves digits worth n. */
  lemma {:induction false} GroupedValue(n: nat)
    ensures AllDigits(Ungroup(Grouped(n))) && DigitsValue(Ungroup(Grouped(n))) == n
    decreases n
  {
    if n < 1000 {
      DigitsValueOfNatToString(n);
      UngroupDigits(NatToString(n));
    } else {
      var head, tail := Grouped(n / 1000), Pad3(n % 1000);
      GroupedValue(n / 1000);
      UngroupSeparated(head, tail);
      DigitsValueAppend(Ungroup(head), tail);
      assert Pow10(3) == 1000;
      DivModSplit(n, DigitsValue(Ungroup(head)), DigitsValue(tail));
    }
  }

  lemma UngroupSeparated(head: string, tail: string)
    requires AllDigits(tail)
    ensures Ungroup(head + "," + tail) == Ungroup(head) + tail
  {
    UngroupAppend(head + ",", tail);
    UngroupAppend(head, ",");
    UngroupDigits(tail);
    assert Ungroup(",") == [];
  }

  lemma DivModSplit(n: nat, q: nat, r: nat)
    requires q == n / 1000 && r == n % 1000
    ensures q * 1000 + r == n
  {
  }

  lemma {:induction false} NatToStringLeadingDigit(n: nat)
    ensures NatToString(n)[0] == '0' <==> n == 0
    decreases n
  {
    if n >= 10 {
      NatToStringLeadingDigit(n / 10);
    }
  }

  lemma NatToStringShortLength(n: nat)
    requires n < 1000
    ensures 1 <= |NatToString(n)| <= 3
  {
    if n >= 10 {
      assert |NatToString(n / 10)| <= 2 by {
        if n / 10 >= 10 {
          assert |NatToString(n / 100)| == 1;
        }
      }
    }
  }

  /** Grouped(n) is grouped in threes and starts with a zero only for n == 0. */
  lemma {:induction false} GroupedShape(n: nat)
    ensures WellGrouped(Grouped(n))
    ensures Grouped(n)[0] == '0' <==> n == 0
    decreases n
  {
    if n < 1000 {
      NatToStringDigits(n);
      NatToStringShortLength(n);
      NatToStringLeadingDigit(n);
    } else {
      var g := Grouped(n);
      var head := Grouped(n / 1000);
      GroupedShape(n / 1000);
      assert g == head + "," + Pad3(n % 1000);
      assert |head| >= 1 by { assert WellGrouped(head); }
      assert g[..|g| - 4] == head;
      assert g[|g| - 3..] == Pad3(n % 1000);
      assert g[|g| - 4] == ',';
      assert g[0] == head[0];
    }
  }

  /** For v > 0, format(-v) is "-" followed by format(v) of a formatter
      without a positive prefix. */
  lemma FormatNegation(positivePrefix: string, v: int64)
    requires v > 0
    ensures FormatWith(positivePrefix, -v) == "-" + FormatWith("", v)
  {
  }

  /** For v > 0, formatAbbreviated(-v) is "-" followed by formatAbbreviated(v). */
  lemma FormatAbbreviatedNegation(positivePrefix: string, v: int64)
    requires v > 0
    ensures FormatAbbreviatedWith(positivePrefix, -v) == "-" + FormatAbbreviatedWith("", v)
  {
    assert Abs64(-v) == Abs64(v);
  }

  /** With the positive sign shown, a non-negative value gains a '+' and
      nothing else changes; a negative value is unaffected. */
  lemma ShowPositiveSign(v: int64)
    ensures v >= 0 ==> FormatWith("+", v) == "+" + FormatWith("", v)
    ensures v >= 0 ==> FormatAbbreviatedWith("+", v) == "+" + FormatAbbreviatedWith("", v)
    ensures v < 0 ==> FormatWith("+", v) == FormatWith("", v)
    ensures v < 0 ==> FormatAbbreviatedWith("+", v) == FormatAbbreviatedWith("", v)
  {
  }

  /** A value below 10,000 in magnitude (and Long.MIN_VALUE, whose Math.abs
      stays negative) is abbreviated to exactly its format string. */
  lemma SmallValuesUnabbreviated(positivePrefix: string, v: int64)
    requires Magnitude(v) < 10000 || v == INT64_MIN
    ensures FormatAbbreviatedWith(positivePrefix, v) == FormatWith(positivePrefix, v)
  {
    var m := Magnitude(v);
    assert ScaleFor(Abs64(v)) == Scale(1, "");
    assert Truncated2(m % 1, 1) == 0;
    assert DecimalDown(m, 1) == Grouped(m) + "";
  }

  /** The suffix follows the magnitude: K from 10,000, M from 1,000,000, B
      from 1,000,000,000, each with the quotient truncated to two fraction digits. */
  lemma AbbreviatedSuffix(positivePrefix: string, v: int64)
    requires v != INT64_MIN
    ensures var m, sign, r := Magnitude(v), SignPrefix(positivePrefix, v), FormatAbbreviatedWith(positivePrefix, v);
      (10000 <= m < 1000000 ==> r == sign + DecimalDown(m, 1000) + "K") &&
      (1000000 <= m < 1000000000 ==> r == sign + DecimalDown(m, 1000000) + "M") &&
      (1000000000 <= m ==> r == sign + DecimalDown(m, 1000000000) + "B")
  {
  }

  // Vectors from the formatter's tests.

  lemma GroupedThousands()
    ensures Grouped(808019) == "808,019"
  {
    assert NatToString(80) == "80";
    assert Grouped(808) == "808";
    assert Pad3(19) == "019";
    assert Grouped(808019) == "808" + "," + "019";
  }

  lemma GroupedVector()
    ensures Grouped(808019000000) == "808,019,000,000"
  {
    GroupedThousands();
    assert Pad3(0) == "000";
    assert Grouped(808019000) == "808,019" + "," + "000";
    assert Grouped(808019000000) == "808,019,000" + "," + "000";
  }

  lemma FormatVector()
    ensures FormatWith("", 808019000000) == "808,019,000,000"
  {
    GroupedVector();
    assert FormatWith("", 808019000000) == "" + Grouped(808019000000);
  }

  lemma AbbreviatedDropsZeroFraction()
    ensures FormatAbbreviatedWith("", 10001) == "10K"
  {
    assert NatToString(10) == "10";
    assert Truncated2(1, 1000) == 0;
  }

  lemma AbbreviatedOneFractionDigit()
    ensures FormatAbbreviatedWith("", 10101) == "10.1K"
  {
    assert NatToString(10) == "10";
    assert Truncated2(101, 1000) == 10;
    assert FractionText(10) == ".1";
  }

  lemma AbbreviatedTruncatesDown()
    ensures FormatAbbreviatedWith("", 999999) == "999.99K"
  {
    assert NatToString(99) == "99";
    assert NatToString(999) == "999";
    assert Truncated2(999, 1000) == 99;
    assert FractionText(99) == ".99";
  }

  lemma AbbreviatedBillions()
    ensures FormatAbbreviatedWith("", 808019000000) == "808.01B"
  {
    var v: int64 := 808019000000;
    assert ScaleFor(Abs64(v)) == Scale(1000000000, "B");
    assert v / 1000000000 == 808 && v % 1000000000 == 19000000;
    assert Grouped(808) == "808" by {
      assert NatToString(80) == "80";
    }
    assert Truncated2(19000000, 1000000000) == 1;
    assert FractionText(1) == ".01";
    assert DecimalDown(v, 1000000000) == "808" + ".01";
  }
}
