/**
 * What integers a float spells (canonical_number.go:28-41): its own up to 2^precision, and not
 * always beyond.
 */
module IntegerDigits {
  import opened Arithmetic
  import opened CanonicalNumber
  import opened ShortestDigits
  import opened Text

  // ---- integers up to 2^precision ------------------------------------------------------------

  /** Up to the unit, the significand holds the integer's own bits; above it, the other way round. */
  lemma SignificandOf(f: Format, b: Binary, i: nat)
    requires HoldsInteger(f, b, i)
    ensures b.scale <= f.depth ==> 4 * b.significand == Shifted(4 * i, f.depth - b.scale)
    ensures b.scale > f.depth ==> 4 * i == Shifted(4 * b.significand, b.scale - f.depth)
  {
    if b.scale <= f.depth {
      ShiftedTwice(4 * i, b.scale, f.depth - b.scale);
      ShiftedOrder(4 * b.significand, Shifted(4 * i, f.depth - b.scale), b.scale);
    } else {
      ShiftedTwice(4 * b.significand, f.depth, b.scale - f.depth);
      ShiftedOrder(4 * i, Shifted(4 * b.significand, b.scale - f.depth), f.depth);
    }
  }

  lemma ShiftedBy(m: nat, n: nat)
    ensures n == 1 ==> Shifted(m, n) == 2 * m
    ensures n >= 2 ==> Shifted(m, n) >= 4 * m
  {
    assert Shifted(m, 1) == 2 * m && Shifted(m, 2) == 4 * m;
    if n >= 2 {
      ShiftedFurther(m, 2, n);
    }
  }

  /** An integer below 2^precision has steps of at most 1 around it; at 2^precision the step is 2. */
  lemma StepAround(f: Format, b: Binary, i: nat)
    requires f.precision >= 1 && InFormat(f, b) && HoldsInteger(f, b, i) && i <= Pow2(f.precision)
    ensures i < Pow2(f.precision) ==> b.scale <= f.depth
    ensures i == Pow2(f.precision) ==> b.scale == f.depth + 1 && b.significand == Pow2(f.precision - 1)
  {
    SignificandOf(f, b, i);
    Doubled(f.precision);
    if b.scale > f.depth {
      ShiftedBy(4 * b.significand, b.scale - f.depth);
    }
  }

  lemma Halfways(f: Format, b: Binary)
    requires f.precision >= 1
    ensures High(b) == Quarters(b) + Shifted(2, b.scale)
    ensures Low(f, b) == Quarters(b) - Shifted(4 * b.significand - Below(f, b), b.scale)
  {
    ShiftedSum(4 * b.significand, 2, b.scale);
    ShiftedSum(Below(f, b), 4 * b.significand - Below(f, b), b.scale);
  }

  /** Half of 1, in quarters. */
  lemma Halves(f: Format, i: int)
    ensures QuartersIn(f, 1) == 2 * Shifted(2, f.depth)
    ensures Shifted(4 * i - 2, f.depth) == QuartersIn(f, i) - Shifted(2, f.depth)
    ensures Shifted(4 * i + 2, f.depth) == QuartersIn(f, i) + Shifted(2, f.depth)
    ensures Shifted(4 * i + 4, f.depth) == QuartersIn(f, i) + QuartersIn(f, 1)
  {
    ShiftedSum(2, 2, f.depth);
    ShiftedSum(4 * i - 2, 2, f.depth);
    ShiftedSum(4 * i, 2, f.depth);
    ShiftedSum(4 * i, 4, f.depth);
  }

  lemma IntervalBelow(f: Format, b: Binary, i: nat)
    requires f.precision >= 1 && HoldsInteger(f, b, i) && b.scale <= f.depth
    ensures Shifted(4 * i - 2, f.depth) <= Low(f, b) && High(b) <= Shifted(4 * i + 2, f.depth)
  {
    Halfways(f, b);
    Halves(f, i);
    ShiftedFurther(2, b.scale, f.depth);
    ShiftedOrder(4 * b.significand - Below(f, b), 2, b.scale);
  }

  lemma IntervalAt(f: Format, b: Binary, i: nat)
    requires f.precision >= 1 && HoldsInteger(f, b, i)
    requires b.scale == f.depth + 1 && b.significand == Pow2(f.precision - 1)
    ensures Shifted(4 * i - 2, f.depth) <= Low(f, b) && High(b) <= Shifted(4 * i + 4, f.depth)
  {
    Halfways(f, b);
    Halves(f, i);
    ShiftedTwice(1, f.depth, 1);
    ShiftedTwice(2, f.depth, 1);
    assert Shifted(1, 1) == 2 && Shifted(2, 1) == 4;
  }

  /** The rounding interval of an integer, as far as it matters. */
  lemma IntervalOfInteger(f: Format, b: Binary, i: nat)
    requires f.precision >= 1 && InFormat(f, b) && HoldsInteger(f, b, i) && i <= Pow2(f.precision)
    ensures Shifted(4 * i - 2, f.depth) <= Low(f, b)
    ensures High(b) <= Shifted(4 * i + if i < Pow2(f.precision) then 2 else 4, f.depth)
  {
    StepAround(f, b, i);
    if i < Pow2(f.precision) {
      IntervalBelow(f, b, i);
    } else {
      IntervalAt(f, b, i);
    }
  }

  /** Quarters compare as the numbers they count. */
  lemma QuartersOrder(f: Format, d: real, q: int)
    ensures RealQuarters(f, d) < Shifted(q, f.depth) as real <==> d < q as real / 4.0
    ensures RealQuarters(f, d) > Shifted(q, f.depth) as real <==> d > q as real / 4.0
  {
    ShiftedAsReal(q, f.depth);
    ShiftedRealOrder(4.0 * d, q as real, f.depth);
    ShiftedRealOrder(q as real, 4.0 * d, f.depth);
  }

  /** Whatever reads as the integer i lies within half of it, or just above it at 2^precision. */
  lemma WithinHalf(f: Format, b: Binary, i: nat, d: real)
    requires f.precision >= 1 && InFormat(f, b) && HoldsInteger(f, b, i) && i <= Pow2(f.precision)
    requires Rounds(f, d, b)
    ensures i as real - 0.5 <= d <= i as real + if i < Pow2(f.precision) then 0.5 else 1.0
  {
    var up := 4 * i + if i < Pow2(f.precision) then 2 else 4;
    IntervalOfInteger(f, b, i);
    QuartersOrder(f, d, 4 * i - 2);
    QuartersOrder(f, d, up);
  }

  lemma SignificandOfOne(f: Format, b: Binary)
    requires Wide(f) && InFormat(f, b) && HoldsInteger(f, b, 1)
    ensures b.significand >= 8
  {
    if b.scale > 0 {
      Pow2Monotone(3, f.precision - 1);
    } else {
      SignificandOf(f, b, 1);
      ShiftedFurther(4, 4, f.depth);
      assert Shifted(4, 4) == 4 * Shifted(4, 2);
    }
  }

  lemma {:induction false} ShiftedTimes(k: int, m: int, n: nat)
    ensures Shifted(k * m, n) == k * Shifted(m, n)
  {
    if n > 0 {
      ShiftedTimes(k, m, n - 1);
      assert k * (2 * Shifted(m, n - 1)) == 2 * (k * Shifted(m, n - 1));
    }
  }

  lemma LowTenths(f: Format, b: Binary)
    requires f.precision >= 1 && b.significand >= 8
    ensures 10 * Low(f, b) > 9 * Quarters(b)
  {
    ShiftedTimes(10, Below(f, b), b.scale);
    ShiftedTimes(9, 4 * b.significand, b.scale);
    ShiftedOrder(9 * (4 * b.significand), 10 * Below(f, b), b.scale);
  }

  /** Nothing up to nine tenths reads as 1. */
  lemma NearOne(f: Format, b: Binary, d: real)
    requires Wide(f) && InFormat(f, b) && HoldsInteger(f, b, 1) && Rounds(f, d, b)
    ensures d > 0.9
  {
    SignificandOfOne(f, b);
    LowTenths(f, b);
    ShiftedAsReal(4, f.depth);
    TenReals(4.0 * d, f.depth);
    ShiftedTimes(9, 4, f.depth);
    ShiftedAsReal(36, f.depth);
    ShiftedRealOrder(36.0, 40.0 * d, f.depth);
  }

  lemma {:induction false} TenReals(d: real, n: nat)
    ensures ShiftedReal(10.0 * d, n) == 10.0 * ShiftedReal(d, n)
  {
    if n > 0 {
      TenReals(d, n - 1);
    }
  }

  // ---- decimals an integer has anyway ---------------------------------------------------------

  /** The integer's own digits. */
  function Whole(i: nat): Float {
    Finite(false, Itoa(i), |Itoa(i)| - 1)
  }

  lemma WholeHolds(i: nat)
    requires i > 0
    ensures WellFormed(Whole(i)) && Magnitude(Whole(i).mantissa, Whole(i).exp) == i as real
    ensures DigitCount(Whole(i)) <= |Itoa(i)|
    ensures Pow10(|Itoa(i)| - 1) <= i < Pow10(|Itoa(i)|)
  {
    ItoaLeads(i);
    ItoaNat(i);
    NatPrefixBound(Itoa(i), |Itoa(i)|);
    assert RealPow10(0) == 1.0;
  }

  lemma PowerHolds(k: nat)
    ensures var x := Finite(false, "1", k);
      WellFormed(x) && DigitCount(x) == 1 && Magnitude(x.mantissa, x.exp) == Pow10(k) as real
  {
    RealPow10Nat(k);
    assert NatPrefix("1", 0) == 0 && NatOf("1") == 1;
  }

  lemma IntegerRounds(f: Format, b: Binary, i: nat)
    requires f.precision >= 1 && HoldsInteger(f, b, i)
    ensures Rounds(f, i as real, b) && RealQuarters(f, i as real) == Quarters(b) as real
  {
    Halfways(f, b);
    ShiftedAsReal(4 * i, f.depth);
    ShiftedOrder(0, 4 * b.significand - Below(f, b), b.scale);
    ShiftedZero(b.scale);
  }

  lemma {:induction false} ShiftedZero(n: nat)
    ensures Shifted(0, n) == 0
  {
    if n > 0 {
      ShiftedZero(n - 1);
    }
  }

  ghost predicate Spells(x: Float, d: real) {
    x.Finite? && WellFormed(x) && !x.negative && Magnitude(x.mantissa, x.exp) == d
  }

  lemma IntegerReads(f: Format, b: Binary, i: nat, x: Float)
    requires f.precision >= 1 && HoldsInteger(f, b, i) && Spells(x, i as real)
    ensures ReadsAs(f, x, b) && Distance(f, x, b) == 0.0
  {
    IntegerRounds(f, b, i);
  }

  // ---- the digits of a small integer are its own -------------------------------------------------

  lemma Trimmed(x: Float)
    requires x.Finite? && WellFormed(x)
    ensures var t := TrimRightZeros(x.mantissa);
      IsAllDigits(t) && t[0] != '0' && t[|t| - 1] != '0' && Magnitude(t, x.exp) == Magnitude(x.mantissa, x.exp)
  {
    TrimRightMagnitude(x.mantissa, x.exp);
  }

  /** A fraction has more digits than its integer part. */
  lemma FractionDigits(x: Float, n: nat)
    requires x.Finite? && WellFormed(x) && !IsWhole(Magnitude(x.mantissa, x.exp)) && DigitCount(x) <= n
    ensures n >= 1 && DigitCount(x) >= 1 && x.exp + 1 < DigitCount(x)
    ensures Magnitude(x.mantissa, x.exp) < RealPow10(n - 1)
  {
    Trimmed(x);
    WholeExactly(TrimRightZeros(x.mantissa), x.exp + 1);
    MagnitudeRange(x.mantissa, x.exp);
    PowerOrder(n - 1, x.exp + 1);
  }

  lemma OneDigit(x: Float)
    requires x.Finite? && WellFormed(x) && DigitCount(x) == 1 && x.exp <= -1
    ensures Magnitude(x.mantissa, x.exp) <= 0.9
  {
    Trimmed(x);
    var t := TrimRightZeros(x.mantissa);
    assert NatPrefix(t, 0) == 0 && NatOf(t) <= 9;
    ScalesUp(NatOf(t), 9, x.exp);
    PowerOrder(-1, x.exp);
    assert RealPow10(-1) == 0.1 && RealPow10(x.exp) <= 0.1;
  }

  lemma ShortestIsNoLonger(f: Format, b: Binary, i: nat, x: Float, y: Float)
    requires f.precision >= 1 && HoldsInteger(f, b, i) && Shortest(f, x, b) && Spells(y, i as real)
    ensures DigitCount(x) <= DigitCount(y)
  {
    IntegerReads(f, b, i, y);
  }

  lemma SqueezedPower(i: nat, d: real, p: nat)
    requires i as real - 0.5 <= d < p as real && p <= i
    ensures i == p
  {
  }

  lemma FractionIsBelow(f: Format, b: Binary, i: nat, x: Float) returns (n: nat)
    requires f.precision >= 1 && InFormat(f, b) && HoldsInteger(f, b, i) && 0 < i <= Pow2(f.precision)
    requires Shortest(f, x, b) && !IsWhole(Magnitude(x.mantissa, x.exp))
    ensures i == Pow10(n)
  {
    WholeHolds(i);
    ShortestIsNoLonger(f, b, i, x, Whole(i));
    n := |Itoa(i)| - 1;
    FractionDigits(x, n + 1);
    RealPow10Nat(n);
    WithinHalf(f, b, i, Magnitude(x.mantissa, x.exp));
    SqueezedPower(i, Magnitude(x.mantissa, x.exp), Pow10(n));
  }

  /** A fraction among the shortest digits leaves room for a single digit only. */
  lemma FractionNeedsPower(f: Format, b: Binary, i: nat, x: Float)
    requires f.precision >= 1 && InFormat(f, b) && HoldsInteger(f, b, i) && 0 < i <= Pow2(f.precision)
    requires Shortest(f, x, b) && !IsWhole(Magnitude(x.mantissa, x.exp))
    ensures DigitCount(x) == 1 && x.exp <= -1
  {
    var n := FractionIsBelow(f, b, i, x);
    PowerHolds(n);
    ShortestIsNoLonger(f, b, i, x, Finite(false, "1", n));
    FractionDigits(x, 1);
  }

  lemma ShortestIsWhole(f: Format, b: Binary, i: nat, x: Float)
    requires Wide(f) && InFormat(f, b) && HoldsInteger(f, b, i) && 0 < i <= Pow2(f.precision)
    requires Shortest(f, x, b)
    ensures IsWhole(Magnitude(x.mantissa, x.exp))
  {
    if !IsWhole(Magnitude(x.mantissa, x.exp)) {
      FractionNeedsPower(f, b, i, x);
      OneDigit(x);
      WithinHalf(f, b, i, Magnitude(x.mantissa, x.exp));
      NearOne(f, b, Magnitude(x.mantissa, x.exp));
    }
  }

  lemma OddDigits(x: Float, i: nat)
    requires Spells(x, i as real) && i % 2 == 1
    ensures DigitCount(x) == |Itoa(i)|
  {
    WholeHolds(i);
    LastDigit(Itoa(i));
    ItoaNat(i);
    Trimmed(x);
    NormalFormUnique(TrimRightZeros(x.mantissa), x.exp, Itoa(i), |Itoa(i)| - 1);
  }

  lemma LongerItoa(i: nat)
    requires i > 0
    ensures |Itoa(i)| <= |Itoa(i + 1)|
  {
    var m, n := |Itoa(i)|, |Itoa(i + 1)|;
    WholeHolds(i);
    WholeHolds(i + 1);
    if n < m {
      Pow10Monotone(n, m - 1);
    }
  }

  lemma OwnDigitsAsShort(f: Format, b: Binary, i: nat, x: Float)
    requires f.precision >= 1 && HoldsInteger(f, b, i) && i > 0 && Shortest(f, x, b) && Nearest(f, x, b)
    requires |Itoa(i)| <= DigitCount(x)
    ensures Distance(f, x, b) <= 0.0
  {
    WholeHolds(i);
    IntegerReads(f, b, i, Whole(i));
  }

  lemma NextIsApart(f: Format, b: Binary, i: nat, x: Float)
    requires HoldsInteger(f, b, i) && Spells(x, (i + 1) as real)
    ensures Distance(f, x, b) > 0.0
  {
    ShiftedAsReal(4 * (i + 1), f.depth);
    ShiftedOrder(4 * i, 4 * (i + 1), f.depth);
  }

  lemma NextIsOdd(f: Format, i: nat, x: Float)
    requires f.precision >= 1 && i == Pow2(f.precision) && Spells(x, (i + 1) as real)
    ensures |Itoa(i)| <= DigitCount(x)
  {
    Doubled(f.precision);
    OddDigits(x, i + 1);
    LongerItoa(i);
  }

  /** At 2^precision, the integer above also reads back, but it is not nearer and not shorter. */
  lemma NotTheNext(f: Format, b: Binary, i: nat, x: Float)
    requires Wide(f) && HoldsInteger(f, b, i) && i == Pow2(f.precision)
    requires Shortest(f, x, b) && Nearest(f, x, b)
    ensures Magnitude(x.mantissa, x.exp) != (i + 1) as real
  {
    if Magnitude(x.mantissa, x.exp) == (i + 1) as real {
      NextIsOdd(f, i, x);
      OwnDigitsAsShort(f, b, i, x);
      NextIsApart(f, b, i, x);
    }
  }

  lemma WholeNear(m: real, i: nat, up: real)
    requires IsWhole(m) && i as real - 0.5 <= m <= i as real + up && up <= 1.0 && m != (i + 1) as real
    ensures m == i as real
  {
    var j: nat :| Is(m, j);
    assert j < i ==> j as real <= i as real - 1.0;
    assert j > i + 1 ==> j as real >= i as real + 2.0;
  }

  /**
   * Up to 2^precision the shortest digits of an integer spell that very integer: below it any
   * shortest digits do, at it the nearest of them.
   */
  lemma SmallIntegerDigits(f: Format, b: Binary, i: nat, x: Float)
    requires Wide(f) && InFormat(f, b) && HoldsInteger(f, b, i) && 0 < i <= Pow2(f.precision)
    requires Shortest(f, x, b) && (i == Pow2(f.precision) ==> Nearest(f, x, b))
    ensures Magnitude(x.mantissa, x.exp) == i as real
  {
    ShortestIsWhole(f, b, i, x);
    WithinHalf(f, b, i, Magnitude(x.mantissa, x.exp));
    if i == Pow2(f.precision) {
      NotTheNext(f, b, i, x);
    }
    WholeNear(Magnitude(x.mantissa, x.exp), i, if i < Pow2(f.precision) then 0.5 else 1.0);
  }

  // ---- beyond it they need not be -----------------------------------------------------------------

  const LARGE := 18014398509481992
  const LARGE_DIGITS := Finite(false, "1801439850948199", 16)

  /** 2^54 + 8, which 53 bits hold. */
  function Large(f: Format): Binary {
    Binary(LARGE / 4, f.depth + 2)
  }

  lemma Pow2Fourth(n: nat)
    ensures Pow2(n + 4) == 16 * Pow2(n)
  {
    assert Pow2(n + 2) == 2 * Pow2(n + 1);
    assert Pow2(n + 4) == 2 * Pow2(n + 3);
  }

  lemma Pow2Sixteenth(n: nat)
    ensures Pow2(n + 16) == 0x1_0000 * Pow2(n)
  {
    Pow2Fourth(n);
    Pow2Fourth(n + 4);
    Pow2Fourth(n + 8);
    Pow2Fourth(n + 12);
  }

  lemma FiftyTwoBits()
    ensures Pow2(52) == 0x10_0000_0000_0000
  {
    Pow2Fourth(0);
    Pow2Sixteenth(4);
    Pow2Sixteenth(20);
    Pow2Sixteenth(36);
    assert Pow2(0) == 1;
  }

  lemma LargeHeld(f: Format)
    requires f.precision == 53
    ensures InFormat(f, Large(f)) && HoldsInteger(f, Large(f), LARGE)
    ensures Low(f, Large(f)) == QuartersIn(f, LARGE - 2) && High(Large(f)) == QuartersIn(f, LARGE + 2)
  {
    FiftyTwoBits();
    Doubled(53);
    TwoFurther(LARGE, f.depth);
    TwoFurther(LARGE - 2, f.depth);
    TwoFurther(LARGE + 2, f.depth);
  }

  lemma TwoFurther(m: int, n: nat)
    ensures Shifted(m, n + 2) == Shifted(4 * m, n)
  {
    ShiftedTwice(m, n, 2);
    assert Shifted(m, 1) == 2 * m && Shifted(m, 2) == 4 * m;
  }

  lemma Pow10Fourth(n: nat)
    ensures Pow10(n + 4) == 1_0000 * Pow10(n)
  {
    assert Pow10(n + 2) == 10 * Pow10(n + 1);
    assert Pow10(n + 4) == 10 * Pow10(n + 3);
  }

  lemma FourDigits(s: string)
    requires |s| == 4 && AllDigits(s)
    ensures NatOf(s) == 1000 * DigitValue(s[0]) + 100 * DigitValue(s[1]) + 10 * DigitValue(s[2]) + DigitValue(s[3])
  {
    assert NatPrefix(s, 0) == 0 && NatPrefix(s, 1) == DigitValue(s[0]);
    assert NatPrefix(s, 2) == 10 * NatPrefix(s, 1) + DigitValue(s[1]);
    assert NatPrefix(s, 3) == 10 * NatPrefix(s, 2) + DigitValue(s[2]);
  }

  lemma AppendFour(s: string, t: string)
    requires AllDigits(s) && AllDigits(t) && |t| == 4
    ensures AllDigits(s + t) && NatOf(s + t) == 1_0000 * NatOf(s) + NatOf(t)
  {
    NatOfConcat(s, t);
    Pow10Fourth(0);
    assert Pow10(0) == 1;
  }

  /** All that reads as it lies within 2 of it, both ends included. */
  lemma LargeRounds(f: Format, d: real)
    requires f.precision == 53
    ensures Rounds(f, d, Large(f)) <==> (LARGE - 2) as real <= d <= (LARGE + 2) as real
  {
    LargeHeld(f);
    QuartersOrder(f, d, 4 * (LARGE - 2));
    QuartersOrder(f, d, 4 * (LARGE + 2));
  }

  lemma LargePowers()
    ensures RealPow10(16) == 1_0000_0000_0000_0000.0 && RealPow10(17) == 10_0000_0000_0000_0000.0
  {
    assert Pow10(0) == 1;
    Pow10Fourth(0);
    Pow10Fourth(4);
    Pow10Fourth(8);
    Pow10Fourth(12);
    RealPow10Nat(16);
    RealPow10Step(16);
  }

  lemma LargeExponent(x: Float)
    requires x.Finite? && WellFormed(x)
    requires (LARGE - 2) as real <= Magnitude(x.mantissa, x.exp) <= (LARGE + 2) as real
    ensures x.exp == 16
  {
    MagnitudeRange(x.mantissa, x.exp);
    LargePowers();
    PowerOrder(16, x.exp + 1);
    PowerOrder(x.exp, 17);
  }

  /** Fewer than sixteen digits would make it a multiple of a hundred. */
  lemma LargeNeedsSixteen(x: Float)
    requires x.Finite? && WellFormed(x)
    requires (LARGE - 2) as real <= Magnitude(x.mantissa, x.exp) <= (LARGE + 2) as real
    ensures DigitCount(x) >= 16
  {
    LargeExponent(x);
    Trimmed(x);
    var t := TrimRightZeros(x.mantissa);
    if |t| <= 15 {
      WholeValue(t, 17);
      Hundreds(NatOf(t), 17 - |t|);
    }
  }

  lemma Hundreds(n: nat, k: nat)
    requires k >= 2
    ensures n * Pow10(k) < LARGE - 2 || n * Pow10(k) > LARGE + 2
  {
    assert Pow10(k) == 100 * Pow10(k - 2);
    var j := n * Pow10(k - 2);
    assert n * Pow10(k) == 100 * j;
  }

  lemma EightDigits(s: string, t: string)
    requires |s| == 4 && |t| == 4 && AllDigits(s) && AllDigits(t)
    ensures AllDigits(s + t) && NatOf(s + t) == 1_0000 * NatOf(s) + NatOf(t)
    ensures NatOf(s) == 1000 * DigitValue(s[0]) + 100 * DigitValue(s[1]) + 10 * DigitValue(s[2]) + DigitValue(s[3])
    ensures NatOf(t) == 1000 * DigitValue(t[0]) + 100 * DigitValue(t[1]) + 10 * DigitValue(t[2]) + DigitValue(t[3])
  {
    FourDigits(s);
    FourDigits(t);
    AppendFour(s, t);
  }

  lemma LargeLeft()
    ensures AllDigits("18014398") && NatOf("18014398") == 18014398
  {
    EightDigits("1801", "4398");
    assert "1801" + "4398" == "18014398";
  }

  lemma LargeRight()
    ensures AllDigits("50948199") && NatOf("50948199") == 50948199
  {
    EightDigits("5094", "8199");
    assert "5094" + "8199" == "50948199";
  }

  lemma LargeDigitsNumber()
    ensures SixteenOf(LARGE_DIGITS, (LARGE - 2) / 10)
  {
    LargeLeft();
    LargeRight();
    NatOfConcat("18014398", "50948199");
    Pow10Fourth(0);
    Pow10Fourth(4);
    assert Pow10(0) == 1;
    assert LARGE_DIGITS.mantissa == "18014398" + "50948199";
  }

  /** Sixteen digits, the point after the first, spelling n at the last digit but one of an integer. */
  ghost predicate SixteenOf(x: Float, n: nat) {
    && x.Finite? && !x.negative && x.exp == 16
    && |x.mantissa| == 16 && IsAllDigits(x.mantissa) && x.mantissa[0] != '0' && x.mantissa[15] != '0'
    && NatOf(x.mantissa) == n
  }

  lemma SeventeenPlaces(x: Float, n: nat)
    requires SixteenOf(x, n)
    ensures WellFormed(x) && DigitCount(x) == 16 && Magnitude(x.mantissa, x.exp) == (n * 10) as real
  {
    WholeValue(x.mantissa, 17);
    assert Pow10(1) == 10 * Pow10(0);
  }

  /** Its shortest digits spell the integer two below. */
  lemma LargeShortest(f: Format, x: Float)
    requires f.precision == 53 && SixteenOf(x, (LARGE - 2) / 10)
    ensures Shortest(f, x, Large(f)) && Canonical(x) == x.mantissa + "0"
  {
    SeventeenPlaces(x, (LARGE - 2) / 10);
    LargeRounds(f, (LARGE - 2) as real);
    forall y | ReadsAs(f, y, Large(f)) ensures DigitCount(y) >= 16 {
      LargeRounds(f, Magnitude(y.mantissa, y.exp));
      LargeNeedsSixteen(y);
    }
    assert Canonical(x) == x.mantissa + Zeros(1);
  }
}
