/**
 * The integers between 2^53 and the first that a 64-bit float does not spell (canonical_number.go:28-41):
 * the steps there are 2 and 4, but no decimal nearby is short enough to be preferred.
 */
module IntegerBound {
  import opened Arithmetic
  import opened CanonicalNumber
  import opened IntegerDigits
  import opened ShortestDigits
  import opened Text

  // ---- how coarse the floats are there ------------------------------------------------

  lemma ShiftedSmall(m: nat, n: nat)
    ensures n == 1 ==> Shifted(m, n) == 2 * m
    ensures n == 2 ==> Shifted(m, n) == 4 * m
    ensures n >= 3 ==> Shifted(m, n) >= 8 * m
  {
    assert Shifted(m, 1) == 2 * m && Shifted(m, 2) == 4 * m;
    assert Shifted(m, 3) == 2 * Shifted(m, 2);
    if n >= 3 {
      ShiftedFurther(m, 3, n);
    }
  }

  /** An integer held from 2^precision on is twice or four times its significand. */
  lemma CoarseScale(f: Format, b: Binary, i: nat)
    requires f.precision >= 1 && InFormat(f, b) && HoldsInteger(f, b, i)
    requires Pow2(f.precision) <= i < 4 * Pow2(f.precision)
    ensures i < 2 * Pow2(f.precision) ==> b.scale == f.depth + 1 && i == 2 * b.significand
    ensures i >= 2 * Pow2(f.precision) ==> b.scale == f.depth + 2 && i == 4 * b.significand
  {
    SignificandOf(f, b, i);
    Doubled(f.precision);
    if b.scale > f.depth {
      ShiftedSmall(4 * b.significand, b.scale - f.depth);
    }
  }

  lemma OneFurther(m: int, n: nat)
    ensures Shifted(m, n + 1) == Shifted(2 * m, n)
  {
    ShiftedTwice(m, n, 1);
    assert Shifted(m, 1) == 2 * Shifted(m, 0);
  }

  /** Steps of 2: whatever reads as i lies within 1 of it. */
  lemma WithinOne(f: Format, b: Binary, i: nat, d: real)
    requires f.precision >= 1 && b.scale == f.depth + 1 && i == 2 * b.significand && Rounds(f, d, b)
    ensures i as real - 1.0 <= d <= i as real + 1.0
  {
    OneFurther(4 * b.significand + 2, f.depth);
    OneFurther(Below(f, b), f.depth);
    QuartersOrder(f, d, 4 * i + 4);
    QuartersOrder(f, d, 2 * Below(f, b));
  }

  lemma BelowByFours(f: Format, b: Binary, d: real)
    requires f.precision >= 1 && b.scale == f.depth + 2 && Rounds(f, d, b)
    ensures Below(f, b) as real <= d && (b.significand % 2 == 1 ==> (Below(f, b) as real) < d)
  {
    TwoFurther(Below(f, b), f.depth);
    QuartersOrder(f, d, 4 * Below(f, b));
  }

  lemma AboveByFours(f: Format, b: Binary, d: real)
    requires f.precision >= 1 && b.scale == f.depth + 2 && Rounds(f, d, b)
    ensures d <= (4 * b.significand + 2) as real && (b.significand % 2 == 1 ==> d < (4 * b.significand + 2) as real)
  {
    TwoFurther(4 * b.significand + 2, f.depth);
    QuartersOrder(f, d, 4 * (4 * b.significand + 2));
  }

  /** Steps of 4: within 2, without the ends for an odd significand; a power of two is nearer below. */
  lemma WithinTwo(f: Format, b: Binary, i: nat, d: real)
    requires f.precision >= 1 && b.scale == f.depth + 2 && i == 4 * b.significand && Rounds(f, d, b)
    ensures i as real - 2.0 <= d <= i as real + 2.0
    ensures b.significand % 2 == 1 ==> i as real - 2.0 < d < i as real + 2.0
    ensures b.significand == Pow2(f.precision - 1) ==> i as real - 1.0 <= d
  {
    BelowByFours(f, b, d);
    AboveByFours(f, b, d);
  }

  // ---- no fraction is short enough -------------------------------------------------------

  /** A power of ten can be told by one digit, so nothing longer stands for it. */
  lemma PowerIsShort(f: Format, b: Binary, i: nat, x: Float, n: nat)
    requires f.precision >= 1 && HoldsInteger(f, b, i) && Shortest(f, x, b) && i == Pow10(n)
    ensures DigitCount(x) <= 1
  {
    PowerHolds(n);
    ShortestIsNoLonger(f, b, i, x, Finite(false, "1", n));
  }

  lemma TenDividesPower(n: nat)
    requires n >= 1
    ensures Pow10(n) % 2 == 0
  {
    var p := Pow10(n - 1);
    assert Pow10(n) == 2 * (5 * p);
  }

  /** The only even integer at most, and not two above, a power of ten it reaches is that power. */
  lemma EvenSqueeze(i: nat, d: real, n: nat)
    requires i % 2 == 0 && i >= 12 && i as real - 2.0 < d < Pow10(n) as real && Pow10(n) <= i
    ensures i == Pow10(n)
  {
    if n >= 1 {
      TenDividesPower(n);
    }
  }

  lemma NoFraction(f: Format, b: Binary, i: nat, x: Float)
    requires f.precision >= 1 && HoldsInteger(f, b, i) && Shortest(f, x, b)
    requires i % 2 == 0 && i >= 12 && Magnitude(x.mantissa, x.exp) > i as real - 2.0
    ensures IsWhole(Magnitude(x.mantissa, x.exp))
  {
    if !IsWhole(Magnitude(x.mantissa, x.exp)) {
      WholeHolds(i);
      ShortestIsNoLonger(f, b, i, x, Whole(i));
      var n := |Itoa(i)| - 1;
      FractionDigits(x, n + 1);
      RealPow10Nat(n);
      EvenSqueeze(i, Magnitude(x.mantissa, x.exp), n);
      PowerIsShort(f, b, i, x, n);
      FractionDigits(x, 1);
    }
  }

  // ---- nor is another integer, unless it ends in a zero -----------------------------------------

  lemma UnroundDigits(x: Float, j: nat)
    requires Spells(x, j as real) && j % 10 != 0
    ensures DigitCount(x) == |Itoa(j)|
  {
    WholeHolds(j);
    LastDigit(Itoa(j));
    ItoaNat(j);
    Trimmed(x);
    NormalFormUnique(TrimRightZeros(x.mantissa), x.exp, Itoa(j), |Itoa(j)| - 1);
  }

  lemma NoDistance(f: Format, b: Binary, i: nat, x: Float, j: nat)
    requires HoldsInteger(f, b, i) && Spells(x, j as real) && Distance(f, x, b) <= 0.0
    ensures i == j
  {
    ShiftedAsReal(4 * j, f.depth);
    ShiftedOrder(4 * i, 4 * j, f.depth);
  }

  /** Other digits are preferred only if they are fewer. */
  lemma OthersAreFewer(f: Format, b: Binary, i: nat, x: Float, j: nat)
    requires f.precision >= 1 && HoldsInteger(f, b, i) && i > 0 && Shortest(f, x, b) && Nearest(f, x, b)
    requires Spells(x, j as real) && j != i
    ensures DigitCount(x) < |Itoa(i)|
  {
    WholeHolds(i);
    IntegerReads(f, b, i, Whole(i));
    if DigitCount(x) == DigitCount(Whole(i)) {
      NoDistance(f, b, i, x, j);
    }
  }

  lemma FewerIsBelow(i: nat, j: nat)
    requires i > 0 && j > 0 && |Itoa(j)| < |Itoa(i)|
    ensures j < Pow10(|Itoa(i)| - 1) <= i
  {
    WholeHolds(i);
    WholeHolds(j);
    Pow10Monotone(|Itoa(j)|, |Itoa(i)| - 1);
  }

  lemma OthersAreRound(f: Format, b: Binary, i: nat, x: Float, j: nat)
    requires f.precision >= 1 && HoldsInteger(f, b, i) && Shortest(f, x, b) && Nearest(f, x, b)
    requires i % 2 == 0 && i >= 12 && Spells(x, j as real) && j != i && j > i - 2
    ensures j % 10 == 0
  {
    if j % 10 != 0 {
      UnroundDigits(x, j);
      OthersAreFewer(f, b, i, x, j);
      FewerIsBelow(i, j);
      var n := |Itoa(i)| - 1;
      EvenSqueeze(i, j as real, n);
      PowerIsShort(f, b, i, x, n);
      WholeHolds(j);
    }
  }

  // ---- up to the first that parts ------------------------------------------------------------------

  lemma BetweenSteps(f: Format, b: Binary, i: nat, d: real)
    requires f.precision == 53 && InFormat(f, b) && HoldsInteger(f, b, i) && Rounds(f, d, b)
    requires Pow2(53) < i < LARGE
    ensures i % 2 == 0 && i as real - 2.0 < d
    ensures i < 2 * Pow2(53) ==> i as real - 1.0 <= d <= i as real + 1.0
    ensures i >= 2 * Pow2(53) ==> (i == LARGE - 8 || i == LARGE - 4) && d <= i as real + 2.0
    ensures i == LARGE - 8 ==> i as real - 1.0 <= d
    ensures i == LARGE - 4 ==> d < i as real + 2.0
  {
    FiftyTwoBits();
    Doubled(53);
    CoarseScale(f, b, i);
    if i < 2 * Pow2(53) {
      WithinOne(f, b, i, d);
    } else {
      WithinTwo(f, b, i, d);
    }
  }

  lemma NextToEven(i: nat, j: nat)
    requires i % 2 == 0 && j % 10 == 0 && i - 1 <= j <= i + 1
    ensures j == i
  {
    var half := j / 10;
    assert j == 2 * (5 * half);
  }

  lemma NoTenNearby(i: nat, j: nat)
    requires i == LARGE - 8 || i == LARGE - 4
    requires i - 1 <= j <= i + 2 && (i == LARGE - 4 ==> j < i + 2)
    ensures j % 10 != 0
  {
    var tens := LARGE / 10;
    assert LARGE == 10 * tens + 2;
    assert 10 * tens - 10 < j < 10 * tens;
  }

  /** Below 18014398509481992 the nearest of the shortest digits of an integer above 2^53 spell it. */
  lemma LargerIntegerDigits(f: Format, b: Binary, i: nat, x: Float)
    requires f.precision == 53 && InFormat(f, b) && HoldsInteger(f, b, i) && Pow2(53) < i < LARGE
    requires Shortest(f, x, b) && Nearest(f, x, b)
    ensures Magnitude(x.mantissa, x.exp) == i as real
  {
    var d := Magnitude(x.mantissa, x.exp);
    BetweenSteps(f, b, i, d);
    Pow2Monotone(4, 53);
    assert Pow2(4) == 4 * Pow2(2);
    NoFraction(f, b, i, x);
    var j: nat :| Is(d, j);
    if j != i {
      OthersAreRound(f, b, i, x, j);
      if i < 2 * Pow2(53) {
        NextToEven(i, j);
      } else {
        NoTenNearby(i, j);
      }
    }
  }

  // ---- and at it ---------------------------------------------------------------------------------------

  lemma SixteenIsTens(y: Float)
    requires y.Finite? && WellFormed(y) && DigitCount(y) == 16
    requires (LARGE - 2) as real <= Magnitude(y.mantissa, y.exp) <= (LARGE + 2) as real
    ensures Magnitude(y.mantissa, y.exp) == (LARGE - 2) as real
  {
    LargeExponent(y);
    Trimmed(y);
    WholeValue(TrimRightZeros(y.mantissa), 17);
    assert Pow10(1) == 10 * Pow10(0);
  }

  /** Sixteen digits leave no choice. */
  lemma LargeNearest(f: Format, x: Float)
    requires f.precision == 53 && SixteenOf(x, (LARGE - 2) / 10)
    ensures Shortest(f, x, Large(f)) && Nearest(f, x, Large(f))
  {
    LargeShortest(f, x);
    SeventeenPlaces(x, (LARGE - 2) / 10);
    forall y | ReadsAs(f, y, Large(f)) && DigitCount(y) == DigitCount(x)
      ensures Distance(f, x, Large(f)) <= Distance(f, y, Large(f))
    {
      LargeRounds(f, Magnitude(y.mantissa, y.exp));
      SixteenIsTens(y);
    }
  }
}
