/**
 * The digits a float is spelled with (canonical_number.go:28-32): a float has an exact binary
 * value, and its shortest digits are a decimal with as few digits as any that rounds back to it.
 */
module ShortestDigits {
  import opened Arithmetic
  import opened CanonicalNumber

  /**
   * A binary format: precision bits, and least exponent -depth; 53 and 1074 for 64 bits, 24 and
   * 149 for 32. Its largest exponent plays no part here.
   */
  datatype Format = Format(precision: nat, depth: nat)

  /** A positive finite value: significand x 2^(scale - depth). */
  datatype Binary = Binary(significand: nat, scale: nat)

  predicate Wide(f: Format) {
    f.precision >= 4 && f.depth >= 4
  }

  /** Normal, or subnormal at the least exponent. */
  predicate InFormat(f: Format, b: Binary)
    requires f.precision >= 1
  {
    0 < b.significand < Pow2(f.precision) && (b.scale > 0 ==> b.significand >= Pow2(f.precision - 1))
  }

  // ---- rounding, counted in quarters of the least unit ---------------------------------

  function Quarters(b: Binary): nat {
    Shifted(4 * b.significand, b.scale)
  }

  /** Quarters in i. */
  function QuartersIn(f: Format, i: int): int {
    Shifted(4 * i, f.depth)
  }

  ghost function RealQuarters(f: Format, d: real): real {
    ShiftedReal(4.0 * d, f.depth)
  }

  /** Halfway to the float above. */
  function High(b: Binary): nat {
    Shifted(4 * b.significand + 2, b.scale)
  }

  /** The float below a power of two is nearer than the one above. */
  function Below(f: Format, b: Binary): int
    requires f.precision >= 1
  {
    4 * b.significand - if b.scale > 0 && b.significand == Pow2(f.precision - 1) then 1 else 2
  }

  /** Halfway to the float below. */
  function Low(f: Format, b: Binary): int
    requires f.precision >= 1
  {
    Shifted(Below(f, b), b.scale)
  }

  predicate Between(low: int, quarters: real, high: int, inclusive: bool) {
    if inclusive then low as real <= quarters <= high as real else (low as real) < quarters < high as real
  }

  /** To nearest, ties to the even significand: d reads as b. */
  ghost predicate Rounds(f: Format, d: real, b: Binary)
    requires f.precision >= 1
  {
    Between(Low(f, b), RealQuarters(f, d), High(b), b.significand % 2 == 0)
  }

  /** The float is the integer i. */
  predicate HoldsInteger(f: Format, b: Binary, i: nat) {
    Quarters(b) == QuartersIn(f, i)
  }

  // ---- shortest digits ----------------------------------------------------------------------

  ghost predicate ReadsAs(f: Format, x: Float, b: Binary)
    requires f.precision >= 1
  {
    x.Finite? && WellFormed(x) && !x.negative && Rounds(f, Magnitude(x.mantissa, x.exp), b)
  }

  function DigitCount(x: Float): nat
    requires x.Finite?
  {
    |TrimRightZeros(x.mantissa)|
  }

  /** x reads back as b, and nothing with fewer digits does. */
  ghost predicate Shortest(f: Format, x: Float, b: Binary)
    requires f.precision >= 1
  {
    ReadsAs(f, x, b) && forall y | ReadsAs(f, y, b) :: DigitCount(x) <= DigitCount(y)
  }

  ghost function Distance(f: Format, x: Float, b: Binary): real
    requires x.Finite? && WellFormed(x)
  {
    var gap := RealQuarters(f, Magnitude(x.mantissa, x.exp)) - Quarters(b) as real;
    if gap < 0.0 then -gap else gap
  }

  /** No decimal of as many digits that reads back as b is nearer to it. */
  ghost predicate Nearest(f: Format, x: Float, b: Binary)
    requires f.precision >= 1 && ReadsAs(f, x, b)
  {
    forall y | ReadsAs(f, y, b) && DigitCount(y) == DigitCount(x) :: Distance(f, x, b) <= Distance(f, y, b)
  }

  // ---- one float, one text ---------------------------------------------------------------------

  lemma Doubled(n: nat)
    requires n >= 1
    ensures Pow2(n) == 2 * Pow2(n - 1)
  {
  }

  predicate Precedes(a: Binary, b: Binary) {
    a.scale < b.scale || (a.scale == b.scale && a.significand < b.significand)
  }

  /** Rounding intervals do not overlap; where they touch, one of the two significands is odd. */
  lemma IntervalsApart(f: Format, a: Binary, b: Binary)
    requires f.precision >= 2 && InFormat(f, a) && InFormat(f, b) && Precedes(a, b)
    ensures High(a) <= Low(f, b)
    ensures High(a) == Low(f, b) ==> a.significand % 2 != b.significand % 2
  {
    if a.scale == b.scale {
      SameScaleApart(f, a, b);
    } else {
      ScalesApart(f, a, b);
    }
  }

  lemma SameScaleApart(f: Format, a: Binary, b: Binary)
    requires f.precision >= 2 && a.scale == b.scale && a.significand < b.significand
    ensures High(a) <= Low(f, b)
    ensures High(a) == Low(f, b) ==> a.significand % 2 != b.significand % 2
  {
    ShiftedOrder(4 * a.significand + 2, Below(f, b), a.scale);
  }

  lemma FactorsApart(m: nat, n: nat, quarter: nat, below: int)
    requires m < 4 * quarter && n >= 2 * quarter
    requires below == 4 * n - if n == 2 * quarter then 1 else 2
    ensures 4 * m + 2 <= 2 * below
    ensures 4 * m + 2 == 2 * below ==> m % 2 != n % 2
  {
    if 4 * m + 2 == 2 * below {
      assert n == 2 * quarter && m == 4 * quarter - 1;
    }
  }

  lemma ScalesApart(f: Format, a: Binary, b: Binary)
    requires f.precision >= 2 && InFormat(f, a) && InFormat(f, b) && a.scale < b.scale
    ensures High(a) <= Low(f, b)
    ensures High(a) == Low(f, b) ==> a.significand % 2 != b.significand % 2
  {
    Doubled(f.precision);
    Doubled(f.precision - 1);
    var below := Below(f, b);
    FactorsApart(a.significand, b.significand, Pow2(f.precision - 2), below);
    ShiftedOrder(4 * a.significand + 2, 2 * below, a.scale);
    ShiftedTwice(below, a.scale, 1);
    assert Shifted(below, 1) == 2 * Shifted(below, 0);
    ShiftedFurther(below, a.scale + 1, b.scale);
  }

  /** A decimal reads as one float only. */
  lemma ReadsOnce(f: Format, d: real, a: Binary, b: Binary)
    requires f.precision >= 2 && InFormat(f, a) && InFormat(f, b)
    requires Rounds(f, d, a) && Rounds(f, d, b)
    ensures a == b
  {
    if Precedes(a, b) {
      IntervalsApart(f, a, b);
    } else if Precedes(b, a) {
      IntervalsApart(f, b, a);
    }
  }

  // ---- one float of a format, one text ---------------------------------------------------------------

  /**
   * Within one format, spelling each float by its shortest digits, two floats share a text exactly
   * when they are the same float.
   */
  lemma OneFloatOneText(f: Format, digits: Binary -> Float, a: Binary, negativeA: bool, b: Binary, negativeB: bool)
    requires f.precision >= 2 && InFormat(f, a) && InFormat(f, b)
    requires Shortest(f, digits(a), a) && Shortest(f, digits(b), b)
    ensures Canonical(digits(a).(negative := negativeA)) == Canonical(digits(b).(negative := negativeB))
      <==> a == b && negativeA == negativeB
  {
    var x, y := digits(a).(negative := negativeA), digits(b).(negative := negativeB);
    CanonicalInjective(x, y);
    if Number(x) == Number(y) {
      SameParts(x, y);
      ReadsOnce(f, Magnitude(x.mantissa, x.exp), a, b);
    }
  }
}
