/**
 * Which integers hash one text (bucketing.go:41-93, canonical_number.go:9-13): literals among
 * themselves, and a literal and the float that holds it.
 */
module BucketText {
  import opened Arithmetic
  import opened Bucketing
  import opened Text
  import CanonicalNumber
  import IntegerBound
  import IntegerDigits
  import ShortestDigits

  // ---- one integer, one text ---------------------------------------------------------

  /** The integer a literal stands for. */
  ghost function IntOf(s: string): int
    requires IsIntegerLiteral(s)
  {
    if s[0] == '-' then -(NatOf(s[1..]) as int) else NatOf(s)
  }

  /** JSON allows no superfluous leading zero. */
  ghost predicate IsJsonInteger(s: string) {
    IsIntegerLiteral(s) && var d := if s[0] == '-' then s[1..] else s; |d| > 1 ==> d[0] != '0'
  }

  lemma ZeroDigits(d: string)
    requires IsAllDigits(d)
    ensures NatOf(d) == 0 <==> forall i | 0 <= i < |d| :: d[i] == '0'
  {
    if forall i | 0 <= i < |d| :: d[i] == '0' {
      NatPrefixZeros(d, |d|);
    } else {
      var i :| 0 <= i < |d| && d[i] != '0';
      assert NatPrefix(d, i + 1) > 0;
      PrefixPersists(d, i + 1, |d|);
    }
  }

  lemma {:induction false} PrefixPersists(d: string, m: nat, n: nat)
    requires AllDigits(d) && m <= n <= |d| && NatPrefix(d, m) > 0
    ensures NatPrefix(d, n) > 0
  {
    if m < n {
      PrefixPersists(d, m, n - 1);
    }
  }

  lemma LiteralIsZero(s: string)
    requires IsIntegerLiteral(s)
    ensures OnlyMinusAndZero(s) <==> IntOf(s) == 0
  {
    var d := if s[0] == '-' then s[1..] else s;
    ZeroDigits(d);
    if s[0] == '-' {
      assert forall i | 0 < i < |s| :: s[i] == d[i - 1];
    }
  }

  /** The text of an integer literal still stands for the same integer. */
  lemma LiteralTextKeepsValue(s: string)
    requires IsIntegerLiteral(s)
    ensures IsIntegerLiteral(IntegerLiteralText(s)) && IntOf(IntegerLiteralText(s)) == IntOf(s)
  {
    LiteralIsZero(s);
    assert NatPrefix("0", 0) == 0;
  }

  /** Two JSON integers hash the same text exactly when they are the same integer. */
  lemma LiteralTextInjective(s: string, t: string)
    requires IsJsonInteger(s) && IsJsonInteger(t)
    ensures IntegerLiteralText(s) == IntegerLiteralText(t) <==> IntOf(s) == IntOf(t)
  {
    LiteralTextKeepsValue(s);
    LiteralTextKeepsValue(t);
    LiteralIsZero(s);
    LiteralIsZero(t);
    if IntOf(s) == IntOf(t) && IntOf(s) != 0 {
      if s[0] == '-' {
        SameNumberSameDigits(s[1..], t[1..]);
        assert s == "-" + s[1..] && t == "-" + t[1..];
      } else {
        SameNumberSameDigits(s, t);
      }
    }
  }

  // ---- one integer, literal or float ---------------------------------------------------

  /** The shortest digits of x spell the integer i. */
  ghost predicate DigitsSpell(x: CanonicalNumber.Float, i: int)
    requires CanonicalNumber.WellFormed(x)
  {
    if x.Finite? then CanonicalNumber.Number(x) == i as real else x.Zero? && i == 0
  }

  ghost function Abs(i: int): nat {
    if i < 0 then -i else i
  }

  /**
   * An integer literal and a float hash one text exactly when the float's shortest digits spell
   * that integer and it is below 10^21 in magnitude: from there on the float's text has an
   * exponent and the literal keeps its digits.
   */
  lemma LiteralAndFloatAgree(s: string, x: CanonicalNumber.Float)
    requires IsJsonInteger(s) && CanonicalNumber.WellFormed(x)
    ensures IntegerLiteralText(s) == CanonicalNumber.Canonical(x)
      <==> DigitsSpell(x, IntOf(s)) && Abs(IntOf(s)) < Pow10(21)
  {
    LiteralIsZero(s);
    LiteralTextKeepsValue(s);
    if x.Finite? {
      FiniteTextsAgree(s, x);
    } else if x.Zero? {
      ZeroTextAgrees(s);
    } else {
      assert IntegerLiteralText(s) != CanonicalNumber.Canonical(x) by {
        var t := IntegerLiteralText(s);
        assert if t[0] == '-' then IsDigit(t[1..][0]) else IsDigit(t[0]);
      }
    }
  }

  lemma ZeroTextAgrees(s: string)
    requires IsJsonInteger(s)
    ensures IntegerLiteralText(s) == "0" <==> IntOf(s) == 0
  {
    LiteralIsZero(s);
    LiteralTextKeepsValue(s);
    assert NatPrefix("0", 0) == 0 && IntOf("0") == 0;
  }

  lemma FiniteTextsAgree(s: string, x: CanonicalNumber.Float)
    requires IsJsonInteger(s) && x.Finite? && CanonicalNumber.WellFormed(x)
    ensures IntegerLiteralText(s) == CanonicalNumber.Canonical(x)
      <==> CanonicalNumber.Number(x) == IntOf(s) as real && Abs(IntOf(s)) < Pow10(21)
  {
    if IntegerLiteralText(s) == CanonicalNumber.Canonical(x) {
      TextSpells(s, x);
      NotLarge(s, x);
    } else if CanonicalNumber.Number(x) == IntOf(s) as real && Abs(IntOf(s)) < Pow10(21) {
      CanonicalNumber.RealPow10Nat(21);
      SmallTextsAgree(s, x);
    }
  }

  lemma NotLarge(s: string, x: CanonicalNumber.Float)
    requires IsJsonInteger(s) && x.Finite? && CanonicalNumber.WellFormed(x)
    requires IntegerLiteralText(s) == CanonicalNumber.Canonical(x) && CanonicalNumber.Number(x) == IntOf(s) as real
    ensures Abs(IntOf(s)) < Pow10(21)
  {
    CanonicalNumber.RealPow10Nat(21);
    if !SmallNumber(x) {
      LargeTextMarked(x);
      LargeTextsDiffer(s, x);
    }
  }

  ghost predicate SmallNumber(x: CanonicalNumber.Float)
    requires x.Finite? && CanonicalNumber.WellFormed(x)
  {
    -CanonicalNumber.RealPow10(21) < CanonicalNumber.Number(x) < CanonicalNumber.RealPow10(21)
  }

  /** A literal read as a decimal is its integer. */
  lemma LiteralReads(t: string)
    requires IsIntegerLiteral(t)
    ensures CanonicalNumber.Read(t) == Some(CanonicalNumber.Signed(t[0] == '-', CanonicalNumber.Decimal(Abs(IntOf(t)), 0)))
  {
    var d := if t[0] == '-' then t[1..] else t;
    CanonicalNumber.NoExponent(d);
    CanonicalNumber.ReadPlain(d, 0);
    CanonicalNumber.ReadSigned(d, CanonicalNumber.Decimal(NatOf(d), 0));
    if t[0] == '-' {
      assert t == "-" + d;
    }
  }

  lemma UnitDecimal(negative: bool, m: nat)
    ensures CanonicalNumber.Denotes(CanonicalNumber.Signed(negative, CanonicalNumber.Decimal(m, 0)))
      == if negative then -(m as real) else m as real
  {
    assert CanonicalNumber.RealPow10(0) == 1.0;
  }

  lemma LiteralDenotes(t: string)
    requires IsIntegerLiteral(t)
    ensures CanonicalNumber.Read(t).Some? && CanonicalNumber.Denotes(CanonicalNumber.Read(t).value) == IntOf(t) as real
  {
    LiteralReads(t);
    UnitDecimal(t[0] == '-', Abs(IntOf(t)));
  }

  lemma TextSpells(s: string, x: CanonicalNumber.Float)
    requires IsJsonInteger(s) && x.Finite? && CanonicalNumber.WellFormed(x)
    requires IntegerLiteralText(s) == CanonicalNumber.Canonical(x)
    ensures CanonicalNumber.Number(x) == IntOf(s) as real
  {
    LiteralTextKeepsValue(s);
    LiteralDenotes(IntegerLiteralText(s));
    CanonicalNumber.CanonicalReadsBack(x);
  }

  lemma LargeTextMarked(x: CanonicalNumber.Float)
    requires x.Finite? && CanonicalNumber.WellFormed(x) && !SmallNumber(x)
    ensures CanonicalNumber.Marked(x, 'e')
  {
    CanonicalNumber.MagnitudePositive(x);
    CanonicalNumber.LayoutExactly(x);
  }

  lemma LargeTextsDiffer(s: string, x: CanonicalNumber.Float)
    requires IsIntegerLiteral(s) && CanonicalNumber.Marked(x, 'e')
    ensures IntegerLiteralText(s) != CanonicalNumber.Canonical(x)
  {
    forall i | 0 <= i < |s| ensures s[i] != 'e' {
      assert i > 0 && s[0] == '-' ==> s[i] == s[1..][i - 1];
    }
  }

  lemma LiteralDigits(s: string)
    requires IsJsonInteger(s) && IntOf(s) != 0
    ensures var d := if s[0] == '-' then s[1..] else s;
      IsAllDigits(d) && d[0] != '0' && NatOf(d) == Abs(IntOf(s)) && IntegerLiteralText(s) == s
  {
    LiteralIsZero(s);
    ZeroDigits(if s[0] == '-' then s[1..] else s);
  }

  lemma SmallTextsAgree(s: string, x: CanonicalNumber.Float)
    requires IsJsonInteger(s) && x.Finite? && CanonicalNumber.WellFormed(x)
    requires CanonicalNumber.Number(x) == IntOf(s) as real
    requires Abs(IntOf(s)) as real < CanonicalNumber.RealPow10(21)
    ensures IntegerLiteralText(s) == CanonicalNumber.Canonical(x)
  {
    CanonicalNumber.MagnitudePositive(x);
    LiteralDigits(s);
    var d := if s[0] == '-' then s[1..] else s;
    var y := x.(negative := false);
    CanonicalNumber.WholeSpelling(y, Abs(IntOf(s)));
    SameNumberSameDigits(d, CanonicalNumber.Canonical(y));
  }

  // ---- the exact value of a float -----------------------------------------------------

  lemma DoublesAreSmall(n: nat)
    requires n <= 53
    ensures Pow2(n) < Pow10(21)
  {
    IntegerDigits.FiftyTwoBits();
    Pow2Monotone(n, 53);
    ShortestDigits.Doubled(53);
    IntegerDigits.LargePowers();
    CanonicalNumber.RealPow10Nat(17);
    Pow10Monotone(17, 21);
  }

  /**
   * Every integer up to 2^precision, a 64-bit float's 2^53 included, hashes one text as a literal
   * and as the float that holds it.
   */
  lemma SmallIntegersAgree(s: string, f: ShortestDigits.Format, b: ShortestDigits.Binary, x: CanonicalNumber.Float)
    requires ShortestDigits.Wide(f) && f.precision <= 53 && ShortestDigits.InFormat(f, b)
    requires IsJsonInteger(s) && 0 < Abs(IntOf(s)) <= Pow2(f.precision)
    requires ShortestDigits.HoldsInteger(f, b, Abs(IntOf(s)))
    requires x.Finite? && ShortestDigits.Shortest(f, x, b)
    requires Abs(IntOf(s)) == Pow2(f.precision) ==> ShortestDigits.Nearest(f, x, b)
    ensures IntegerLiteralText(s) == CanonicalNumber.Canonical(x.(negative := IntOf(s) < 0))
  {
    IntegerDigits.SmallIntegerDigits(f, b, Abs(IntOf(s)), x);
    DoublesAreSmall(f.precision);
    LiteralAndFloatAgree(s, x.(negative := IntOf(s) < 0));
  }

  const LARGE_LITERAL := "18014398509481992"

  lemma LargeLiteral()
    ensures IsJsonInteger(LARGE_LITERAL) && IntOf(LARGE_LITERAL) == IntegerDigits.LARGE
  {
    var digits := IntegerDigits.LARGE_DIGITS.mantissa;
    IntegerDigits.LargeDigitsNumber();
    NatOfConcat(digits, "2");
    assert NatPrefix("2", 0) == 0 && NatOf("2") == 2;
    assert Pow10(1) == 10 * Pow10(0);
    assert LARGE_LITERAL == digits + "2";
  }

  /**
   * Beyond 2^53 they can part: 18014398509481992 is a 64-bit float, but its shortest digits spell
   * 18014398509481990, so the literal and the float hash different texts.
   */
  lemma LargeIntegerParts(f: ShortestDigits.Format)
    requires f.precision == 53
    ensures var b, x := IntegerDigits.Large(f), IntegerDigits.LARGE_DIGITS;
      && IsJsonInteger(LARGE_LITERAL) && ShortestDigits.InFormat(f, b)
      && ShortestDigits.HoldsInteger(f, b, Abs(IntOf(LARGE_LITERAL))) && ShortestDigits.Shortest(f, x, b)
      && IntegerLiteralText(LARGE_LITERAL) != CanonicalNumber.Canonical(x)
  {
    LargeLiteral();
    IntegerDigits.LargeHeld(f);
    IntegerDigits.LargeDigitsNumber();
    IntegerDigits.LargeShortest(f, IntegerDigits.LARGE_DIGITS);
    assert LARGE_LITERAL[16] == '2';
  }

  /** The nearest of the shortest digits: how a float of the format is spelled. */
  ghost predicate SpelledBy(f: ShortestDigits.Format, x: CanonicalNumber.Float, b: ShortestDigits.Binary)
    requires f.precision >= 1
  {
    x.Finite? && ShortestDigits.Shortest(f, x, b) && ShortestDigits.Nearest(f, x, b)
  }

  /** s is an integer held by b, and x spells b: literal and float hash one text. */
  ghost predicate OneText(s: string, x: CanonicalNumber.Float)
    requires IsJsonInteger(s) && x.Finite?
  {
    IntegerLiteralText(s) == CanonicalNumber.Canonical(x.(negative := IntOf(s) < 0))
  }

  ghost predicate Holds(f: ShortestDigits.Format, b: ShortestDigits.Binary, s: string)
    requires f.precision >= 1 && IsJsonInteger(s)
  {
    ShortestDigits.InFormat(f, b) && ShortestDigits.HoldsInteger(f, b, Abs(IntOf(s)))
  }

  /** Every non-zero integer of magnitude up to n that the format holds hashes one text. */
  ghost predicate AgreeUpTo(f: ShortestDigits.Format, n: nat)
    requires f.precision >= 1
  {
    forall s, b, x | IsJsonInteger(s) && 0 < Abs(IntOf(s)) <= n && Holds(f, b, s) && SpelledBy(f, x, b) :: OneText(s, x)
  }

  lemma BelowLargeAgrees(f: ShortestDigits.Format, s: string, b: ShortestDigits.Binary, x: CanonicalNumber.Float)
    requires ShortestDigits.Wide(f) && f.precision == 53
    requires IsJsonInteger(s) && 0 < Abs(IntOf(s)) < IntegerDigits.LARGE && Holds(f, b, s) && SpelledBy(f, x, b)
    ensures OneText(s, x)
  {
    if Abs(IntOf(s)) <= Pow2(53) {
      SmallIntegersAgree(s, f, b, x);
    } else {
      IntegerBound.LargerIntegerDigits(f, b, Abs(IntOf(s)), x);
      LargeIsSmall();
      LiteralAndFloatAgree(s, x.(negative := IntOf(s) < 0));
    }
  }

  lemma LargeIsSmall()
    ensures IntegerDigits.LARGE < Pow10(21)
  {
    IntegerDigits.LargePowers();
    CanonicalNumber.RealPow10Nat(17);
    Pow10Monotone(17, 21);
  }

  lemma LargeDisagrees(f: ShortestDigits.Format)
    requires f.precision == 53
    ensures !AgreeUpTo(f, IntegerDigits.LARGE)
  {
    var b, x := IntegerDigits.Large(f), IntegerDigits.LARGE_DIGITS;
    LargeIntegerParts(f);
    LargeLiteral();
    IntegerDigits.LargeDigitsNumber();
    IntegerBound.LargeNearest(f, x);
    assert Holds(f, b, LARGE_LITERAL) && SpelledBy(f, x, b) && !OneText(LARGE_LITERAL, x);
  }

  /**
   * For 64-bit floats the bound is tight: literals and floats agree on all integers up to n
   * exactly when n is below 18014398509481992.
   */
  lemma FirstToPart(f: ShortestDigits.Format, n: nat)
    requires ShortestDigits.Wide(f) && f.precision == 53
    ensures AgreeUpTo(f, n) <==> n < IntegerDigits.LARGE
  {
    if n < IntegerDigits.LARGE {
      forall s, b, x | IsJsonInteger(s) && 0 < Abs(IntOf(s)) <= n && Holds(f, b, s) && SpelledBy(f, x, b)
        ensures OneText(s, x)
      {
        BelowLargeAgrees(f, s, b, x);
      }
    } else if AgreeUpTo(f, n) {
      assert AgreeUpTo(f, IntegerDigits.LARGE);
      LargeDisagrees(f);
    }
  }
}
