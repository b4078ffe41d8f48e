/**
 * canonicalNumber (canonical_number.go:14-58): the ECMAScript spelling of a floating-point
 * value. A finite value arrives as the digits and decimal exponent of its shortest
 * round-trip form d.ddd x 10^exp, point removed; its number, here, is the one those digits
 * spell. ShortestDigits relates it to the value a float of some width holds.
 */
module CanonicalNumber {
  import opened Text

  datatype Float =
    | NaN
    | Infinite(negative: bool)
    | Zero
    | Finite(negative: bool, mantissa: string, exp: int)

  ghost predicate WellFormed(x: Float) {
    x.Finite? ==> IsAllDigits(x.mantissa) && x.mantissa[0] != '0'
  }

  function TrimRightZeros(s: string): (t: string)
    ensures |t| <= |s| && t == s[..|t|] && (t == "" || t[|t| - 1] != '0')
  {
    if s != "" && s[|s| - 1] == '0' then TrimRightZeros(s[..|s| - 1]) else s
  }

  function Itoa(n: nat): (s: string)
    ensures IsAllDigits(s)
  {
    if n < 10 then [('0' as int + n) as char] else Itoa(n / 10) + [('0' as int + n % 10) as char]
  }

  /** The four layouts; exponent is the text of n-1, used by the last one only. */
  function Layout(digits: string, n: int, exponent: string): string
    requires digits != ""
  {
    var k := |digits|;
    if k <= n <= 21 then digits + Zeros(n - k)
    else if 0 < n <= 21 then digits[..n] + "." + digits[n..]
    else if -6 < n <= 0 then "0." + (Zeros(-n) + digits)
    else Head(digits) + "e" + exponent
  }

  function Head(digits: string): string
    requires digits != ""
  {
    if |digits| > 1 then digits[..1] + "." + digits[1..] else digits[..1]
  }

  function Exponent(e: int): string {
    if e < 0 then "-" + Itoa(-e) else "+" + Itoa(e)
  }

  function Canonical(x: Float): string
    decreases x.Finite? && x.negative
  {
    match x
    case NaN => "NaN"
    case Infinite(negative) => if negative then "-Infinity" else "Infinity"
    case Zero => "0"
    case Finite(negative, mantissa, exp) =>
      if negative then "-" + Canonical(Finite(false, mantissa, exp))
      else
        var trimmed := TrimRightZeros(mantissa);
        var digits := if trimmed == "" then "0" else trimmed;
        Layout(digits, exp + 1, Exponent(exp))
  }

  // ---- what a text denotes, read independently of how it was laid out --------

  ghost function RealPow10(x: int): (p: real)
    ensures p > 0.0
    decreases if x < 0 then -x else x
  {
    if x == 0 then 1.0 else if x > 0 then 10.0 * RealPow10(x - 1) else RealPow10(x + 1) / 10.0
  }

  /** m x 10^x. */
  ghost function Value(m: nat, x: int): real {
    m as real * RealPow10(x)
  }

  /** The decimal m x 10^x. */
  datatype Decimal = Decimal(m: nat, x: int)

  /** A run of digits with an optional decimal point, scaled by 10^shift. */
  ghost function ReadMantissa(s: string, shift: int): Option<Decimal> {
    var dot := IndexByte(s, '.');
    var whole, fraction := s[..dot], if dot < |s| then s[dot + 1..] else "";
    if AllDigits(whole + fraction) then Some(Decimal(NatOf(whole + fraction), shift - |fraction|)) else None
  }

  ghost predicate ValidExponent(text: string) {
    text != "" && (text[0] == '+' || text[0] == '-') && AllDigits(text[1..])
  }

  ghost function SignedNat(text: string): int
    requires ValidExponent(text)
  {
    if text[0] == '-' then -(NatOf(text[1..]) as int) else NatOf(text[1..])
  }

  ghost function ReadUnsigned(s: string): Option<Decimal> {
    var e := IndexByte(s, 'e');
    if e == |s| then ReadMantissa(s, 0)
    else if ValidExponent(s[e + 1..]) then ReadMantissa(s[..e], SignedNat(s[e + 1..]))
    else None
  }

  datatype Signed = Signed(negative: bool, decimal: Decimal)

  /** An optional minus sign, then an unsigned decimal. */
  ghost function Read(s: string): Option<Signed> {
    var negative := s != "" && s[0] == '-';
    match ReadUnsigned(if negative then s[1..] else s)
    case None => None
    case Some(d) => Some(Signed(negative, d))
  }

  /** The number a signed decimal stands for. */
  ghost function Denotes(r: Signed): real {
    if r.negative then -Value(r.decimal.m, r.decimal.x) else Value(r.decimal.m, r.decimal.x)
  }

  /** The number the digits of a positive value spell. */
  ghost function Magnitude(mantissa: string, exp: int): real
    requires IsAllDigits(mantissa)
  {
    Value(NatOf(mantissa), exp - (|mantissa| - 1))
  }

  ghost function Number(x: Float): real
    requires x.Finite? && WellFormed(x)
  {
    if x.negative then -Magnitude(x.mantissa, x.exp) else Magnitude(x.mantissa, x.exp)
  }

  // ---- reading back -----------------------------------------------------------

  lemma {:induction false} RealPow10Nat(n: nat)
    ensures RealPow10(n) == Pow10(n) as real
  {
    if n > 0 {
      RealPow10Nat(n - 1);
    }
  }

  lemma RealPow10Step(x: int)
    ensures RealPow10(x + 1) == 10.0 * RealPow10(x)
  {
  }

  lemma {:induction false} RealPow10Add(x: int, n: nat)
    ensures RealPow10(x + n) == RealPow10(x) * Pow10(n) as real
    decreases n
  {
    if n > 0 {
      RealPow10Add(x, n - 1);
      RealPow10Step(x + n - 1);
      var p, q := RealPow10(x), Pow10(n - 1) as real;
      assert 10.0 * (p * q) == p * (10.0 * q);
    }
  }

  /** Appending n zeros to the digits is shifting the exponent by n. */
  lemma ProductAsReal(m: nat, p: nat)
    ensures (m * p) as real == m as real * p as real
  {
  }

  lemma Regroup(a: real, p: real, q: real)
    ensures (a * q) * p == a * (p * q)
  {
  }

  lemma ValueShift(m: nat, x: int, n: nat)
    ensures Value(m * Pow10(n), x) == Value(m, x + n)
  {
    RealPow10Add(x, n);
    ProductAsReal(m, Pow10(n));
    Regroup(m as real, RealPow10(x), Pow10(n) as real);
  }

  lemma {:induction false} ItoaNat(n: nat)
    ensures NatOf(Itoa(n)) == n
  {
    if n >= 10 {
      ItoaNat(n / 10);
      NatPrefixSame(Itoa(n), Itoa(n / 10), |Itoa(n / 10)|);
    } else {
      assert NatPrefix(Itoa(n), 0) == 0;
    }
  }

  lemma ReadPlain(s: string, shift: int)
    requires AllDigits(s)
    ensures ReadMantissa(s, shift) == Some(Decimal(NatOf(s), shift))
  {
    IndexByteUnique(s, '.', |s|);
    assert s[..|s|] + "" == s;
  }

  lemma ReadPointed(whole: string, fraction: string, shift: int)
    requires AllDigits(whole) && AllDigits(fraction)
    ensures ReadMantissa(whole + "." + fraction, shift) == Some(Decimal(NatOf(whole + fraction), shift - |fraction|))
  {
    var s := whole + "." + fraction;
    IndexByteUnique(s, '.', |whole|);
    assert s[..|whole|] == whole && s[|whole| + 1..] == fraction;
  }

  lemma NoExponent(s: string)
    requires forall k | 0 <= k < |s| :: s[k] != 'e'
    ensures ReadUnsigned(s) == ReadMantissa(s, 0)
  {
    IndexByteUnique(s, 'e', |s|);
  }

  lemma ExponentText(e: int)
    ensures ValidExponent(Exponent(e)) && SignedNat(Exponent(e)) == e
  {
    ItoaNat(if e < 0 then -e else e);
    assert Exponent(e)[1..] == Itoa(if e < 0 then -e else e);
  }

  lemma ReadExponent(head: string, exponent: string)
    requires forall k | 0 <= k < |head| :: head[k] != 'e'
    requires ValidExponent(exponent)
    ensures ReadUnsigned(head + "e" + exponent) == ReadMantissa(head, SignedNat(exponent))
  {
    var s := head + "e" + exponent;
    IndexByteUnique(s, 'e', |head|);
    assert s[..|head|] == head && s[|head| + 1..] == exponent;
  }

  lemma ReadWhole(digits: string, zeros: nat)
    requires IsAllDigits(digits)
    ensures ReadUnsigned(digits + Zeros(zeros)) == Some(Decimal(NatOf(digits) * Pow10(zeros), 0))
  {
    TrailingZeros(digits, zeros);
    NoExponent(digits + Zeros(zeros));
    ReadPlain(digits + Zeros(zeros), 0);
  }

  lemma ReadFraction(whole: string, fraction: string)
    requires AllDigits(whole) && AllDigits(fraction)
    ensures ReadUnsigned(whole + "." + fraction) == Some(Decimal(NatOf(whole + fraction), -|fraction|))
  {
    NoExponent(whole + "." + fraction);
    ReadPointed(whole, fraction, 0);
  }

  lemma ReadHead(digits: string, e: int)
    requires IsAllDigits(digits)
    ensures ReadMantissa(Head(digits), e) == Some(Decimal(NatOf(digits), e + 1 - |digits|))
    ensures forall k | 0 <= k < |Head(digits)| :: Head(digits)[k] != 'e'
  {
    if |digits| > 1 {
      ReadPointed(digits[..1], digits[1..], e);
      assert digits[..1] + digits[1..] == digits;
    } else {
      assert digits[..1] == digits;
      ReadPlain(digits, e);
    }
  }

  lemma ReadSmall(digits: string, n: int)
    requires IsAllDigits(digits) && n <= 0
    ensures ReadUnsigned("0." + (Zeros(-n) + digits)) == Some(Decimal(NatOf(digits), n - |digits|))
  {
    var fraction := Zeros(-n) + digits;
    assert "0." + fraction == "0" + "." + fraction;
    LeadingZeros(-n, digits);
    LeadingZeros(1 - n, digits);
    assert "0" + fraction == Zeros(1 - n) + digits;
    ReadFraction("0", fraction);
  }

  /** digits x 10^(n-k), written as a whole number when the layout does. */
  ghost function Laid(digits: string, n: int): Decimal
    requires IsAllDigits(digits)
  {
    if |digits| <= n <= 21 then Decimal(NatOf(digits) * Pow10(n - |digits|), 0)
    else Decimal(NatOf(digits), n - |digits|)
  }

  lemma ReadFixed(digits: string, n: int, exponent: string)
    requires IsAllDigits(digits) && -6 < n <= 21
    ensures ReadUnsigned(Layout(digits, n, exponent)) == Some(Laid(digits, n))
  {
    if |digits| <= n {
      ReadWhole(digits, n - |digits|);
    } else if 0 < n {
      ReadFraction(digits[..n], digits[n..]);
      assert digits[..n] + digits[n..] == digits;
      assert Layout(digits, n, exponent) == digits[..n] + "." + digits[n..];
    } else {
      ReadSmall(digits, n);
      assert Layout(digits, n, exponent) == "0." + (Zeros(-n) + digits);
    }
  }

  lemma ReadScientific(digits: string, n: int, exponent: string)
    requires IsAllDigits(digits) && !(-6 < n <= 21)
    requires ValidExponent(exponent) && SignedNat(exponent) == n - 1
    ensures ReadUnsigned(Layout(digits, n, exponent)) == Some(Laid(digits, n))
  {
    ReadHead(digits, n - 1);
    ReadExponent(Head(digits), exponent);
    assert Layout(digits, n, exponent) == Head(digits) + "e" + exponent;
    assert ReadUnsigned(Head(digits) + "e" + exponent) == ReadMantissa(Head(digits), n - 1);
  }

  lemma LayoutStartsWithDigit(digits: string, n: int, exponent: string)
    requires IsAllDigits(digits)
    ensures Layout(digits, n, exponent) != "" && IsDigit(Layout(digits, n, exponent)[0])
  {
  }

  lemma ReadSigned(s: string, d: Decimal)
    requires s != "" && IsDigit(s[0]) && ReadUnsigned(s) == Some(d)
    ensures Read(s) == Some(Signed(false, d)) && Read("-" + s) == Some(Signed(true, d))
  {
    assert ("-" + s)[1..] == s;
  }

  lemma LayoutDenotes(digits: string, n: int, exponent: string)
    requires IsAllDigits(digits) && ValidExponent(exponent) && SignedNat(exponent) == n - 1
    ensures var text := Layout(digits, n, exponent);
      && Read(text) == Some(Signed(false, Laid(digits, n)))
      && Read("-" + text) == Some(Signed(true, Laid(digits, n)))
  {
    LayoutStartsWithDigit(digits, n, exponent);
    if -6 < n <= 21 {
      ReadFixed(digits, n, exponent);
    } else {
      ReadScientific(digits, n, exponent);
    }
    ReadSigned(Layout(digits, n, exponent), Laid(digits, n));
  }

  lemma LaidValue(digits: string, n: int)
    requires IsAllDigits(digits)
    ensures Value(Laid(digits, n).m, Laid(digits, n).x) == Value(NatOf(digits), n - |digits|)
  {
    if |digits| <= n <= 21 {
      ValueShift(NatOf(digits), 0, n - |digits|);
    }
  }

  lemma {:induction false} TrimRightMagnitude(s: string, exp: int)
    requires IsAllDigits(s) && s[0] != '0'
    ensures IsAllDigits(TrimRightZeros(s)) && TrimRightZeros(s)[0] != '0'
    ensures Magnitude(TrimRightZeros(s), exp) == Magnitude(s, exp)
  {
    var n := |s| - 1;
    if s[n] == '0' {
      TrimRightMagnitude(s[..n], exp);
      ValueShift(NatOf(s[..n]), exp - n, 1);
      TrailingZeros(s[..n], 1);
      assert s == s[..n] + Zeros(1);
    }
  }

  lemma CanonicalLayout(x: Float) returns (text: string, exponent: string)
    requires x.Finite? && WellFormed(x)
    ensures IsAllDigits(TrimRightZeros(x.mantissa))
    ensures exponent == Exponent(x.exp) && ValidExponent(exponent) && SignedNat(exponent) == x.exp
    ensures text == Layout(TrimRightZeros(x.mantissa), x.exp + 1, exponent)
    ensures Canonical(x) == if x.negative then "-" + text else text
  {
    TrimRightMagnitude(x.mantissa, x.exp);
    ExponentText(x.exp);
    text, exponent := Canonical(Finite(false, x.mantissa, x.exp)), Exponent(x.exp);
  }

  lemma CanonicalReads(x: Float)
    requires x.Finite? && WellFormed(x)
    ensures IsAllDigits(TrimRightZeros(x.mantissa))
    ensures Read(Canonical(x)) == Some(Signed(x.negative, Laid(TrimRightZeros(x.mantissa), x.exp + 1)))
  {
    var text, exponent := CanonicalLayout(x);
    LayoutDenotes(TrimRightZeros(x.mantissa), x.exp + 1, exponent);
    if x.negative {
      assert Canonical(x) == "-" + text;
    }
  }

  /** Whichever layout applies, the text denotes exactly the number the digits spell. */
  lemma CanonicalReadsBack(x: Float)
    requires x.Finite? && WellFormed(x)
    ensures Read(Canonical(x)).Some? && Denotes(Read(Canonical(x)).value) == Number(x)
  {
    CanonicalReads(x);
    TrimRightMagnitude(x.mantissa, x.exp);
    LaidValue(TrimRightZeros(x.mantissa), x.exp + 1);
  }

  // ---- one number, one text -----------------------------------------------------

  /** A number not divisible by ten fixes its decimal exponent. */
  lemma ExponentNotBelow(m: nat, x: int, n: nat, y: int)
    requires m % 10 != 0 && Value(m, x) == Value(n, y)
    ensures y <= x
  {
    if x < y {
      ValueShift(n, x, y - x);
      SameExponentSameNumber(m, n * Pow10(y - x), x);
      TenDivides(n, Pow10(y - x - 1));
    }
  }

  lemma TenDivides(n: nat, p: nat)
    ensures (n * (10 * p)) % 10 == 0
  {
    assert n * (10 * p) == 10 * (n * p);
  }

  lemma LastDigit(s: string)
    requires IsAllDigits(s)
    ensures NatOf(s) % 10 == DigitValue(s[|s| - 1])
  {
  }

  lemma SameExponentSameNumber(m: nat, n: nat, x: int)
    requires Value(m, x) == Value(n, x)
    ensures m == n
  {
    var p := RealPow10(x);
    assert (m as real - n as real) * p == 0.0;
  }

  lemma NormalFormUnique(a: string, i: int, b: string, j: int)
    requires IsAllDigits(a) && IsAllDigits(b) && a[0] != '0' && b[0] != '0'
    requires a[|a| - 1] != '0' && b[|b| - 1] != '0'
    requires Magnitude(a, i) == Magnitude(b, j)
    ensures a == b && i == j
  {
    LastDigit(a);
    LastDigit(b);
    var x, y := i - (|a| - 1), j - (|b| - 1);
    ExponentNotBelow(NatOf(a), x, NatOf(b), y);
    ExponentNotBelow(NatOf(b), y, NatOf(a), x);
    SameExponentSameNumber(NatOf(a), NatOf(b), x);
    SameNumberSameDigits(a, b);
  }

  ghost predicate SameFloat(x: Float, y: Float)
    requires WellFormed(x) && WellFormed(y)
  {
    if x.Finite? && y.Finite? then Number(x) == Number(y) else x == y
  }

  lemma MagnitudePositive(x: Float)
    requires x.Finite? && WellFormed(x)
    ensures Magnitude(x.mantissa, x.exp) > 0.0
  {
    NatPrefixBound(x.mantissa, |x.mantissa|);
  }

  lemma WordsUnread(word: string)
    requires word != "" && !IsDigit(word[0])
    requires forall k | 0 <= k < |word| :: word[k] != 'e' && word[k] != '.'
    ensures ReadUnsigned(word) == None
  {
    NoExponent(word);
    IndexByteUnique(word, '.', |word|);
    assert (word[..|word|] + "")[0] == word[0];
  }

  /** The special texts denote no number, except zero's. */
  lemma SpecialTexts(x: Float)
    requires !x.Finite?
    ensures Read(Canonical(x)) == if x.Zero? then Some(Signed(false, Decimal(0, 0))) else None
  {
    if x.Zero? {
      NoExponent("0");
      ReadPlain("0", 0);
      assert NatPrefix("0", 0) == 0;
    } else if x.NaN? {
      WordsUnread("NaN");
    } else {
      WordsUnread("Infinity");
      assert "-Infinity"[1..] == "Infinity";
    }
  }

  lemma FiniteText(x: Float)
    requires x.Finite? && WellFormed(x)
    ensures Read(Canonical(x)).Some? && Denotes(Read(Canonical(x)).value) != 0.0
  {
    CanonicalReadsBack(x);
    MagnitudePositive(x);
  }

  lemma SameParts(x: Float, y: Float)
    requires x.Finite? && WellFormed(x) && y.Finite? && WellFormed(y)
    requires Number(x) == Number(y)
    ensures x.negative == y.negative && Magnitude(x.mantissa, x.exp) == Magnitude(y.mantissa, y.exp)
  {
    MagnitudePositive(x);
    MagnitudePositive(y);
  }

  lemma SameNumberSameText(x: Float, y: Float)
    requires x.Finite? && WellFormed(x) && y.Finite? && WellFormed(y)
    requires Number(x) == Number(y)
    ensures Canonical(x) == Canonical(y)
  {
    SameParts(x, y);
    TrimRightMagnitude(x.mantissa, x.exp);
    TrimRightMagnitude(y.mantissa, y.exp);
    NormalFormUnique(TrimRightZeros(x.mantissa), x.exp, TrimRightZeros(y.mantissa), y.exp);
    SameLayout(x, y);
  }

  lemma SameLayout(x: Float, y: Float)
    requires x.Finite? && WellFormed(x) && y.Finite? && WellFormed(y)
    requires x.negative == y.negative && x.exp == y.exp && TrimRightZeros(x.mantissa) == TrimRightZeros(y.mantissa)
    ensures Canonical(x) == Canonical(y)
  {
    var s, e := CanonicalLayout(x);
    var t, f := CanonicalLayout(y);
  }

  lemma SameFiniteText(x: Float, y: Float)
    requires x.Finite? && WellFormed(x) && y.Finite? && WellFormed(y)
    ensures Canonical(x) == Canonical(y) <==> Number(x) == Number(y)
  {
    if Number(x) == Number(y) {
      SameNumberSameText(x, y);
    } else {
      CanonicalReadsBack(x);
      CanonicalReadsBack(y);
    }
  }

  /** Two values share a text exactly when their digits spell the same number. */
  lemma CanonicalInjective(x: Float, y: Float)
    requires WellFormed(x) && WellFormed(y)
    ensures Canonical(x) == Canonical(y) <==> SameFloat(x, y)
  {
    if x.Finite? && y.Finite? {
      SameFiniteText(x, y);
    } else if x.Finite? {
      FiniteText(x);
      SpecialTexts(y);
    } else if y.Finite? {
      FiniteText(y);
      SpecialTexts(x);
    } else {
      assert Canonical(x)[0] == Canonical(y)[0] ==> x == y;
    }
  }

  // ---- which layout, for which numbers ----------------------------------------------

  lemma {:induction false} RealPow10Increases(x: int, y: int)
    requires x < y
    ensures RealPow10(x) < RealPow10(y)
    decreases y - x
  {
    RealPow10Step(y - 1);
    if x < y - 1 {
      RealPow10Increases(x, y - 1);
    }
  }

  lemma ScalesUp(m: nat, n: nat, x: int)
    ensures m <= n ==> Value(m, x) <= Value(n, x)
    ensures m < n ==> Value(m, x) < Value(n, x)
  {
    var p := RealPow10(x);
    assert m <= n ==> m as real * p <= n as real * p;
    assert m < n ==> m as real * p < n as real * p;
  }

  /** exp is the position of the leading digit. */
  lemma MagnitudeRange(mantissa: string, exp: int)
    requires IsAllDigits(mantissa) && mantissa[0] != '0'
    ensures RealPow10(exp) <= Magnitude(mantissa, exp) < RealPow10(exp + 1)
  {
    var k := |mantissa|;
    NatPrefixBound(mantissa, k);
    ScalesUp(Pow10(k - 1), NatOf(mantissa), exp - (k - 1));
    ScalesUp(NatOf(mantissa), Pow10(k), exp - (k - 1));
    ValueShift(1, exp - (k - 1), k - 1);
    ValueShift(1, exp - (k - 1), k);
  }

  lemma PowerOrder(x: int, y: int)
    ensures RealPow10(x) < RealPow10(y) <==> x < y
  {
    if x < y {
      RealPow10Increases(x, y);
    } else if y < x {
      RealPow10Increases(y, x);
    }
  }

  lemma LayoutMarks(digits: string, n: int, exponent: string)
    requires IsAllDigits(digits)
    ensures 'e' in Layout(digits, n, exponent) <==> !(-6 < n <= 21)
    ensures -6 < n <= 21 ==> ('.' in Layout(digits, n, exponent) <==> n < |digits|)
  {
    var text := Layout(digits, n, exponent);
    if !(-6 < n <= 21) {
      assert text[|Head(digits)|] == 'e';
    } else if 0 < n < |digits| {
      assert text[n] == '.';
    } else if n <= 0 {
      assert text[1] == '.';
    }
  }

  ghost predicate Is(m: real, i: nat) {
    m == i as real
  }

  ghost predicate IsWhole(m: real) {
    exists i: nat :: Is(m, i)
  }

  predicate Marked(x: Float, c: char) {
    c in Canonical(x)
  }

  lemma MarksOf(x: Float, text: string, c: char)
    requires c != '-' && Canonical(x) == if x.Finite? && x.negative then "-" + text else text
    ensures Marked(x, c) <==> c in text
  {
    assert "-" + text == ['-'] + text;
  }

  /**
   * A text has an exponent exactly when the number its digits spell is below 10^-6 or at least
   * 10^21 in magnitude; otherwise it has a decimal point exactly when that is not an integer.
   */
  lemma LayoutExactly(x: Float)
    requires x.Finite? && WellFormed(x)
    ensures var m := Magnitude(x.mantissa, x.exp);
      && (Marked(x, 'e') <==> m < RealPow10(-6) || RealPow10(21) <= m)
      && (!Marked(x, 'e') ==> (Marked(x, '.') <==> !IsWhole(m)))
  {
    var digits, n := TrimRightZeros(x.mantissa), x.exp + 1;
    var text, exponent := CanonicalLayout(x);
    TrimRightMagnitude(x.mantissa, x.exp);
    LayoutMarks(digits, n, exponent);
    MarksOf(x, text, 'e');
    MarksOf(x, text, '.');
    ExponentRange(x);
    if -6 < n <= 21 {
      WholeExactly(digits, n);
    }
  }

  lemma ExponentRange(x: Float)
    requires x.Finite? && WellFormed(x)
    ensures var m := Magnitude(x.mantissa, x.exp);
      !(-6 < x.exp + 1 <= 21) <==> m < RealPow10(-6) || RealPow10(21) <= m
  {
    MagnitudeRange(x.mantissa, x.exp);
    PowerOrder(x.exp, -6);
    PowerOrder(-6, x.exp + 1);
    PowerOrder(x.exp, 21);
    PowerOrder(21, x.exp + 1);
  }

  /** Without trailing zeros, digits past the point are a fraction. */
  lemma WholeExactly(digits: string, n: int)
    requires IsAllDigits(digits) && digits[|digits| - 1] != '0'
    ensures n < |digits| <==> !IsWhole(Magnitude(digits, n - 1))
  {
    var x := n - |digits|;
    if x < 0 {
      LastDigit(digits);
      forall i: nat ensures !Is(Value(NatOf(digits), x), i) {
        if Is(Value(NatOf(digits), x), i) {
          assert Value(i, 0) == i as real;
          ExponentNotBelow(NatOf(digits), x, i, 0);
        }
      }
    } else {
      WholeValue(digits, n);
    }
  }

  lemma WholeValue(digits: string, n: int)
    requires IsAllDigits(digits) && n >= |digits|
    ensures Is(Magnitude(digits, n - 1), NatOf(digits) * Pow10(n - |digits|))
  {
    ValueShift(NatOf(digits), 0, n - |digits|);
    assert RealPow10(0) == 1.0;
  }

  lemma WholeFits(x: Float, i: nat)
    requires x.Finite? && WellFormed(x) && Is(Magnitude(x.mantissa, x.exp), i)
    requires Magnitude(x.mantissa, x.exp) < RealPow10(21)
    ensures |TrimRightZeros(x.mantissa)| <= x.exp + 1 <= 21
  {
    TrimRightMagnitude(x.mantissa, x.exp);
    MagnitudeRange(x.mantissa, x.exp);
    PowerOrder(x.exp, 21);
    WholeExactly(TrimRightZeros(x.mantissa), x.exp + 1);
  }

  lemma WholeDigits(digits: string, n: int, i: nat)
    requires IsAllDigits(digits) && n >= |digits| && Is(Magnitude(digits, n - 1), i)
    ensures IsAllDigits(digits + Zeros(n - |digits|)) && NatOf(digits + Zeros(n - |digits|)) == i
  {
    TrailingZeros(digits, n - |digits|);
    WholeValue(digits, n);
  }

  /** Digits that spell an integer below 10^21 are written out as that integer. */
  lemma WholeSpelling(x: Float, i: nat)
    requires x.Finite? && WellFormed(x) && !x.negative
    requires Is(Number(x), i) && Number(x) < RealPow10(21)
    ensures IsAllDigits(Canonical(x)) && Canonical(x)[0] != '0' && NatOf(Canonical(x)) == i
  {
    WholeFits(x, i);
    var digits, n := TrimRightZeros(x.mantissa), x.exp + 1;
    var text, exponent := CanonicalLayout(x);
    TrimRightMagnitude(x.mantissa, x.exp);
    WholeDigits(digits, n, i);
    assert text == digits + Zeros(n - |digits|);
  }

  // ---- the form of the text ---------------------------------------------------------------

  lemma {:induction false} ItoaLeads(i: nat)
    requires i > 0
    ensures Itoa(i)[0] != '0'
  {
    if i >= 10 {
      ItoaLeads(i / 10);
    }
  }

  /** Digits without a superfluous zero in front. */
  ghost predicate WholeForm(s: string) {
    IsAllDigits(s) && (s == "0" || s[0] != '0')
  }

  /** Digits without a superfluous zero behind. */
  ghost predicate FractionForm(s: string) {
    IsAllDigits(s) && s[|s| - 1] != '0'
  }

  /** One digit, not zero, and perhaps a fraction. */
  ghost predicate HeadForm(s: string) {
    s != "" && IsDigit(s[0]) && s[0] != '0' && (|s| == 1 || (s[1] == '.' && FractionForm(s[2..])))
  }

  /** A sign, always written, and digits without a superfluous zero in front. */
  ghost predicate ExponentForm(s: string) {
    s != "" && (s[0] == '+' || s[0] == '-') && WholeForm(s[1..])
  }

  ghost predicate FixedForm(s: string, whole: string, fraction: string) {
    s == whole + "." + fraction && WholeForm(whole) && FractionForm(fraction)
  }

  ghost predicate ScientificForm(s: string, head: string, exponent: string) {
    s == head + "e" + exponent && HeadForm(head) && ExponentForm(exponent)
  }

  /** A number as ECMAScript writes it: an integer, a fixed-point or a scientific text, nothing superfluous. */
  ghost predicate NumberForm(s: string) {
    || WholeForm(s)
    || (exists whole, fraction :: FixedForm(s, whole, fraction))
    || (exists head, exponent :: ScientificForm(s, head, exponent))
  }

  lemma ExponentIsForm(e: int)
    ensures ExponentForm(Exponent(e))
  {
    var n := if e < 0 then -e else e;
    assert Exponent(e)[1..] == Itoa(n);
    if n > 0 {
      ItoaLeads(n);
    }
  }

  lemma LayoutIsForm(digits: string, n: int, exponent: string)
    requires IsAllDigits(digits) && digits[0] != '0' && digits[|digits| - 1] != '0' && ExponentForm(exponent)
    ensures NumberForm(Layout(digits, n, exponent))
  {
    var text := Layout(digits, n, exponent);
    if |digits| <= n <= 21 {
      assert WholeForm(text);
    } else if 0 < n <= 21 {
      assert FixedForm(text, digits[..n], digits[n..]);
    } else if -6 < n <= 0 {
      assert "0." + (Zeros(-n) + digits) == "0" + "." + (Zeros(-n) + digits);
      assert FixedForm(text, "0", Zeros(-n) + digits);
    } else {
      assert |digits| > 1 ==> Head(digits)[2..] == digits[1..];
      assert ScientificForm(text, Head(digits), exponent);
    }
  }

  /** A finite value is written in number form, after a minus sign if it is negative. */
  lemma CanonicalForm(x: Float)
    requires x.Finite? && WellFormed(x) && !x.negative
    ensures NumberForm(Canonical(x)) && Canonical(x.(negative := true)) == "-" + Canonical(x)
  {
    var text, exponent := CanonicalLayout(x);
    TrimRightMagnitude(x.mantissa, x.exp);
    ExponentIsForm(x.exp);
    LayoutIsForm(TrimRightZeros(x.mantissa), x.exp + 1, exponent);
  }

  /** Zero, the infinities and NaN have their ECMAScript names. */
  lemma SpecialNames()
    ensures Canonical(NaN) == "NaN" && Canonical(Zero) == "0"
    ensures Canonical(Infinite(false)) == "Infinity" && Canonical(Infinite(true)) == "-Infinity"
  {
  }
}
