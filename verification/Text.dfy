/**
 * Strings as Go sees valid UTF-8: a char stands for one code point. Byte order is code point
 * order, and every separator searched for is a single ASCII byte.
 */
module Text {

  datatype Option<T> = None | Some(value: T)

  predicate IsDigit(c: char) {
    '0' <= c <= '9'
  }

  predicate AllDigits(s: string) {
    forall i | 0 <= i < |s| :: IsDigit(s[i])
  }

  /** isAllDigits: the empty string is not a number. */
  predicate IsAllDigits(s: string) {
    s != "" && AllDigits(s)
  }

  function DigitValue(c: char): (d: nat)
    requires IsDigit(c)
    ensures d <= 9
  {
    (c as int) - ('0' as int)
  }

  function Sign(n: int): int {
    if n < 0 then -1 else if n > 0 then 1 else 0
  }

  function Pow10(n: nat): (p: nat)
    ensures p >= 1
  {
    if n == 0 then 1 else 10 * Pow10(n - 1)
  }

  lemma {:induction false} Pow10Monotone(m: nat, n: nat)
    requires m <= n
    ensures Pow10(m) <= Pow10(n)
  {
    if m < n {
      Pow10Monotone(m, n - 1);
    }
  }

  // ---- searching ------------------------------------------------------------

  function IndexFrom(s: string, c: char, i: nat): (k: nat)
    requires i <= |s|
    ensures i <= k <= |s| && (forall j | i <= j < k :: s[j] != c) && (k < |s| ==> s[k] == c)
    decreases |s| - i
  {
    if i == |s| || s[i] == c then i else IndexFrom(s, c, i + 1)
  }

  /** strings.IndexByte: the first position of c, here |s| when c does not occur. */
  function IndexByte(s: string, c: char): (k: nat)
    ensures k <= |s| && (forall j | 0 <= j < k :: s[j] != c) && (k < |s| ==> s[k] == c)
  {
    IndexFrom(s, c, 0)
  }

  lemma IndexByteUnique(s: string, c: char, k: nat)
    requires k <= |s| && (forall j | 0 <= j < k :: s[j] != c) && (k < |s| ==> s[k] == c)
    ensures IndexByte(s, c) == k
  {
  }

  // ---- strings.Split and its inverse ---------------------

  function Split(s: string, c: char): (parts: seq<string>)
    ensures |parts| > 0
    decreases |s|
  {
    var i := IndexByte(s, c);
    if i == |s| then [s] else [s[..i]] + Split(s[i + 1..], c)
  }

  function Join(parts: seq<string>, c: char): string
    requires |parts| > 0
  {
    if |parts| == 1 then parts[0] else parts[0] + [c] + Join(parts[1..], c)
  }

  lemma {:induction false} JoinSplit(s: string, c: char)
    ensures Join(Split(s, c), c) == s
    ensures forall k | 0 <= k < |Split(s, c)| :: c !in Split(s, c)[k]
    decreases |s|
  {
    var i := IndexByte(s, c);
    if i < |s| {
      JoinSplit(s[i + 1..], c);
      assert Split(s, c)[1..] == Split(s[i + 1..], c);
      assert s == s[..i] + [c] + s[i + 1..];
    }
  }

  lemma CutFirst(first: string, rest: string, c: char)
    requires c !in first
    ensures var s := first + [c] + rest;
      IndexByte(s, c) == |first| && s[..|first|] == first && s[|first| + 1..] == rest
  {
    IndexByteUnique(first + [c] + rest, c, |first|);
  }

  lemma SplitFirst(first: string, rest: string, c: char)
    requires c !in first
    ensures Split(first + [c] + rest, c) == [first] + Split(rest, c)
  {
    CutFirst(first, rest, c);
  }

  lemma {:induction false} SplitJoin(parts: seq<string>, c: char)
    requires |parts| > 0 && forall k | 0 <= k < |parts| :: c !in parts[k]
    ensures Split(Join(parts, c), c) == parts
  {
    if |parts| == 1 {
      IndexByteUnique(parts[0], c, |parts[0]|);
    } else {
      SplitJoin(parts[1..], c);
      SplitFirst(parts[0], Join(parts[1..], c), c);
    }
  }

  // ---- strings.TrimSpace ------------------------------------------------------

  /** unicode.IsSpace. */
  predicate IsSpace(c: char) {
    var n := c as int;
    || 9 <= n <= 13 || n == 32 || n == 0x85 || n == 0xA0 || n == 0x1680 || 0x2000 <= n <= 0x200A
    || n == 0x2028 || n == 0x2029 || n == 0x202F || n == 0x205F || n == 0x3000
  }

  predicate AllSpace(s: string) {
    forall i | 0 <= i < |s| :: IsSpace(s[i])
  }

  function LeadingSpace(s: string, i: nat): (k: nat)
    requires i <= |s| && AllSpace(s[..i])
    ensures k <= |s| && AllSpace(s[..k]) && (k < |s| ==> !IsSpace(s[k]))
    decreases |s| - i
  {
    if i < |s| && IsSpace(s[i]) then
      assert s[..i + 1] == s[..i] + [s[i]];
      LeadingSpace(s, i + 1)
    else i
  }

  /** Where the trailing space of s[..n] begins. */
  function TrailingSpace(s: string, n: nat): (k: nat)
    requires n <= |s|
    ensures k <= n && (forall i | k <= i < n :: IsSpace(s[i])) && (k > 0 ==> !IsSpace(s[k - 1]))
  {
    if n > 0 && IsSpace(s[n - 1]) then TrailingSpace(s, n - 1) else n
  }

  function TrimSpace(s: string): string {
    var t := s[LeadingSpace(s, 0)..];
    t[..TrailingSpace(t, |t|)]
  }

  /** body is value without the space around it, and not empty. */
  ghost predicate Padded(value: string, left: string, body: string, right: string) {
    && AllSpace(left) && AllSpace(right) && value == left + body + right
    && body != "" && !IsSpace(body[0]) && !IsSpace(body[|body| - 1])
  }

  lemma TrimFinds(value: string) returns (left: string, right: string)
    requires TrimSpace(value) != ""
    ensures Padded(value, left, TrimSpace(value), right)
  {
    var k := LeadingSpace(value, 0);
    var t := value[k..];
    var n := TrailingSpace(t, |t|);
    left, right := value[..k], t[n..];
    assert t == t[..n] + t[n..];
    assert value == left + t;
  }

  lemma TrimUnique(value: string, left: string, body: string, right: string)
    requires Padded(value, left, body, right)
    ensures TrimSpace(value) == body
  {
    var k := LeadingSpace(value, 0);
    forall i | 0 <= i < k ensures IsSpace(value[i]) {
      assert value[..k][i] == value[i];
    }
    assert value[|left|] == body[0] && forall i | 0 <= i < |left| :: value[i] == left[i];
    assert k == |left|;
    assert value[k..] == body + right;
    TrimRightUnique(body, right);
  }

  lemma TrimRightUnique(body: string, right: string)
    requires AllSpace(right) && body != "" && !IsSpace(body[|body| - 1])
    ensures (body + right)[..TrailingSpace(body + right, |body + right|)] == body
  {
    var t := body + right;
    var n := TrailingSpace(t, |t|);
    assert t[|body| - 1] == body[|body| - 1];
    assert forall i | |body| <= i < |t| :: t[i] == right[i - |body|];
    assert n == |body|;
  }

  // ---- order ----------------------------------------------------------------

  function CompareFrom(a: string, b: string, i: nat): (c: int)
    requires i <= |a| && i <= |b|
    ensures -1 <= c <= 1
    decreases |a| - i
  {
    if i == |a| then (if i == |b| then 0 else -1)
    else if i == |b| then 1
    else if a[i] < b[i] then -1
    else if b[i] < a[i] then 1
    else CompareFrom(a, b, i + 1)
  }

  /** strings.Compare: the first difference decides, a proper prefix comes first. */
  function Compare(a: string, b: string): (c: int)
    ensures -1 <= c <= 1
  {
    CompareFrom(a, b, 0)
  }

  predicate Less(a: string, b: string) {
    Compare(a, b) < 0
  }

  lemma {:induction false} CompareFromAntisymmetric(a: string, b: string, i: nat)
    requires i <= |a| && i <= |b|
    ensures CompareFrom(a, b, i) == -CompareFrom(b, a, i)
    ensures CompareFrom(a, b, i) == 0 ==> |a| == |b| && forall k | i <= k < |a| :: a[k] == b[k]
    decreases |a| - i
  {
    if i < |a| && i < |b| {
      CompareFromAntisymmetric(a, b, i + 1);
    }
  }

  lemma {:induction false} CompareFromReflexive(a: string, i: nat)
    requires i <= |a|
    ensures CompareFrom(a, a, i) == 0
    decreases |a| - i
  {
    if i < |a| {
      CompareFromReflexive(a, i + 1);
    }
  }

  lemma CompareAntisymmetric(a: string, b: string)
    ensures Compare(a, b) == -Compare(b, a)
    ensures Compare(a, b) == 0 <==> a == b
  {
    CompareFromAntisymmetric(a, b, 0);
    CompareFromReflexive(a, 0);
  }

  lemma {:induction false} CompareFromTransitive(a: string, b: string, c: string, i: nat)
    requires i <= |a| && i <= |b| && i <= |c|
    requires CompareFrom(a, b, i) < 0 && CompareFrom(b, c, i) < 0
    ensures CompareFrom(a, c, i) < 0
    decreases |a| - i
  {
    if i < |a| && a[i] == b[i] == c[i] {
      CompareFromTransitive(a, b, c, i + 1);
    }
  }

  lemma LessTransitive(a: string, b: string, c: string)
    requires Less(a, b) && Less(b, c)
    ensures Less(a, c)
  {
    CompareFromTransitive(a, b, c, 0);
  }

  // ---- decimal numbers ----------------------------------------------------------

  /** The number the first n digits of s spell. */
  function NatPrefix(s: string, n: nat): nat
    requires n <= |s| && AllDigits(s)
  {
    if n == 0 then 0 else 10 * NatPrefix(s, n - 1) + DigitValue(s[n - 1])
  }

  /** The natural number a digit string spells; the empty string spells 0. */
  function NatOf(s: string): nat
    requires AllDigits(s)
  {
    NatPrefix(s, |s|)
  }

  /** n copies of '0'. */
  function Zeros(n: nat): (s: string)
    ensures |s| == n && forall i | 0 <= i < n :: s[i] == '0'
  {
    seq(n, i => '0')
  }

  lemma {:induction false} NatPrefixSame(s: string, t: string, n: nat)
    requires AllDigits(s) && AllDigits(t) && n <= |s| && n <= |t|
    requires forall i | 0 <= i < n :: s[i] == t[i]
    ensures NatPrefix(s, n) == NatPrefix(t, n)
  {
    if n > 0 {
      NatPrefixSame(s, t, n - 1);
    }
  }

  lemma {:induction false} NatPrefixBound(s: string, n: nat)
    requires AllDigits(s) && n <= |s|
    ensures NatPrefix(s, n) < Pow10(n)
    ensures 0 < n && s[0] != '0' ==> NatPrefix(s, n) >= Pow10(n - 1)
  {
    if n > 0 {
      NatPrefixBound(s, n - 1);
    }
  }

  lemma {:induction false} NatPrefixZeros(s: string, n: nat)
    requires AllDigits(s) && n <= |s| && forall i | 0 <= i < n :: s[i] == '0'
    ensures NatPrefix(s, n) == 0
  {
    if n > 0 {
      NatPrefixZeros(s, n - 1);
    }
  }

  lemma ShiftOnce(n: nat, p: nat)
    ensures 10 * (n * p) == n * (10 * p)
  {
  }

  lemma {:induction false} NatPrefixConcat(s: string, t: string, n: nat)
    requires AllDigits(s) && AllDigits(t) && n <= |t|
    ensures AllDigits(s + t)
    ensures NatPrefix(s + t, |s| + n) == NatOf(s) * Pow10(n) + NatPrefix(t, n)
  {
    if n == 0 {
      NatPrefixSame(s + t, s, |s|);
    } else {
      NatPrefixConcat(s, t, n - 1);
      ShiftOnce(NatOf(s), Pow10(n - 1));
    }
  }

  /** Concatenation shifts the left number by the length of the right text. */
  lemma NatOfConcat(s: string, t: string)
    requires AllDigits(s) && AllDigits(t)
    ensures AllDigits(s + t)
    ensures NatOf(s + t) == NatOf(s) * Pow10(|t|) + NatOf(t)
  {
    NatPrefixConcat(s, t, |t|);
  }

  lemma LeadingZeros(n: nat, digits: string)
    requires AllDigits(digits)
    ensures AllDigits(Zeros(n) + digits) && NatOf(Zeros(n) + digits) == NatOf(digits)
  {
    NatPrefixZeros(Zeros(n), n);
    NatOfConcat(Zeros(n), digits);
  }

  lemma TrailingZeros(digits: string, n: nat)
    requires AllDigits(digits)
    ensures AllDigits(digits + Zeros(n)) && NatOf(digits + Zeros(n)) == NatOf(digits) * Pow10(n)
  {
    NatPrefixZeros(Zeros(n), n);
    NatOfConcat(digits, Zeros(n));
  }

  lemma {:induction false} GapPersists(a: string, b: string, m: nat, n: nat)
    requires AllDigits(a) && AllDigits(b) && m <= n <= |a| && n <= |b|
    requires NatPrefix(a, m) < NatPrefix(b, m)
    ensures NatPrefix(a, n) < NatPrefix(b, n)
  {
    if m < n {
      GapPersists(a, b, m, n - 1);
    }
  }

  lemma {:induction false} CompareFromSameLength(a: string, b: string, i: nat)
    requires AllDigits(a) && AllDigits(b) && i <= |a| == |b|
    requires NatPrefix(a, i) == NatPrefix(b, i)
    ensures CompareFrom(a, b, i) == Sign(NatOf(a) - NatOf(b))
    decreases |a| - i
  {
    if i < |a| {
      if a[i] < b[i] {
        GapPersists(a, b, i + 1, |a|);
      } else if b[i] < a[i] {
        GapPersists(b, a, i + 1, |a|);
      } else {
        CompareFromSameLength(a, b, i + 1);
      }
    }
  }

  /** Equal-length digit strings order as the numbers they spell. */
  lemma CompareSameLength(a: string, b: string)
    requires AllDigits(a) && AllDigits(b) && |a| == |b|
    ensures Compare(a, b) == Sign(NatOf(a) - NatOf(b))
  {
    CompareFromSameLength(a, b, 0);
  }

  lemma ShorterIsSmaller(x: string, y: string)
    requires AllDigits(x) && AllDigits(y) && |x| < |y| && y[0] != '0'
    ensures NatOf(x) < NatOf(y)
  {
    NatPrefixBound(x, |x|);
    NatPrefixBound(y, |y|);
    Pow10Monotone(|x|, |y| - 1);
  }

  /** Without a leading zero, a number has one spelling. */
  lemma SameNumberSameDigits(a: string, b: string)
    requires IsAllDigits(a) && IsAllDigits(b) && a[0] != '0' && b[0] != '0' && NatOf(a) == NatOf(b)
    ensures a == b
  {
    if |a| < |b| {
      ShorterIsSmaller(a, b);
    } else if |b| < |a| {
      ShorterIsSmaller(b, a);
    } else {
      CompareSameLength(a, b);
      CompareAntisymmetric(a, b);
    }
  }
}
