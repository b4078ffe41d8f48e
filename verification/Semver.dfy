/** Semantic-version parsing and precedence (conditions.go:539-720). */
module Semver {
  import opened Text

  /** Release segments, then prerelease identifiers ([] when there is no prerelease). */
  datatype Version = Version(release: seq<string>, prerelease: seq<string>)

  // ---- numeric strings ----------------------------------------------------

  function LeadingZeroCount(s: string, i: nat): (k: nat)
    requires i <= |s| && forall j | 0 <= j < i :: s[j] == '0'
    ensures k <= |s| && (forall j | 0 <= j < k :: s[j] == '0') && (k < |s| ==> s[k] != '0')
    decreases |s| - i
  {
    if i < |s| && s[i] == '0' then LeadingZeroCount(s, i + 1) else i
  }

  /** strings.TrimLeft(s, "0"). */
  function TrimLeftZeros(s: string): (t: string)
    ensures t == "" || t[0] != '0'
  {
    s[LeadingZeroCount(s, 0)..]
  }

  lemma TrimLeftZerosNat(s: string)
    requires AllDigits(s)
    ensures AllDigits(TrimLeftZeros(s)) && NatOf(TrimLeftZeros(s)) == NatOf(s)
  {
    var k := LeadingZeroCount(s, 0);
    assert s == Zeros(k) + s[k..];
    LeadingZeros(k, s[k..]);
  }

  function CompareNumericString(a: string, b: string): (c: int)
    ensures -1 <= c <= 1
  {
    var x, y := TrimLeftZeros(a), TrimLeftZeros(b);
    if |x| != |y| then (if |x| < |y| then -1 else 1)
    else Compare(x, y)
  }

  lemma CompareTrimmed(x: string, y: string)
    requires AllDigits(x) && AllDigits(y)
    requires x == "" || x[0] != '0'
    requires y == "" || y[0] != '0'
    ensures Sign(NatOf(x) - NatOf(y)) == if |x| != |y| then (if |x| < |y| then -1 else 1) else Compare(x, y)
  {
    if |x| == |y| {
      CompareSameLength(x, y);
    } else if |x| < |y| {
      ShorterIsSmaller(x, y);
    } else {
      ShorterIsSmaller(y, x);
    }
  }

  /** The overflow-free comparison is exactly the sign of the integer difference. */
  lemma CompareNumericIsSign(a: string, b: string)
    requires AllDigits(a) && AllDigits(b)
    ensures CompareNumericString(a, b) == Sign(NatOf(a) - NatOf(b))
  {
    TrimLeftZerosNat(a);
    TrimLeftZerosNat(b);
    CompareTrimmed(TrimLeftZeros(a), TrimLeftZeros(b));
  }

  // ---- precedence as the standard words it ----------------------------------

  ghost predicate ValidVersion(v: Version) {
    && |v.release| > 0
    && (forall i | 0 <= i < |v.release| :: IsAllDigits(v.release[i]))
    && (forall i | 0 <= i < |v.prerelease| :: v.prerelease[i] != "")
  }

  /** The i-th release number; segments past the end count as 0. */
  ghost function ReleaseNumber(v: Version, i: nat): nat
    requires ValidVersion(v)
  {
    if i < |v.release| then NatOf(v.release[i]) else 0
  }

  ghost predicate ReleaseAgrees(a: Version, b: Version, n: nat)
    requires ValidVersion(a) && ValidVersion(b)
  {
    forall i: nat | i < n :: ReleaseNumber(a, i) == ReleaseNumber(b, i)
  }

  ghost predicate ReleaseSame(a: Version, b: Version)
    requires ValidVersion(a) && ValidVersion(b)
  {
    forall i: nat :: ReleaseNumber(a, i) == ReleaseNumber(b, i)
  }

  ghost predicate ReleaseBefore(a: Version, b: Version)
    requires ValidVersion(a) && ValidVersion(b)
  {
    exists n: nat :: ReleaseAgrees(a, b, n) && ReleaseNumber(a, n) < ReleaseNumber(b, n)
  }

  /** Identifier order: numbers numerically and below words; words in ASCII order. */
  ghost predicate IdBefore(x: string, y: string) {
    if IsAllDigits(x) then IsAllDigits(y) ==> NatOf(x) < NatOf(y)
    else !IsAllDigits(y) && Less(x, y)
  }

  ghost predicate IdSame(x: string, y: string) {
    x == y || (IsAllDigits(x) && IsAllDigits(y) && NatOf(x) == NatOf(y))
  }

  ghost predicate IdsAgree(a: seq<string>, b: seq<string>, n: nat) {
    n <= |a| && n <= |b| && forall i | 0 <= i < n :: IdSame(a[i], b[i])
  }

  ghost predicate PrereleaseSame(a: seq<string>, b: seq<string>) {
    |a| == |b| && IdsAgree(a, b, |a|)
  }

  /** A prerelease precedes its release; otherwise the first difference, or the shorter list, decides. */
  ghost predicate PrereleaseBefore(a: seq<string>, b: seq<string>) {
    if b == [] then a != []
    else a != [] && exists n: nat :: IdsAgree(a, b, n) && n < |b| && (n == |a| || IdBefore(a[n], b[n]))
  }

  ghost predicate Before(a: Version, b: Version)
    requires ValidVersion(a) && ValidVersion(b)
  {
    ReleaseBefore(a, b) || (ReleaseSame(a, b) && PrereleaseBefore(a.prerelease, b.prerelease))
  }

  ghost predicate SamePrecedence(a: Version, b: Version)
    requires ValidVersion(a) && ValidVersion(b)
  {
    ReleaseSame(a, b) && PrereleaseSame(a.prerelease, b.prerelease)
  }

  // ---- the comparisons the code runs ----------------------------------------

  function ComparePrereleaseId(a: string, b: string): (c: int) {
    if IsAllDigits(a) && IsAllDigits(b) then CompareNumericString(a, b)
    else if IsAllDigits(a) then -1
    else if IsAllDigits(b) then 1
    else Compare(a, b)
  }

  lemma ComparePrereleaseIdMeets(a: string, b: string)
    ensures ComparePrereleaseId(a, b) in {-1, 0, 1}
    ensures ComparePrereleaseId(a, b) == -1 <==> IdBefore(a, b)
    ensures ComparePrereleaseId(a, b) == 1 <==> IdBefore(b, a)
    ensures ComparePrereleaseId(a, b) == 0 <==> IdSame(a, b)
  {
    CompareAntisymmetric(a, b);
    if IsAllDigits(a) && IsAllDigits(b) {
      CompareNumericIsSign(a, b);
    }
  }

  method ComparePrerelease(a: seq<string>, b: seq<string>) returns (c: int)
    ensures c in {-1, 0, 1}
    ensures c == -1 ==> PrereleaseBefore(a, b)
    ensures c == 1 ==> PrereleaseBefore(b, a)
    ensures c == 0 ==> PrereleaseSame(a, b)
  {
    if |a| == 0 && |b| == 0 {
      return 0;
    }
    if |a| == 0 {
      return 1;
    }
    if |b| == 0 {
      return -1;
    }
    var minLen := |a|;
    if |b| < minLen {
      minLen := |b|;
    }
    for i := 0 to minLen
      invariant IdsAgree(a, b, i) && IdsAgree(b, a, i)
    {
      c := ComparePrereleaseId(a[i], b[i]);
      ComparePrereleaseIdMeets(a[i], b[i]);
      if c != 0 {
        return c;
      }
    }
    if |a| == |b| {
      return 0;
    } else if |a| < |b| {
      assert IdsAgree(a, b, |a|);
      return -1;
    } else {
      assert IdsAgree(b, a, |b|);
      return 1;
    }
  }

  ghost predicate SignAgrees(a: Version, b: Version, c: int)
    requires ValidVersion(a) && ValidVersion(b)
  {
    (c == -1 && Before(a, b)) || (c == 1 && Before(b, a)) || (c == 0 && SamePrecedence(a, b))
  }

  /** compareSemverParts: the sign it returns is the precedence of section 11. */
  method CompareSemverParts(a: Version, b: Version) returns (c: int)
    requires ValidVersion(a) && ValidVersion(b)
    ensures SignAgrees(a, b, c)
  {
    var maxLen := |a.release|;
    if |b.release| > maxLen {
      maxLen := |b.release|;
    }
    for i := 0 to maxLen
      invariant ReleaseAgrees(a, b, i)
    {
      var segA := "0";
      if i < |a.release| {
        segA := a.release[i];
      }
      var segB := "0";
      if i < |b.release| {
        segB := b.release[i];
      }
      c := CompareNumericString(segA, segB);
      SegmentDecides(a, b, i, segA, segB);
      if c != 0 {
        return c;
      }
    }
    AllSegmentsAgree(a, b, maxLen);
    c := ComparePrerelease(a.prerelease, b.prerelease);
  }

  lemma SegmentNumber(v: Version, i: nat, seg: string)
    requires ValidVersion(v) && seg == if i < |v.release| then v.release[i] else "0"
    ensures AllDigits(seg) && NatOf(seg) == ReleaseNumber(v, i)
  {
    if i >= |v.release| {
      assert NatPrefix("0", 0) == 0;
    }
  }

  lemma SegmentDecides(a: Version, b: Version, i: nat, segA: string, segB: string)
    requires ValidVersion(a) && ValidVersion(b) && ReleaseAgrees(a, b, i)
    requires segA == if i < |a.release| then a.release[i] else "0"
    requires segB == if i < |b.release| then b.release[i] else "0"
    ensures var c := CompareNumericString(segA, segB);
      if c == 0 then ReleaseAgrees(a, b, i + 1) else SignAgrees(a, b, c)
  {
    SegmentNumber(a, i, segA);
    SegmentNumber(b, i, segB);
    CompareNumericIsSign(segA, segB);
    if ReleaseNumber(a, i) < ReleaseNumber(b, i) {
      assert ReleaseBefore(a, b);
    } else if ReleaseNumber(b, i) < ReleaseNumber(a, i) {
      assert ReleaseAgrees(b, a, i);
      assert ReleaseBefore(b, a);
    }
  }

  lemma AllSegmentsAgree(a: Version, b: Version, n: nat)
    requires ValidVersion(a) && ValidVersion(b) && ReleaseAgrees(a, b, n)
    requires |a.release| <= n && |b.release| <= n
    ensures ReleaseSame(a, b) && ReleaseSame(b, a)
  {
  }

  /** No other sign would have agreed: the three outcomes exclude each other. */
  lemma SignIsUnique(a: Version, b: Version, c: int, d: int)
    requires ValidVersion(a) && ValidVersion(b)
    requires SignAgrees(a, b, c) && SignAgrees(a, b, d)
    ensures c == d
  {
    Exclusive(a, b);
    Exclusive(b, a);
  }

  // ---- total preorder ---------------------------------------------------------

  lemma IdBeforeTransitive(x: string, y: string, z: string)
    ensures IdBefore(x, y) && IdBefore(y, z) ==> IdBefore(x, z)
    ensures IdBefore(x, y) && IdSame(y, z) ==> IdBefore(x, z)
    ensures IdSame(x, y) && IdBefore(y, z) ==> IdBefore(x, z)
    ensures IdSame(x, y) && IdSame(y, z) ==> IdSame(x, z)
    ensures !(IdBefore(x, y) && IdBefore(y, x)) && !(IdBefore(x, y) && IdSame(x, y))
  {
    CompareAntisymmetric(x, y);
    if Less(x, y) && Less(y, z) {
      LessTransitive(x, y, z);
    }
  }

  lemma PrereleaseExclusive(a: seq<string>, b: seq<string>)
    requires PrereleaseBefore(a, b)
    ensures !PrereleaseBefore(b, a) && !PrereleaseSame(a, b)
  {
    if b != [] {
      var n: nat :| IdsAgree(a, b, n) && n < |b| && (n == |a| || IdBefore(a[n], b[n]));
      if n < |a| {
        IdBeforeTransitive(a[n], b[n], a[n]);
        IdBeforeTransitive(b[n], a[n], b[n]);
      }
      forall m: nat | m < |a| && m < n
        ensures m < |b| && !IdBefore(b[m], a[m])
      {
        IdBeforeTransitive(a[m], b[m], a[m]);
        IdBeforeTransitive(b[m], a[m], b[m]);
      }
    }
  }

  lemma ReleaseExclusive(a: Version, b: Version)
    requires ValidVersion(a) && ValidVersion(b)
    requires ReleaseBefore(a, b)
    ensures !ReleaseBefore(b, a) && !ReleaseSame(a, b) && !ReleaseSame(b, a)
  {
    var n: nat :| ReleaseAgrees(a, b, n) && ReleaseNumber(a, n) < ReleaseNumber(b, n);
    forall m: nat
      ensures !(ReleaseAgrees(b, a, m) && ReleaseNumber(b, m) < ReleaseNumber(a, m))
    {
      if m < n {
        assert ReleaseNumber(a, m) == ReleaseNumber(b, m);
      }
    }
  }

  /** At most one of "before", "after" and "same" holds. */
  lemma Exclusive(a: Version, b: Version)
    requires ValidVersion(a) && ValidVersion(b)
    ensures Before(a, b) ==> !Before(b, a) && !SamePrecedence(a, b) && !SamePrecedence(b, a)
  {
    if ReleaseBefore(a, b) {
      ReleaseExclusive(a, b);
    } else if Before(a, b) {
      assert ReleaseSame(b, a);
      if ReleaseBefore(b, a) {
        ReleaseExclusive(b, a);
      }
      PrereleaseExclusive(a.prerelease, b.prerelease);
    }
  }

  ghost predicate AtMost(a: Version, b: Version)
    requires ValidVersion(a) && ValidVersion(b)
  {
    Before(a, b) || SamePrecedence(a, b)
  }

  lemma ReleaseTransitive(a: Version, b: Version, c: Version)
    requires ValidVersion(a) && ValidVersion(b) && ValidVersion(c)
    requires ReleaseBefore(a, b) || ReleaseSame(a, b)
    requires ReleaseBefore(b, c) || ReleaseSame(b, c)
    ensures if ReleaseSame(a, b) && ReleaseSame(b, c) then ReleaseSame(a, c) else ReleaseBefore(a, c)
  {
    if !(ReleaseSame(a, b) && ReleaseSame(b, c)) {
      var m: nat := if ReleaseSame(a, b) then 0 else
        var m: nat :| ReleaseAgrees(a, b, m) && ReleaseNumber(a, m) < ReleaseNumber(b, m); m;
      var n: nat := if ReleaseSame(b, c) then m else
        var n: nat :| ReleaseAgrees(b, c, n) && ReleaseNumber(b, n) < ReleaseNumber(c, n); n;
      var k := if ReleaseSame(a, b) then n else if m < n then m else n;
      assert ReleaseAgrees(a, c, k) && ReleaseNumber(a, k) < ReleaseNumber(c, k);
    }
  }

  lemma PrereleaseTransitive(a: seq<string>, b: seq<string>, c: seq<string>)
    requires PrereleaseBefore(a, b) || PrereleaseSame(a, b)
    requires PrereleaseBefore(b, c) || PrereleaseSame(b, c)
    ensures if PrereleaseSame(a, b) && PrereleaseSame(b, c) then PrereleaseSame(a, c) else PrereleaseBefore(a, c)
  {
    if PrereleaseSame(a, b) && PrereleaseSame(b, c) {
      forall i | 0 <= i < |a| ensures IdSame(a[i], c[i]) {
        IdBeforeTransitive(a[i], b[i], c[i]);
      }
    } else if a != [] && b != [] && c != [] {
      var m: nat := if PrereleaseSame(a, b) then |a| else
        var m: nat :| IdsAgree(a, b, m) && m < |b| && (m == |a| || IdBefore(a[m], b[m])); m;
      var n: nat := if PrereleaseSame(b, c) then |b| else
        var n: nat :| IdsAgree(b, c, n) && n < |c| && (n == |b| || IdBefore(b[n], c[n])); n;
      var k := if m < n then m else n;
      forall i | 0 <= i < k ensures IdSame(a[i], c[i]) {
        IdBeforeTransitive(a[i], b[i], c[i]);
      }
      if k < |a| && k < |b| {
        IdBeforeTransitive(a[k], b[k], c[k]);
      }
      assert IdsAgree(a, c, k) && k < |c| && (k == |a| || IdBefore(a[k], c[k]));
    }
  }

  lemma {:induction false} ReleaseTotal(a: Version, b: Version, i: nat)
    requires ValidVersion(a) && ValidVersion(b) && ReleaseAgrees(a, b, i)
    ensures ReleaseBefore(a, b) || ReleaseBefore(b, a) || ReleaseSame(a, b)
    decreases |a.release| + |b.release| - i
  {
    if i >= |a.release| + |b.release| {
      AllSegmentsAgree(a, b, i);
    } else if ReleaseNumber(a, i) == ReleaseNumber(b, i) {
      ReleaseTotal(a, b, i + 1);
    } else {
      assert ReleaseAgrees(b, a, i);
    }
  }

  lemma IdTotal(x: string, y: string)
    ensures IdBefore(x, y) || IdBefore(y, x) || IdSame(x, y)
  {
    CompareAntisymmetric(x, y);
  }

  lemma {:induction false} PrereleaseTotal(a: seq<string>, b: seq<string>, i: nat)
    requires IdsAgree(a, b, i) && IdsAgree(b, a, i)
    ensures PrereleaseBefore(a, b) || PrereleaseBefore(b, a) || PrereleaseSame(a, b)
    decreases |a| - i
  {
    if i < |a| && i < |b| && a != [] && b != [] {
      IdTotal(a[i], b[i]);
      if IdSame(a[i], b[i]) {
        PrereleaseTotal(a, b, i + 1);
      }
    }
  }

  /** Any two versions compare. */
  lemma Total(a: Version, b: Version)
    requires ValidVersion(a) && ValidVersion(b)
    ensures Before(a, b) || Before(b, a) || SamePrecedence(a, b)
  {
    ReleaseTotal(a, b, 0);
    PrereleaseTotal(a.prerelease, b.prerelease, 0);
    assert ReleaseSame(a, b) ==> ReleaseSame(b, a);
  }

  /** "At most" is a total preorder whose symmetric part is "same precedence". */
  lemma TotalPreorder(a: Version, b: Version, c: Version)
    requires ValidVersion(a) && ValidVersion(b) && ValidVersion(c)
    ensures AtMost(a, a) && (AtMost(a, b) || AtMost(b, a))
    ensures AtMost(a, b) && AtMost(b, c) ==> AtMost(a, c)
    ensures Before(a, b) && AtMost(b, c) ==> Before(a, c)
    ensures AtMost(a, b) && Before(b, c) ==> Before(a, c)
    ensures AtMost(a, b) && AtMost(b, a) <==> SamePrecedence(a, b)
  {
    Total(a, b);
    Exclusive(a, b);
    Exclusive(b, a);
    if AtMost(a, b) && AtMost(b, c) {
      ReleaseTransitive(a, b, c);
      if ReleaseSame(a, b) && ReleaseSame(b, c) {
        assert !ReleaseBefore(a, b) && !ReleaseBefore(b, c);
        PrereleaseTransitive(a.prerelease, b.prerelease, c.prerelease);
      }
    }
  }
}
