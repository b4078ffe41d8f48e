/** Reconnect delays (streaming.go:107-142) in wrapping 64-bit arithmetic. */
module Backoff {
  import opened Arithmetic

  const TWO_63 := 0x8000_0000_0000_0000
  const TWO_64 := 0x1_0000_0000_0000_0000

  predicate IsInt64(n: int) {
    -TWO_63 <= n < TWO_63
  }

  /** Go's int64 keeps the low 64 bits, read as two's complement. */
  function Wrap(n: int): (w: int)
    ensures IsInt64(w)
  {
    var low := n % TWO_64;
    if low < TWO_63 then low else low - TWO_64
  }

  /** The delay before jitter, on unbounded integers. */
  function Exponential(base: int, cap: int, failures: int): int {
    if failures <= 1 then base else Min(cap, base * Pow2(failures - 1))
  }

  lemma ScaledMonotone(base: int, m: nat, n: nat)
    requires base > 0 && m <= n
    ensures base * Pow2(m) <= base * Pow2(n)
  {
    Pow2Monotone(m, n);
  }

  lemma Doubles(base: int, n: nat)
    ensures base * Pow2(n + 1) == 2 * (base * Pow2(n))
  {
  }

  /** Doubling a positive int64 either fits or wraps to a negative number. */
  lemma DoubleWraps(d: int)
    requires 0 < d < TWO_63
    ensures Wrap(d * 2) == if d * 2 < TWO_63 then d * 2 else d * 2 - TWO_64
    ensures d * 2 >= TWO_63 ==> Wrap(d * 2) < 0
  {
  }

  /**
   * backoffDelay before jitter: the wrapped doubling loop computes the exponential delay on
   * unbounded integers, capped.
   */
  method DelayBeforeJitter(base: int, cap: int, failures: int) returns (d: int)
    requires IsInt64(base) && IsInt64(cap) && IsInt64(failures) && base > 0 && cap > 0
    ensures d == Exponential(base, cap, failures) && 0 < d < TWO_63
  {
    if failures <= 1 {
      return base;
    }
    d := base;
    assert base * Pow2(0) == base;
    for i := 1 to failures
      invariant d == base * Pow2(i - 1) && 0 < d < TWO_63
      invariant i > 1 ==> d < cap
    {
      DoubleWraps(d);
      Doubles(base, i - 1);
      ScaledMonotone(base, i, failures - 1);
      d := Wrap(d * 2);
      if d <= 0 || d >= cap {
        return cap;
      }
    }
  }

  /** withJitter; random stands for rand.Int63n(half + 1). */
  function WithJitter(d: int, random: int): int
    requires d > 0 ==> 0 <= random <= d / 2
  {
    if d <= 0 then d else Wrap(d / 2 + random)
  }

  /** Jitter keeps a positive delay within its upper half, and reaches both ends' neighbourhood. */
  lemma JitterRange(d: int, random: int)
    requires 0 < d < TWO_63 && 0 <= random <= d / 2
    ensures d / 2 <= WithJitter(d, random) <= d
    ensures WithJitter(d, 0) == d / 2 && WithJitter(d, d / 2) == d - d % 2
  {
  }

  /**
   * The comment on backoffDelay promises that jitter keeps the delay strictly positive. That
   * holds, for every random number, exactly when the delay before jitter is not one nanosecond.
   */
  lemma JitterStaysPositive(d: int)
    requires 0 < d < TWO_63
    ensures (forall random | 0 <= random <= d / 2 :: WithJitter(d, random) > 0) <==> d != 1
  {
    assert d == 1 ==> WithJitter(d, 0) == 0;
    forall random | 0 <= random <= d / 2 && d != 1 ensures WithJitter(d, random) > 0 {
      JitterRange(d, random);
    }
  }

  /** A longer failure streak never shortens the delay, and the cap is reached and kept. */
  lemma DelayGrows(base: int, cap: int, f: int, g: int)
    requires base > 0 && base <= cap && f <= g
    ensures 0 < Exponential(base, cap, f) <= Exponential(base, cap, g) <= cap
    ensures Exponential(base, cap, f) == cap && f >= 2 ==> Exponential(base, cap, g) == cap
  {
    if f >= 2 {
      ScaledMonotone(base, f - 1, g - 1);
    }
    if g >= 2 {
      ScaledMonotone(base, 0, g - 1);
      assert base * Pow2(0) == base;
    }
  }

  /** The delay starts at the base and doubles with every further failure until it meets the cap. */
  lemma DelayDoubles(base: int, cap: int, failures: int)
    requires 0 < base <= cap
    ensures failures <= 1 ==> Exponential(base, cap, failures) == base
    ensures failures >= 1 ==>
      Exponential(base, cap, failures + 1) == Min(cap, 2 * Exponential(base, cap, failures))
  {
    if failures >= 1 {
      Doubles(base, failures - 1);
      assert base * Pow2(0) == base;
    }
  }
}
