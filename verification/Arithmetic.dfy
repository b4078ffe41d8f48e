/** Powers of two and the least of two integers. */
module Arithmetic {

  function Min(a: int, b: int): int {
    if a < b then a else b
  }

  function Pow2(n: nat): (p: nat)
    ensures p >= 1
  {
    if n == 0 then 1 else 2 * Pow2(n - 1)
  }

  lemma {:induction false} Pow2Monotone(m: nat, n: nat)
    requires m <= n
    ensures Pow2(m) <= Pow2(n)
  {
    if m < n {
      Pow2Monotone(m, n - 1);
    }
  }

  // ---- m x 2^n, by doubling -----------------------------------------------------------

  function Shifted(m: int, n: nat): (r: int)
    ensures m >= 0 ==> r >= m
  {
    if n == 0 then m else 2 * Shifted(m, n - 1)
  }

  ghost function ShiftedReal(d: real, n: nat): real {
    if n == 0 then d else 2.0 * ShiftedReal(d, n - 1)
  }

  lemma {:induction false} ShiftedOrder(a: int, b: int, n: nat)
    ensures a < b <==> Shifted(a, n) < Shifted(b, n)
    ensures a == b <==> Shifted(a, n) == Shifted(b, n)
  {
    if n > 0 {
      ShiftedOrder(a, b, n - 1);
    }
  }

  lemma {:induction false} ShiftedSum(a: int, b: int, n: nat)
    ensures Shifted(a + b, n) == Shifted(a, n) + Shifted(b, n)
  {
    if n > 0 {
      ShiftedSum(a, b, n - 1);
    }
  }

  lemma {:induction false} ShiftedTwice(m: int, n: nat, k: nat)
    ensures Shifted(Shifted(m, k), n) == Shifted(m, n + k)
  {
    if n > 0 {
      ShiftedTwice(m, n - 1, k);
    }
  }

  lemma ShiftedFurther(m: nat, n: nat, k: nat)
    requires n <= k
    ensures Shifted(m, n) <= Shifted(m, k)
  {
    ShiftedTwice(m, n, k - n);
    ShiftedOrder(m, Shifted(m, k - n), n);
  }

  lemma {:induction false} ShiftedRealOrder(a: real, b: real, n: nat)
    ensures a < b <==> ShiftedReal(a, n) < ShiftedReal(b, n)
  {
    if n > 0 {
      ShiftedRealOrder(a, b, n - 1);
    }
  }

  lemma {:induction false} ShiftedAsReal(m: int, n: nat)
    ensures ShiftedReal(m as real, n) == Shifted(m, n) as real
  {
    if n > 0 {
      ShiftedAsReal(m, n - 1);
    }
  }
}
