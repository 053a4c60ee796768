/**
 * Counting over the first `q` values of a function on `nat`: how many of
 * them equal a given value, and their sum. The period counts and the home
 * counts of the SMT2 model are built from these.
 */
module Counting {

  /** How many of `c(0)`, ..., `c(q - 1)` equal `x`. */
  function CountBelow(c: nat -> int, x: int, q: int): nat
    decreases q
  {
    if q <= 0 then 0 else CountBelow(c, x, q - 1) + (if c(q - 1) == x then 1 else 0)
  }

  /** `c(0) + ... + c(q - 1)`. */
  function SumBelow(c: nat -> int, q: int): int
    decreases q
  {
    if q <= 0 then 0 else SumBelow(c, q - 1) + c(q - 1)
  }

  /** For every value `x`, how many of `v(0)`, ..., `v(k - 1)` equal it. */
  function Tally(v: nat -> int, k: int): nat -> int {
    (x: nat) => CountBelow(v, x, k)
  }

  /** Counting only looks at the values below `q`. */
  lemma {:induction false} CountAgree(c1: nat -> int, c2: nat -> int, x: int, q: int)
    requires forall p: nat :: p < q ==> c1(p) == c2(p)
    ensures CountBelow(c1, x, q) == CountBelow(c2, x, q)
    decreases q
  {
    if q > 0 {
      CountAgree(c1, c2, x, q - 1);
    }
  }

  /** Summing only looks at the values below `q`. */
  lemma {:induction false} SumAgree(c1: nat -> int, c2: nat -> int, q: int)
    requires forall p: nat :: p < q ==> c1(p) == c2(p)
    ensures SumBelow(c1, q) == SumBelow(c2, q)
    decreases q
  {
    if q > 0 {
      SumAgree(c1, c2, q - 1);
    }
  }

  /** A value counted zero times below `q` is taken nowhere below `q`. */
  lemma {:induction false} NoneBelow(c: nat -> int, x: int, q: int, p: nat)
    requires CountBelow(c, x, q) == 0 && p < q
    ensures c(p) != x
    decreases q
  {
    if p < q - 1 {
      NoneBelow(c, x, q - 1, p);
    }
  }

  /** Values in `0..2` sum to twice their number, less one per 1 and two per 0. */
  lemma {:induction false} SumOfSmall(c: nat -> int, q: int)
    requires forall p: nat :: p < q ==> 0 <= c(p) <= 2
    ensures SumBelow(c, q) == 2 * (if q < 0 then 0 else q) - CountBelow(c, 1, q) - 2 * CountBelow(c, 0, q)
    decreases q
  {
    if q > 0 {
      SumOfSmall(c, q - 1);
    }
  }

  /**
   * `q` values in `0..2` summing to `2q - 1`: none is 0 and exactly one is 1.
   * This is why at most two games per period over `2P - 1` weeks already
   * forces at least one game in every period and a single period with one.
   */
  lemma ExactCounts(c: nat -> int, q: int)
    requires forall p: nat :: p < q ==> 0 <= c(p) <= 2
    requires SumBelow(c, q) == 2 * q - 1
    ensures forall p: nat :: p < q ==> c(p) >= 1
    ensures CountBelow(c, 1, q) == 1
  {
    SumOfSmall(c, q);
    forall p: nat | p < q
      ensures c(p) >= 1
    {
      NoneBelow(c, 0, q, p);
    }
  }

  /** Nothing is tallied before the first value. */
  lemma {:induction false} TallyEmpty(v: nat -> int, q: int)
    ensures SumBelow(Tally(v, 0), q) == 0
    decreases q
  {
    if q > 0 {
      TallyEmpty(v, q - 1);
    }
  }

  /** Tallying `v(k)` as well adds one to the total below `q` exactly when `0 <= v(k) < q`. */
  lemma {:induction false} TallyStep(v: nat -> int, k: nat, q: int)
    ensures SumBelow(Tally(v, k + 1), q) == SumBelow(Tally(v, k), q) + (if 0 <= v(k) < q then 1 else 0)
    decreases q
  {
    if q > 0 {
      TallyStep(v, k, q - 1);
    }
  }

  /** When every one of `v(0)`, ..., `v(k - 1)` lies in `0..q - 1`, the tallies below `q` add up to `k`. */
  lemma {:induction false} TallyTotal(v: nat -> int, k: nat, q: int)
    requires forall w: nat :: w < k ==> 0 <= v(w) < q
    ensures SumBelow(Tally(v, k), q) == k
    decreases k
  {
    if k == 0 {
      TallyEmpty(v, q);
    } else {
      TallyTotal(v, k - 1, q);
      TallyStep(v, k - 1, q);
    }
  }
}
