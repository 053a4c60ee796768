/**
 * The output of nested `for` loops over Python ranges: `Loop(lo, hi, body)`
 * is what `for k in range(lo, hi)` appends when step `k` appends `body(k)`.
 */
module Loops {

  /** The concatenation of `body(lo)`, ..., `body(hi - 1)`; empty when `hi <= lo`. */
  function Loop<T>(lo: nat, hi: int, body: nat -> seq<T>): seq<T>
    decreases hi - lo
  {
    if hi <= lo then [] else Loop(lo, hi - 1, body) + body(hi - 1)
  }

  /** One more step of the loop. */
  lemma LoopSnoc<T>(lo: nat, k: nat, body: nat -> seq<T>)
    requires lo <= k
    ensures Loop(lo, k + 1, body) == Loop(lo, k, body) + body(k)
  {
  }

  /** The value a `for` counter over `range(lo, hi)` has once the loop is done. */
  function Upto(lo: int, hi: int): (r: int)
    ensures r >= lo && r >= hi && (r == lo || r == hi)
  {
    if hi < lo then lo else hi
  }

  /** Appending step `k` to output that already ends in steps `lo .. k - 1`. */
  lemma LoopAppend<T>(prefix: seq<T>, lo: nat, k: nat, body: nat -> seq<T>)
    requires lo <= k
    ensures (prefix + Loop(lo, k, body)) + body(k) == prefix + Loop(lo, k + 1, body)
  {
    LoopSnoc(lo, k, body);
  }

  /** A counter that has reached `Upto(lo, hi)` has run the whole loop. */
  lemma LoopDone<T>(lo: nat, k: int, hi: int, body: nat -> seq<T>)
    requires lo <= k && hi <= k <= Upto(lo, hi)
    ensures Loop(lo, k, body) == Loop(lo, hi, body)
  {
  }

  /** An element comes out of the loop exactly when some step appends it. */
  lemma {:induction false} LoopMember<T>(lo: nat, hi: int, body: nat -> seq<T>, x: T)
    ensures x in Loop(lo, hi, body) <==> exists k: nat :: lo <= k < hi && x in body(k)
    decreases hi - lo
  {
    if hi > lo {
      LoopMember(lo, hi - 1, body, x);
      assert Loop(lo, hi, body) == Loop(lo, hi - 1, body) + body(hi - 1);
      if x in body(hi - 1) {
        var k: nat := hi - 1;
        assert lo <= k < hi && x in body(k);
      }
    }
  }

  /** What step `k` appends comes out of the loop. */
  lemma LoopHas<T>(lo: nat, hi: int, body: nat -> seq<T>, k: nat, x: T)
    requires lo <= k < hi && x in body(k)
    ensures x in Loop(lo, hi, body)
  {
    LoopMember(lo, hi, body, x);
  }

  /** When every step appends `c` elements, the loop appends `(hi - lo) * c`. */
  lemma {:induction false} LoopLength<T>(lo: nat, hi: int, body: nat -> seq<T>, c: nat)
    requires forall k: nat :: lo <= k < hi ==> |body(k)| == c
    ensures |Loop(lo, hi, body)| == if hi <= lo then 0 else (hi - lo) * c
    decreases hi - lo
  {
    if hi > lo {
      LoopLength(lo, hi - 1, body, c);
      assert (hi - lo) * c == (hi - 1 - lo) * c + c;
    }
  }

  /** `r < c` places offset `k * c + r` before `(k + 1) * c`. */
  lemma OffsetBelow(k: nat, r: nat, c: nat, m: nat)
    requires r < c && k < m
    ensures k * c + r < m * c
  {
    assert (k + 1) * c == k * c + c;
    assert (k + 1) * c <= m * c;
  }

  /** With `c` elements per step, element `r` of step `k` sits at offset `(k - lo) * c + r`. */
  lemma {:induction false} LoopAt<T>(lo: nat, hi: int, body: nat -> seq<T>, c: nat, k: nat, r: nat)
    requires forall k: nat :: lo <= k < hi ==> |body(k)| == c
    requires lo <= k < hi && r < c
    ensures (k - lo) * c + r < |Loop(lo, hi, body)|
    ensures Loop(lo, hi, body)[(k - lo) * c + r] == body(k)[r]
    decreases hi - lo
  {
    LoopLength(lo, hi, body, c);
    OffsetBelow(k - lo, r, c, hi - lo);
    LoopLength(lo, hi - 1, body, c);
    var prev := Loop(lo, hi - 1, body);
    if k < hi - 1 {
      LoopAt(lo, hi - 1, body, c, k, r);
    } else {
      assert |prev| == (k - lo) * c;
    }
  }

  /** A loop whose steps append nothing appends nothing. */
  lemma {:induction false} LoopNothing<T>(lo: nat, hi: int, body: nat -> seq<T>)
    requires forall k: nat :: lo <= k < hi ==> body(k) == []
    ensures Loop(lo, hi, body) == []
    decreases hi - lo
  {
    if hi > lo {
      LoopNothing(lo, hi - 1, body);
    }
  }

  /** The step that appends the single element `f(k)`. */
  function Singles<T>(f: nat -> T): nat -> seq<T> {
    (k: nat) => [f(k)]
  }

  /** A loop of single steps lists `f(lo)`, ..., `f(hi - 1)`, in order. */
  lemma SinglesAt<T>(lo: nat, hi: int, f: nat -> T, k: nat)
    requires lo <= k < hi
    ensures |Loop(lo, hi, Singles(f))| == hi - lo
    ensures Loop(lo, hi, Singles(f))[k - lo] == f(k)
  {
    LoopLength(lo, hi, Singles(f), 1);
    LoopAt(lo, hi, Singles(f), 1, k, 0);
  }
}
