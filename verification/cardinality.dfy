/**
 * The CNF cardinality encodings of source/SAT/sat_dimacs.py, as clause lists,
 * and what they mean: a clause is a list of non-zero literals (`v` or `-v`),
 * an assignment gives every variable a truth value.
 */
module Cardinality {

  type Clause = seq<int>

  /** A truth value for every variable. */
  type Assignment = int -> bool

  /** The variable of a literal. */
  function Var(l: int): int { if l < 0 then -l else l }

  predicate LitTrue(a: Assignment, l: int) {
    if l > 0 then a(l) else !a(-l)
  }

  predicate ClauseSat(a: Assignment, c: Clause) {
    exists i :: 0 <= i < |c| && LitTrue(a, c[i])
  }

  predicate CnfSat(a: Assignment, cs: seq<Clause>) {
    forall c :: c in cs ==> ClauseSat(a, c)
  }

  /** How many of the literals `lits` are true, counting every position. */
  function CountTrue(a: Assignment, lits: seq<int>): nat {
    if lits == [] then 0 else (if LitTrue(a, lits[0]) then 1 else 0) + CountTrue(a, lits[1..])
  }

  lemma {:induction false} CountTrueSnoc(a: Assignment, lits: seq<int>, l: int)
    ensures CountTrue(a, lits + [l]) == CountTrue(a, lits) + (if LitTrue(a, l) then 1 else 0)
  {
    if lits != [] {
      assert (lits + [l])[1..] == lits[1..] + [l];
      CountTrueSnoc(a, lits[1..], l);
    }
  }

  /** Exactly one true literal: there is one, and any two true positions coincide. */
  lemma {:induction false} CountOne(a: Assignment, lits: seq<int>)
    requires CountTrue(a, lits) == 1
    ensures exists i :: 0 <= i < |lits| && LitTrue(a, lits[i])
    ensures forall i, j :: 0 <= i < |lits| && 0 <= j < |lits| && LitTrue(a, lits[i]) && LitTrue(a, lits[j]) ==> i == j
  {
    var rest := lits[1..];
    assert forall i :: 1 <= i < |lits| ==> lits[i] == rest[i - 1];
    if LitTrue(a, lits[0]) {
      NoneTrue(a, rest);
    } else {
      CountOne(a, rest);
      var k :| 0 <= k < |rest| && LitTrue(a, rest[k]);
      assert LitTrue(a, lits[k + 1]);
    }
  }

  lemma CnfSatAppend(a: Assignment, c1: seq<Clause>, c2: seq<Clause>)
    ensures CnfSat(a, c1 + c2) <==> CnfSat(a, c1) && CnfSat(a, c2)
  {
    assert forall c :: c in c1 + c2 <==> c in c1 || c in c2;
  }

  // ---------------------------------------------------------------------------
  // exactly_one and at_most_2
  // ---------------------------------------------------------------------------

  /**
   * `[prefix + [-lits[i], -lits[j]] for i, j in combinations(range(len(lits)), 2)]`,
   * in the order of the two nested loops (`i` outer, `j` inner).
   */
  function PairClauses(prefix: Clause, lits: seq<int>): (cs: seq<Clause>)
    ensures |lits| < 2 ==> cs == []
  {
    if |lits| < 2 then [] else HeadPairs(prefix, lits) + PairClauses(prefix, lits[1..])
  }

  /** The clauses of one pass of the outer loop: `lits[0]` against each later literal. */
  function HeadPairs(prefix: Clause, lits: seq<int>): (cs: seq<Clause>)
    requires |lits| >= 1
    ensures |cs| == |lits| - 1
  {
    seq(|lits| - 1, j requires 0 <= j < |lits| - 1 => prefix + [-lits[0], -lits[j + 1]])
  }

  /** The pairs from position `i` on split into the pass for `lits[i]` and the rest. */
  lemma PairClausesFrom(prefix: Clause, lits: seq<int>, i: int)
    requires 0 <= i < |lits|
    ensures PairClauses(prefix, lits[i..]) == HeadPairs(prefix, lits[i..]) + PairClauses(prefix, lits[i + 1..])
  {
    assert lits[i..][1..] == lits[i + 1..];
  }

  /** The clauses `exactly_one(lits)` adds: `lits` itself, then one binary clause per pair. */
  function ExactlyOneClauses(lits: seq<int>): (cs: seq<Clause>)
    ensures lits == [] ==> cs == []
    ensures lits != [] ==> |cs| >= 1 && cs[0] == lits
  {
    if lits == [] then [] else [lits] + PairClauses([], lits)
  }

  /** The clauses `at_most_2(lits)` adds: `[-a, -b, -c]` for every triple, in `combinations` order. */
  function AtMost2Clauses(lits: seq<int>): (cs: seq<Clause>)
    ensures |lits| <= 2 ==> cs == []
  {
    if |lits| <= 2 then []
    else PairClauses([-lits[0]], lits[1..]) + AtMost2Clauses(lits[1..])
  }

  /** One clause per pair of positions: `len(lits) choose 2` of them. */
  lemma {:induction false} PairClausesCount(prefix: Clause, lits: seq<int>)
    ensures 2 * |PairClauses(prefix, lits)| == |lits| * (|lits| - 1)
  {
    if |lits| >= 2 {
      PairClausesCount(prefix, lits[1..]);
      var k := |lits|;
      assert 2 * (k - 1) + (k - 1) * (k - 2) == k * (k - 1);
    }
  }

  /** `exactly_one` adds the clause `lits` and then one binary clause per pair. */
  lemma ExactlyOneCount(lits: seq<int>)
    ensures lits != [] ==> 2 * (|ExactlyOneClauses(lits)| - 1) == |lits| * (|lits| - 1)
  {
    PairClausesCount([], lits);
  }

  /** `at_most_2` adds one clause per triple: `len(lits) choose 3` of them. */
  lemma {:induction false} AtMost2Count(lits: seq<int>)
    ensures 6 * |AtMost2Clauses(lits)| == |lits| * (|lits| - 1) * (|lits| - 2)
  {
    if |lits| > 2 {
      AtMost2Count(lits[1..]);
      PairClausesCount([-lits[0]], lits[1..]);
      TripleCount(|lits|);
    }
  }

  /** `combinations(lits, 2)`: pairs of positions `i < j`, `i` varying slowest. */
  function Combinations2(lits: seq<int>): (ps: seq<(int, int)>)
    ensures |ps| == |PairClauses([], lits)|
  {
    if |lits| < 2 then [] else HeadCombinations(lits) + Combinations2(lits[1..])
  }

  /** The pairs starting at `lits[0]`. */
  function HeadCombinations(lits: seq<int>): (ps: seq<(int, int)>)
    requires |lits| >= 1
    ensures |ps| == |lits| - 1
  {
    seq(|lits| - 1, j requires 0 <= j < |lits| - 1 => (lits[0], lits[j + 1]))
  }

  /** `(x, b, c)` for each pair `(b, c)`. */
  function Headed(x: int, ps: seq<(int, int)>): (ts: seq<(int, int, int)>)
    ensures |ts| == |ps|
  {
    seq(|ps|, j requires 0 <= j < |ps| => (x, ps[j].0, ps[j].1))
  }

  /** `combinations(lits, 3)`, in the same lexicographic order of positions. */
  function Combinations3(lits: seq<int>): seq<(int, int, int)> {
    if |lits| < 3 then [] else Headed(lits[0], Combinations2(lits[1..])) + Combinations3(lits[1..])
  }

  /** `[-a, -b, -c]` for each triple, in order. */
  function NegatedTriples(ts: seq<(int, int, int)>): (cs: seq<Clause>)
    ensures |cs| == |ts|
  {
    seq(|ts|, i requires 0 <= i < |ts| => [-ts[i].0, -ts[i].1, -ts[i].2])
  }

  lemma NegatedTriplesAppend(t1: seq<(int, int, int)>, t2: seq<(int, int, int)>)
    ensures NegatedTriples(t1 + t2) == NegatedTriples(t1) + NegatedTriples(t2)
  {
  }

  lemma HeadedAppend(x: int, p1: seq<(int, int)>, p2: seq<(int, int)>)
    ensures Headed(x, p1 + p2) == Headed(x, p1) + Headed(x, p2)
  {
  }

  /** The pair clauses under the unit prefix `[-x]` are the negated triples headed by `x`. */
  lemma {:induction false} PairClausesAsTriples(x: int, lits: seq<int>)
    ensures PairClauses([-x], lits) == NegatedTriples(Headed(x, Combinations2(lits)))
  {
    if |lits| >= 2 {
      PairClausesAsTriples(x, lits[1..]);
      HeadedAppend(x, HeadCombinations(lits), Combinations2(lits[1..]));
      NegatedTriplesAppend(Headed(x, HeadCombinations(lits)), Headed(x, Combinations2(lits[1..])));
      var hp, ht := HeadPairs([-x], lits), NegatedTriples(Headed(x, HeadCombinations(lits)));
      forall j | 0 <= j < |hp| ensures hp[j] == ht[j] {
        assert hp[j] == [-x] + [-lits[0], -lits[j + 1]];
      }
    }
  }

  /** `at_most_2` walks `combinations(lits, 3)`; the clause list it builds is `AtMost2Clauses`. */
  lemma {:induction false} AtMost2ClausesAsTriples(lits: seq<int>)
    ensures AtMost2Clauses(lits) == NegatedTriples(Combinations3(lits))
  {
    if |lits| > 2 {
      AtMost2ClausesAsTriples(lits[1..]);
      PairClausesAsTriples(lits[0], lits[1..]);
      NegatedTriplesAppend(Headed(lits[0], Combinations2(lits[1..])), Combinations3(lits[1..]));
    }
  }

  lemma TripleCount(k: int)
    requires k >= 3
    ensures 3 * ((k - 1) * (k - 2)) + (k - 1) * (k - 2) * (k - 3) == k * (k - 1) * (k - 2)
  {
    var q := (k - 1) * (k - 2);
    assert 3 * q + q * (k - 3) == q * k;
  }

  /** A clause `prefix + c` holds when the prefix or `c` holds. */
  lemma ClauseSatAppend(a: Assignment, prefix: Clause, c: Clause)
    ensures ClauseSat(a, prefix + c) <==> ClauseSat(a, prefix) || ClauseSat(a, c)
  {
    var pc := prefix + c;
    if ClauseSat(a, pc) {
      var i :| 0 <= i < |pc| && LitTrue(a, pc[i]);
      if i < |prefix| {
        assert prefix[i] == pc[i];
      } else {
        assert c[i - |prefix|] == pc[i];
      }
    }
    if ClauseSat(a, prefix) {
      var i :| 0 <= i < |prefix| && LitTrue(a, prefix[i]);
      assert pc[i] == prefix[i];
    }
    if ClauseSat(a, c) {
      var i :| 0 <= i < |c| && LitTrue(a, c[i]);
      assert pc[|prefix| + i] == c[i];
    }
  }

  /** The clauses headed by `lits[0]` hold when the prefix holds or `lits[0]` is false or nothing after it is true. */
  lemma HeadClausesSat(a: Assignment, prefix: Clause, lits: seq<int>)
    requires |lits| >= 2 && forall i :: 0 <= i < |lits| ==> lits[i] != 0
    ensures CnfSat(a, HeadPairs(prefix, lits))
        <==> ClauseSat(a, prefix) || !LitTrue(a, lits[0]) || CountTrue(a, lits[1..]) == 0
  {
    var hs := HeadPairs(prefix, lits);
    forall j | 0 <= j < |lits| - 1
      ensures ClauseSat(a, hs[j]) <==> ClauseSat(a, prefix) || !LitTrue(a, lits[0]) || !LitTrue(a, lits[j + 1])
    {
      ClauseSatAppend(a, prefix, [-lits[0], -lits[j + 1]]);
      NegatedPairSat(a, lits[0], lits[j + 1]);
    }
    var rest := lits[1..];
    NoneTrue(a, rest);
    assert forall j :: 0 <= j < |rest| ==> rest[j] == lits[j + 1];
    if CnfSat(a, hs) && !ClauseSat(a, prefix) && LitTrue(a, lits[0]) {
      forall j | 0 <= j < |rest| ensures !LitTrue(a, rest[j]) {
        assert hs[j] in hs;
      }
    }
  }

  lemma NegatedPairSat(a: Assignment, x: int, y: int)
    requires x != 0 && y != 0
    ensures ClauseSat(a, [-x, -y]) <==> !LitTrue(a, x) || !LitTrue(a, y)
  {
    NegLit(a, x);
    NegLit(a, y);
    assert [-x, -y][0] == -x && [-x, -y][1] == -y;
  }

  /** `-l` is true exactly when `l` is false (for a non-zero literal). */
  lemma NegLit(a: Assignment, l: int)
    ensures l != 0 ==> (LitTrue(a, -l) <==> !LitTrue(a, l))
  {
  }

  lemma {:induction false} NoneTrue(a: Assignment, lits: seq<int>)
    ensures CountTrue(a, lits) == 0 <==> forall i :: 0 <= i < |lits| ==> !LitTrue(a, lits[i])
  {
    if lits != [] {
      NoneTrue(a, lits[1..]);
      assert forall i :: 1 <= i < |lits| ==> lits[i] == lits[1..][i - 1];
    }
  }

  /** `PairClauses(prefix, lits)` holds when the prefix holds or at most one literal is true. */
  lemma {:induction false} PairClausesSat(a: Assignment, prefix: Clause, lits: seq<int>)
    requires forall i :: 0 <= i < |lits| ==> lits[i] != 0
    ensures CnfSat(a, PairClauses(prefix, lits)) <==> ClauseSat(a, prefix) || CountTrue(a, lits) <= 1
  {
    if |lits| >= 2 {
      CnfSatAppend(a, HeadPairs(prefix, lits), PairClauses(prefix, lits[1..]));
      HeadClausesSat(a, prefix, lits);
      PairClausesSat(a, prefix, lits[1..]);
    } else if |lits| == 1 {
      assert lits[1..] == [];
    }
  }

  /** `exactly_one(lits)` is satisfied exactly when exactly one literal is true. */
  lemma ExactlyOneSat(a: Assignment, lits: seq<int>)
    requires lits != [] && forall i :: 0 <= i < |lits| ==> lits[i] != 0
    ensures CnfSat(a, ExactlyOneClauses(lits)) <==> CountTrue(a, lits) == 1
  {
    CnfSatAppend(a, [lits], PairClauses([], lits));
    PairClausesSat(a, [], lits);
    NoneTrue(a, lits);
    assert CnfSat(a, [lits]) <==> ClauseSat(a, lits);
  }

  /** `at_most_2(lits)` is satisfied exactly when at most two literals are true. */
  lemma {:induction false} AtMost2Sat(a: Assignment, lits: seq<int>)
    requires forall i :: 0 <= i < |lits| ==> lits[i] != 0
    ensures CnfSat(a, AtMost2Clauses(lits)) <==> CountTrue(a, lits) <= 2
  {
    if |lits| > 2 {
      var rest := lits[1..];
      CnfSatAppend(a, PairClauses([-lits[0]], rest), AtMost2Clauses(rest));
      PairClausesSat(a, [-lits[0]], rest);
      AtMost2Sat(a, rest);
      NegLit(a, lits[0]);
      assert ClauseSat(a, [-lits[0]]) <==> LitTrue(a, -lits[0]) by {
        assert [-lits[0]][0] == -lits[0];
      }
    } else {
      CountAtMostLength(a, lits);
    }
  }

  lemma {:induction false} CountAtMostLength(a: Assignment, lits: seq<int>)
    ensures CountTrue(a, lits) <= |lits|
  {
    if lits != [] {
      CountAtMostLength(a, lits[1..]);
    }
  }

  // ---------------------------------------------------------------------------
  // at_most_2_seq: two sequential counters
  // ---------------------------------------------------------------------------

  /**
   * The clauses `at_most_2_seq(lits, tag)` adds, given the ids `s` and `t` it
   * allocated: `s[i]` reads "one of `lits[0..i]` is true", `t[i]` "two are".
   */
  function SeqCounterClauses(lits: seq<int>, s: seq<int>, t: seq<int>): (cs: seq<Clause>)
    requires |s| == |lits| - 1 && |t| == |lits| - 1
  {
    if |lits| <= 2 then []
    else [[-lits[0], s[0]]] + CounterSteps(lits, s, t, 1) + ThirdForbidden(lits, t, 2)
  }

  /** The five clauses of step `i` of the counters. */
  function CounterStep(lits: seq<int>, s: seq<int>, t: seq<int>, i: int): seq<Clause>
    requires 1 <= i < |lits| - 1 && |s| == |lits| - 1 && |t| == |lits| - 1
  {
    [[-lits[i], s[i]], [-s[i - 1], s[i]], [-lits[i], -s[i - 1], t[i]], [-t[i - 1], t[i]], [-t[i], s[i]]]
  }

  /** Steps `i..n-2`, in loop order. */
  function CounterSteps(lits: seq<int>, s: seq<int>, t: seq<int>, i: int): seq<Clause>
    requires 1 <= i && |s| == |lits| - 1 && |t| == |lits| - 1
    decreases |lits| - i
  {
    if i >= |lits| - 1 then [] else CounterStep(lits, s, t, i) + CounterSteps(lits, s, t, i + 1)
  }

  /** `[-lits[i], -t[i-1]]` for `i` from the given one up to `n-1`. */
  function ThirdForbidden(lits: seq<int>, t: seq<int>, i: int): seq<Clause>
    requires 1 <= i && |t| == |lits| - 1
    decreases |lits| - i
  {
    if i >= |lits| then [] else [[-lits[i], -t[i - 1]]] + ThirdForbidden(lits, t, i + 1)
  }

  lemma {:induction false} CounterStepIn(lits: seq<int>, s: seq<int>, t: seq<int>, i: int, k: int)
    requires 1 <= i <= k < |lits| - 1 && |s| == |lits| - 1 && |t| == |lits| - 1
    ensures forall c :: c in CounterStep(lits, s, t, k) ==> c in CounterSteps(lits, s, t, i)
    decreases k - i
  {
    if i < k {
      CounterStepIn(lits, s, t, i + 1, k);
    }
  }

  lemma {:induction false} ThirdForbiddenIn(lits: seq<int>, t: seq<int>, i: int, k: int)
    requires 1 <= i <= k < |lits| && |t| == |lits| - 1
    ensures [-lits[k], -t[k - 1]] in ThirdForbidden(lits, t, i)
    decreases k - i
  {
    if i < k {
      ThirdForbiddenIn(lits, t, i + 1, k);
    }
  }

  lemma {:induction false} CounterStepsMember(lits: seq<int>, s: seq<int>, t: seq<int>, i: int, c: Clause)
    requires 1 <= i && |s| == |lits| - 1 && |t| == |lits| - 1
    requires c in CounterSteps(lits, s, t, i)
    ensures exists k :: i <= k < |lits| - 1 && c in CounterStep(lits, s, t, k)
    decreases |lits| - i
  {
    if c !in CounterStep(lits, s, t, i) {
      CounterStepsMember(lits, s, t, i + 1, c);
    }
  }

  lemma {:induction false} ThirdForbiddenMember(lits: seq<int>, t: seq<int>, i: int, c: Clause)
    requires 1 <= i && |t| == |lits| - 1
    requires c in ThirdForbidden(lits, t, i)
    ensures exists k :: i <= k < |lits| && c == [-lits[k], -t[k - 1]]
    decreases |lits| - i
  {
    if c != [-lits[i], -t[i - 1]] {
      ThirdForbiddenMember(lits, t, i + 1, c);
    }
  }

  /** A clause read literal by literal: the clause holds iff one of its listed literals does. */
  lemma Clause2(a: Assignment, x: int, y: int)
    ensures ClauseSat(a, [x, y]) <==> LitTrue(a, x) || LitTrue(a, y)
  {
    assert [x, y][0] == x && [x, y][1] == y;
  }

  lemma Clause3(a: Assignment, x: int, y: int, z: int)
    ensures ClauseSat(a, [x, y, z]) <==> LitTrue(a, x) || LitTrue(a, y) || LitTrue(a, z)
  {
    assert [x, y, z][0] == x && [x, y, z][1] == y && [x, y, z][2] == z;
  }

  lemma PrefixCount(a: Assignment, lits: seq<int>, i: int)
    requires 0 <= i < |lits|
    ensures CountTrue(a, lits[..i + 1]) == CountTrue(a, lits[..i]) + (if LitTrue(a, lits[i]) then 1 else 0)
  {
    assert lits[..i + 1] == lits[..i] + [lits[i]];
    CountTrueSnoc(a, lits[..i], lits[i]);
  }

  /** In a satisfying assignment the counters are at least the true prefix counts. */
  lemma {:induction false} CountersBound(a: Assignment, lits: seq<int>, s: seq<int>, t: seq<int>, i: int)
    requires |lits| > 2 && |s| == |lits| - 1 && |t| == |lits| - 1
    requires (forall k :: 0 <= k < |lits| ==> lits[k] != 0) && forall k :: 0 <= k < |s| ==> s[k] != 0 && t[k] != 0
    requires CnfSat(a, SeqCounterClauses(lits, s, t))
    requires 0 <= i < |lits| - 1
    ensures CountTrue(a, lits[..i + 1]) >= 1 ==> LitTrue(a, s[i])
    ensures CountTrue(a, lits[..i + 1]) >= 2 ==> LitTrue(a, t[i])
  {
    var cs := SeqCounterClauses(lits, s, t);
    PrefixCount(a, lits, i);
    if i == 0 {
      assert [-lits[0], s[0]] in cs;
      Clause2(a, -lits[0], s[0]);
      NegLit(a, lits[0]);
      assert lits[..0] == [];
    } else {
      CountersBound(a, lits, s, t, i - 1);
      CounterStepIn(lits, s, t, 1, i);
      assert CnfSat(a, CounterStep(lits, s, t, i));
      CounterStepBound(a, lits, s, t, i);
    }
  }

  /** One step of the counters carries the bound from position `i-1` to position `i`. */
  lemma CounterStepBound(a: Assignment, lits: seq<int>, s: seq<int>, t: seq<int>, i: int)
    requires 1 <= i < |lits| - 1 && |s| == |lits| - 1 && |t| == |lits| - 1
    requires lits[i] != 0 && s[i - 1] != 0 && t[i - 1] != 0
    requires CnfSat(a, CounterStep(lits, s, t, i))
    requires CountTrue(a, lits[..i]) >= 1 ==> LitTrue(a, s[i - 1])
    requires CountTrue(a, lits[..i]) >= 2 ==> LitTrue(a, t[i - 1])
    ensures CountTrue(a, lits[..i + 1]) >= 1 ==> LitTrue(a, s[i])
    ensures CountTrue(a, lits[..i + 1]) >= 2 ==> LitTrue(a, t[i])
  {
    var x := lits[i];
    var cs := CounterStep(lits, s, t, i);
    PrefixCount(a, lits, i);
    assert cs[0] == [-x, s[i]] && cs[1] == [-s[i - 1], s[i]] && cs[2] == [-x, -s[i - 1], t[i]] && cs[3] == [-t[i - 1], t[i]];
    assert cs[0] in cs && cs[1] in cs && cs[2] in cs && cs[3] in cs;
    Clause2(a, -x, s[i]);
    Clause2(a, -s[i - 1], s[i]);
    Clause3(a, -x, -s[i - 1], t[i]);
    Clause2(a, -t[i - 1], t[i]);
    NegLit(a, x);
    NegLit(a, s[i - 1]);
    NegLit(a, t[i - 1]);
  }

  lemma {:induction false} PrefixAtMost2(a: Assignment, lits: seq<int>, s: seq<int>, t: seq<int>, i: int)
    requires |lits| > 2 && |s| == |lits| - 1 && |t| == |lits| - 1
    requires (forall k :: 0 <= k < |lits| ==> lits[k] != 0) && forall k :: 0 <= k < |s| ==> s[k] != 0 && t[k] != 0
    requires CnfSat(a, SeqCounterClauses(lits, s, t))
    requires 2 <= i <= |lits|
    ensures CountTrue(a, lits[..i]) <= 2
  {
    if i == 2 {
      CountAtMostLength(a, lits[..2]);
    } else {
      PrefixAtMost2(a, lits, s, t, i - 1);
      PrefixCount(a, lits, i - 1);
      CountersBound(a, lits, s, t, i - 2);
      ThirdForbiddenIn(lits, t, 2, i - 1);
      Clause2(a, -lits[i - 1], -t[i - 2]);
      NegLit(a, lits[i - 1]);
      NegLit(a, t[i - 2]);
    }
  }

  /** Any assignment satisfying the sequential counters has at most two true literals. */
  lemma SeqCounterSound(a: Assignment, lits: seq<int>, s: seq<int>, t: seq<int>)
    requires |s| == |lits| - 1 && |t| == |lits| - 1
    requires (forall k :: 0 <= k < |lits| ==> lits[k] != 0) && forall k :: 0 <= k < |s| ==> s[k] != 0 && t[k] != 0
    requires CnfSat(a, SeqCounterClauses(lits, s, t))
    ensures CountTrue(a, lits) <= 2
  {
    if |lits| > 2 {
      PrefixAtMost2(a, lits, s, t, |lits|);
      assert lits[..|lits|] == lits;
    } else {
      CountAtMostLength(a, lits);
    }
  }

  /** The auxiliary ids are positive, pairwise distinct and distinct from every variable of `lits`. */
  predicate FreshAux(lits: seq<int>, aux: seq<int>) {
    (forall i :: 0 <= i < |aux| ==> aux[i] > 0)
    && (forall i, j :: 0 <= i < j < |aux| ==> aux[i] != aux[j])
    && (forall i, k :: 0 <= i < |aux| && 0 <= k < |lits| ==> aux[i] != Var(lits[k]))
  }

  /** `b` agrees with `a` on every variable outside `aux`. */
  ghost predicate AgreeOff(b: Assignment, a: Assignment, aux: seq<int>) {
    forall v :: v !in aux ==> b(v) == a(v)
  }

  /** The first position of `v` in `xs` (`|xs|` when absent). */
  function IndexOf(xs: seq<int>, v: int): (i: nat)
    ensures i <= |xs| && (i < |xs| ==> xs[i] == v)
  {
    if xs == [] then 0 else if xs[0] == v then 0 else 1 + IndexOf(xs[1..], v)
  }

  lemma {:induction false} IndexOfDistinct(xs: seq<int>, i: nat)
    requires i < |xs| && forall p, q :: 0 <= p < q < |xs| ==> xs[p] != xs[q]
    ensures IndexOf(xs, xs[i]) == i
  {
    if i > 0 {
      assert xs[1..][i - 1] == xs[i];
      IndexOfDistinct(xs[1..], i - 1);
    }
  }

  /** The counter values of the source's intended reading, on top of `a`. */
  function CounterValue(a: Assignment, lits: seq<int>, s: seq<int>, t: seq<int>, v: int): bool
    requires |s| == |lits| - 1 && |t| == |lits| - 1
  {
    var i := IndexOf(s + t, v);
    if i < |s| then CountTrue(a, lits[..i + 1]) >= 1
    else if i < |s| + |t| then CountTrue(a, lits[..i - |s| + 1]) >= 2
    else a(v)
  }

  /** The assignment that takes `a` and gives each counter the value it stands for. */
  function CounterAssignment(a: Assignment, lits: seq<int>, s: seq<int>, t: seq<int>): Assignment
    requires |s| == |lits| - 1 && |t| == |lits| - 1
  {
    v => CounterValue(a, lits, s, t, v)
  }

  lemma {:induction false} CountMonotone(a: Assignment, lits: seq<int>, i: int, j: int)
    requires 0 <= i <= j <= |lits|
    ensures CountTrue(a, lits[..i]) <= CountTrue(a, lits[..j])
    decreases j - i
  {
    if i < j {
      CountMonotone(a, lits, i, j - 1);
      PrefixCount(a, lits, j - 1);
    }
  }

  lemma {:induction false} CountAgree(a: Assignment, b: Assignment, lits: seq<int>)
    requires forall k :: 0 <= k < |lits| ==> (LitTrue(b, lits[k]) <==> LitTrue(a, lits[k]))
    ensures CountTrue(b, lits) == CountTrue(a, lits)
  {
    if lits != [] {
      assert forall k :: 1 <= k < |lits| ==> lits[1..][k - 1] == lits[k];
      CountAgree(a, b, lits[1..]);
    }
  }

  /** `b` sets the literals of `lits` as `a` does and every counter to the prefix count it stands for. */
  ghost predicate CounterModel(a: Assignment, b: Assignment, lits: seq<int>, s: seq<int>, t: seq<int>)
    requires |s| == |lits| - 1 && |t| == |lits| - 1
  {
    (forall k :: 0 <= k < |lits| ==> (LitTrue(b, lits[k]) <==> LitTrue(a, lits[k])))
    && (forall i :: 0 <= i < |s| ==> (LitTrue(b, s[i]) <==> CountTrue(a, lits[..i + 1]) >= 1))
    && (forall i :: 0 <= i < |s| ==> (LitTrue(b, t[i]) <==> CountTrue(a, lits[..i + 1]) >= 2))
  }

  /** The counter assignment on the auxiliaries satisfies every clause when at most two literals are true. */
  lemma SeqCounterComplete(a: Assignment, lits: seq<int>, s: seq<int>, t: seq<int>)
    requires |lits| > 2 && |s| == |lits| - 1 && |t| == |lits| - 1
    requires (forall k :: 0 <= k < |lits| ==> lits[k] != 0) && FreshAux(lits, s + t)
    requires CountTrue(a, lits) <= 2
    ensures exists b :: AgreeOff(b, a, s + t) && CnfSat(b, SeqCounterClauses(lits, s, t))
  {
    var b := CounterAssignment(a, lits, s, t);
    CounterValueModel(a, lits, s, t);
    AuxPositive(lits, s, t);
    var cs := SeqCounterClauses(lits, s, t);
    forall c | c in cs ensures ClauseSat(b, c) {
      SeqCounterClauseSat(a, b, lits, s, t, c);
    }
    assert AgreeOff(b, a, s + t) && CnfSat(b, cs);
  }

  lemma AuxPositive(lits: seq<int>, s: seq<int>, t: seq<int>)
    requires FreshAux(lits, s + t)
    ensures forall i :: 0 <= i < |s| ==> s[i] > 0
    ensures forall i :: 0 <= i < |t| ==> t[i] > 0
  {
    var aux := s + t;
    assert forall i :: 0 <= i < |s| ==> aux[i] == s[i];
    assert forall i :: 0 <= i < |t| ==> aux[|s| + i] == t[i];
  }

  lemma CounterValueModel(a: Assignment, lits: seq<int>, s: seq<int>, t: seq<int>)
    requires |lits| > 2 && |s| == |lits| - 1 && |t| == |lits| - 1
    requires (forall k :: 0 <= k < |lits| ==> lits[k] != 0) && FreshAux(lits, s + t)
    ensures AgreeOff(CounterAssignment(a, lits, s, t), a, s + t)
    ensures CounterModel(a, CounterAssignment(a, lits, s, t), lits, s, t)
  {
    var aux := s + t;
    var b := CounterAssignment(a, lits, s, t);
    forall k | 0 <= k < |lits| ensures LitTrue(b, lits[k]) <==> LitTrue(a, lits[k]) {
      assert Var(lits[k]) !in aux;
    }
    AuxPositive(lits, s, t);
    forall i | 0 <= i < |s|
      ensures LitTrue(b, s[i]) <==> CountTrue(a, lits[..i + 1]) >= 1
      ensures LitTrue(b, t[i]) <==> CountTrue(a, lits[..i + 1]) >= 2
    {
      CounterValueAt(a, lits, s, t, i);
    }
  }

  lemma CounterValueAt(a: Assignment, lits: seq<int>, s: seq<int>, t: seq<int>, i: int)
    requires |s| == |lits| - 1 && |t| == |lits| - 1 && 0 <= i < |s|
    requires FreshAux(lits, s + t)
    ensures CounterValue(a, lits, s, t, s[i]) <==> CountTrue(a, lits[..i + 1]) >= 1
    ensures CounterValue(a, lits, s, t, t[i]) <==> CountTrue(a, lits[..i + 1]) >= 2
  {
    var aux := s + t;
    assert aux[i] == s[i] && aux[|s| + i] == t[i];
    IndexOfDistinct(aux, i);
    IndexOfDistinct(aux, |s| + i);
  }

  /** One clause of the counters under the counter assignment `b`. */
  lemma SeqCounterClauseSat(a: Assignment, b: Assignment, lits: seq<int>, s: seq<int>, t: seq<int>, c: Clause)
    requires |lits| > 2 && |s| == |lits| - 1 && |t| == |lits| - 1
    requires (forall k :: 0 <= k < |lits| ==> lits[k] != 0) && forall k :: 0 <= k < |s| ==> s[k] > 0 && t[k] > 0
    requires CountTrue(a, lits) <= 2 && CounterModel(a, b, lits, s, t)
    requires c in SeqCounterClauses(lits, s, t)
    ensures ClauseSat(b, c)
  {
    if c == [-lits[0], s[0]] {
      Clause2(b, -lits[0], s[0]);
      NegLit(b, lits[0]);
      PrefixCount(a, lits, 0);
      assert lits[..0] == [];
    } else if c in CounterSteps(lits, s, t, 1) {
      CounterStepsMember(lits, s, t, 1, c);
      var i :| 1 <= i < |lits| - 1 && c in CounterStep(lits, s, t, i);
      CounterStepSat(a, b, lits, s, t, i);
    } else {
      ThirdForbiddenMember(lits, t, 2, c);
      var i :| 2 <= i < |lits| && c == [-lits[i], -t[i - 1]];
      ThirdForbiddenSat(a, b, lits, s, t, i);
    }
  }

  lemma CounterStepSat(a: Assignment, b: Assignment, lits: seq<int>, s: seq<int>, t: seq<int>, i: int)
    requires 1 <= i < |lits| - 1 && |s| == |lits| - 1 && |t| == |lits| - 1
    requires lits[i] != 0 && s[i - 1] > 0 && t[i - 1] > 0 && t[i] > 0
    requires CounterModel(a, b, lits, s, t)
    ensures CnfSat(b, CounterStep(lits, s, t, i))
  {
    var x := lits[i];
    PrefixCount(a, lits, i);
    NegLit(b, x);
    NegLit(b, s[i - 1]);
    NegLit(b, t[i - 1]);
    NegLit(b, t[i]);
    Clause2(b, -x, s[i]);
    Clause2(b, -s[i - 1], s[i]);
    Clause3(b, -x, -s[i - 1], t[i]);
    Clause2(b, -t[i - 1], t[i]);
    Clause2(b, -t[i], s[i]);
  }

  lemma ThirdForbiddenSat(a: Assignment, b: Assignment, lits: seq<int>, s: seq<int>, t: seq<int>, i: int)
    requires 2 <= i < |lits| && |s| == |lits| - 1 && |t| == |lits| - 1
    requires lits[i] != 0 && t[i - 1] > 0
    requires CountTrue(a, lits) <= 2 && CounterModel(a, b, lits, s, t)
    ensures ClauseSat(b, [-lits[i], -t[i - 1]])
  {
    PrefixCount(a, lits, i);
    CountMonotone(a, lits, i + 1, |lits|);
    assert lits[..|lits|] == lits;
    NegLit(b, lits[i]);
    NegLit(b, t[i - 1]);
    Clause2(b, -lits[i], -t[i - 1]);
  }

  /**
   * The two at-most-two encodings have the same solutions on the variables of
   * `lits`: `a` satisfies the triple clauses exactly when the sequential
   * counters can be satisfied by changing `a` on the fresh auxiliaries only.
   */
  lemma SeqCounterEquivalent(a: Assignment, lits: seq<int>, s: seq<int>, t: seq<int>)
    requires |lits| > 2 && |s| == |lits| - 1 && |t| == |lits| - 1
    requires (forall k :: 0 <= k < |lits| ==> lits[k] != 0) && FreshAux(lits, s + t)
    ensures (exists b :: AgreeOff(b, a, s + t) && CnfSat(b, SeqCounterClauses(lits, s, t)))
        <==> CnfSat(a, AtMost2Clauses(lits))
  {
    var aux := s + t;
    AtMost2Sat(a, lits);
    forall i | 0 <= i < |s| ensures s[i] > 0 && t[i] > 0 {
      assert aux[i] == s[i] && aux[|s| + i] == t[i];
    }
    if exists b :: AgreeOff(b, a, aux) && CnfSat(b, SeqCounterClauses(lits, s, t)) {
      var b :| AgreeOff(b, a, aux) && CnfSat(b, SeqCounterClauses(lits, s, t));
      SeqCounterSound(b, lits, s, t);
      forall k | 0 <= k < |lits| ensures LitTrue(b, lits[k]) <==> LitTrue(a, lits[k]) {
        assert Var(lits[k]) !in aux;
      }
      CountAgree(a, b, lits);
    }
    if CountTrue(a, lits) <= 2 {
      SeqCounterComplete(a, lits, s, t);
    }
  }

  // ---------------------------------------------------------------------------
  // Clause lists as sequences of calls: add_clause, exactly_one, at_most_2
  // ---------------------------------------------------------------------------

  /** One call that appends clauses: `add_clause(c)`, `exactly_one(lits)` or `at_most_2(lits)`. */
  datatype Constraint = AnyOf(c: Clause) | ExactlyOne(lits: seq<int>) | AtMostTwo(lits: seq<int>)

  /** The clauses that call appends. */
  function ConstraintClauses(k: Constraint): seq<Clause> {
    match k
    case AnyOf(c) => [c]
    case ExactlyOne(lits) => ExactlyOneClauses(lits)
    case AtMostTwo(lits) => AtMost2Clauses(lits)
  }

  /** What the call demands of an assignment (`exactly_one([])` demands nothing). */
  ghost predicate Holds(a: Assignment, k: Constraint) {
    match k
    case AnyOf(c) => ClauseSat(a, c)
    case ExactlyOne(lits) => lits == [] || CountTrue(a, lits) == 1
    case AtMostTwo(lits) => CountTrue(a, lits) <= 2
  }

  /** The literals of a cardinality call are non-zero, as DIMACS literals are. */
  predicate NonzeroLits(k: Constraint) {
    match k
    case AnyOf(_) => true
    case ExactlyOne(lits) => forall i :: 0 <= i < |lits| ==> lits[i] != 0
    case AtMostTwo(lits) => forall i :: 0 <= i < |lits| ==> lits[i] != 0
  }

  /** The clause list a sequence of calls appends, in call order. */
  function Expand(ks: seq<Constraint>): seq<Clause> {
    if ks == [] then [] else Expand(ks[..|ks| - 1]) + ConstraintClauses(ks[|ks| - 1])
  }

  ghost predicate HoldsAt(a: Assignment, ks: seq<Constraint>, i: int)
    requires 0 <= i < |ks|
  {
    Holds(a, ks[i])
  }

  /** Every call of `ks` is respected by `a`. */
  ghost predicate AllHold(a: Assignment, ks: seq<Constraint>) {
    forall i :: 0 <= i < |ks| ==> HoldsAt(a, ks, i)
  }

  /** The clauses of one call are satisfied exactly when the call's demand holds. */
  lemma ConstraintSat(a: Assignment, k: Constraint)
    requires NonzeroLits(k)
    ensures CnfSat(a, ConstraintClauses(k)) <==> Holds(a, k)
  {
    match k
    case AnyOf(c) =>
      assert CnfSat(a, [c]) <==> ClauseSat(a, c) by {
        assert [c][0] == c;
      }
    case ExactlyOne(lits) =>
      if lits != [] {
        ExactlyOneSat(a, lits);
      }
    case AtMostTwo(lits) =>
      AtMost2Sat(a, lits);
  }

  /** Appending one call appends its clauses. */
  lemma ExpandSnoc(ks: seq<Constraint>, k: Constraint)
    ensures Expand(ks + [k]) == Expand(ks) + ConstraintClauses(k)
  {
    assert (ks + [k])[..|ks|] == ks;
  }

  /** Expanding a concatenation of calls concatenates their clauses. */
  lemma {:induction false} ExpandAppend(k1: seq<Constraint>, k2: seq<Constraint>)
    ensures Expand(k1 + k2) == Expand(k1) + Expand(k2)
    decreases |k2|
  {
    if k2 == [] {
      assert k1 + k2 == k1;
    } else {
      var init, last := k2[..|k2| - 1], k2[|k2| - 1];
      assert init + [last] == k2;
      ExpandAppend(k1, init);
      ExpandAppendStep(k1, init, last);
    }
  }

  /** The step of `ExpandAppend`: one more call at the end. */
  lemma ExpandAppendStep(k1: seq<Constraint>, init: seq<Constraint>, last: Constraint)
    requires Expand(k1 + init) == Expand(k1) + Expand(init)
    ensures Expand(k1 + (init + [last])) == Expand(k1) + Expand(init + [last])
  {
    AppendAssoc(k1, init, [last]);
    ExpandSnoc(k1 + init, last);
    ExpandSnoc(init, last);
    AppendAssoc(Expand(k1), Expand(init), ConstraintClauses(last));
  }

  lemma AppendAssoc<T>(x: seq<T>, y: seq<T>, z: seq<T>)
    ensures (x + y) + z == x + (y + z)
  {
  }

  /** Appending the clauses of further calls to a clause list that ends in `Expand(ks)`. */
  lemma ExpandMore(c0: seq<Clause>, ks: seq<Constraint>, more: seq<Constraint>, before: seq<Clause>, after: seq<Clause>)
    requires before == c0 + Expand(ks) && after == before + Expand(more)
    ensures after == c0 + Expand(ks + more)
  {
    ExpandAppend(ks, more);
    AppendAssoc(c0, Expand(ks), Expand(more));
  }

  /** Appending the clauses of one further call. */
  lemma ExpandOneMore(c0: seq<Clause>, ks: seq<Constraint>, k: Constraint, before: seq<Clause>, after: seq<Clause>)
    requires before == c0 + Expand(ks) && after == before + ConstraintClauses(k)
    ensures after == c0 + Expand(ks + [k])
  {
    ExpandSnoc(ks, k);
    AppendAssoc(c0, Expand(ks), ConstraintClauses(k));
  }

  lemma AllHoldAppend(a: Assignment, k1: seq<Constraint>, k2: seq<Constraint>)
    ensures AllHold(a, k1 + k2) ==> AllHold(a, k1) && AllHold(a, k2)
    ensures AllHold(a, k1) && AllHold(a, k2) ==> AllHold(a, k1 + k2)
  {
    var k := k1 + k2;
    if AllHold(a, k) {
      forall i | 0 <= i < |k1| ensures HoldsAt(a, k1, i) {
        assert HoldsAt(a, k, i);
      }
      forall i | 0 <= i < |k2| ensures HoldsAt(a, k2, i) {
        assert HoldsAt(a, k, |k1| + i);
      }
    }
    if AllHold(a, k1) && AllHold(a, k2) {
      forall i | 0 <= i < |k| ensures HoldsAt(a, k, i) {
        if i < |k1| {
          assert HoldsAt(a, k1, i);
        } else {
          assert HoldsAt(a, k2, i - |k1|);
        }
      }
    }
  }

  lemma AllHoldSingle(a: Assignment, k: Constraint)
    ensures AllHold(a, [k]) <==> Holds(a, k)
  {
    assert HoldsAt(a, [k], 0) == Holds(a, k);
  }

  /**
   * The clause list of a sequence of calls is satisfied exactly when every
   * call's demand holds.
   */
  lemma {:induction false} ExpandSat(a: Assignment, ks: seq<Constraint>)
    requires forall i :: 0 <= i < |ks| ==> NonzeroLits(ks[i])
    ensures CnfSat(a, Expand(ks)) ==> AllHold(a, ks)
    ensures AllHold(a, ks) ==> CnfSat(a, Expand(ks))
  {
    if ks != [] {
      var init := ks[..|ks| - 1];
      var last := ks[|ks| - 1];
      ExpandSat(a, init);
      CnfSatAppend(a, Expand(init), ConstraintClauses(last));
      ConstraintSat(a, last);
      assert ks == init + [last];
      AllHoldAppend(a, init, [last]);
      AllHoldSingle(a, last);
    }
  }
}
