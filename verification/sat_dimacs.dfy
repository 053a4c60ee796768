/**
 * The DIMACS encoding session of source/SAT/sat_dimacs.py. The source keeps
 * its state in module globals (`clauses`, `var_index`, `reverse_var`,
 * `next_var`, `weeks`); here they are the fields of one `CnfSession`, and the
 * functions that update them are its methods. What the clause lists mean is
 * stated in the modules Cardinality and SatEncoding; the methods here are
 * proved to build exactly those lists.
 */
module SatDimacs {
  import opened Wrappers
  import opened Text
  import opened RoundRobin
  import opened Cardinality
  import opened SatPairings
  import opened SatEncoding
  import opened DimacsText

  // ---------------------------------------------------------------------------
  // The variable table
  // ---------------------------------------------------------------------------

  /**
   * `var_index` and `reverse_var` number the same names: the ids in use are
   * exactly `1..next_var-1`, with no gap and no id given twice.
   */
  ghost predicate TableValid(varIndex: map<string, int>, reverseVar: seq<string>, nextVar: int) {
    nextVar == |reverseVar| + 1
    && (forall i :: 0 <= i < |reverseVar| ==> reverseVar[i] in varIndex && varIndex[reverseVar[i]] == i + 1)
    && (forall name :: name in varIndex ==> 1 <= varIndex[name] < nextVar && reverseVar[varIndex[name] - 1] == name)
  }

  /**
   * The table (as `CnfSession.Table()` returns it) numbers exactly the
   * `W * M * P` X variables, and the X name of each in-range triple has that
   * triple's id.
   */
  ghost predicate XTable(h: nat, table: (map<string, int>, seq<string>, int, seq<seq<Pair>>)) {
    h >= 1 && TableValid(table.0, table.1, table.2) && table.2 == XCount(h) + 1
    && forall w: nat, m: nat, p: nat {:trigger XName(w, m, p)} :: InRange(h, w, m, p) ==>
      XName(w, m, p) in table.0 && table.0[XName(w, m, p)] == XId(h, w, m, p)
  }

  /** The table's `weeks` are the circle-method pairings of `2h` teams. */
  ghost predicate SeasonTable(h: nat, table: (map<string, int>, seq<string>, int, seq<seq<Pair>>)) {
    h >= 1 && table.3 == Pairings(2 * h)
  }

  /** The table is unchanged, so it still numbers exactly the X variables. */
  lemma XTableKept(h: nat, t0: (map<string, int>, seq<string>, int, seq<seq<Pair>>),
                   t: (map<string, int>, seq<string>, int, seq<seq<Pair>>))
    requires XTable(h, t0) && t == t0
    ensures XTable(h, t)
  {
  }

  /** Once the ids up to the last week's end are taken, in order, the table numbers exactly the X variables. */
  lemma AllXCreated(h: nat, varIndex: map<string, int>, reverseVar: seq<string>, nextVar: int,
                    weeks: seq<seq<Pair>>)
    requires h >= 1 && TableValid(varIndex, reverseVar, nextVar) && nextVar == XId(h, Weeks(h), 0, 0)
    requires reverseVar == XNames(h, |reverseVar|)
    ensures XTable(h, (varIndex, reverseVar, nextVar, weeks)) && reverseVar == XNames(h, XCount(h))
  {
    assert XId(h, Weeks(h), 0, 0) == XCount(h) + 1;
    forall w: nat, m: nat, p: nat | InRange(h, w, m, p)
      ensures XName(w, m, p) in varIndex && varIndex[XName(w, m, p)] == XId(h, w, m, p)
    {
      XNameKnown(varIndex, reverseVar, h, w, m, p);
    }
  }

  /** A table of X variables belongs to a season of at least two teams. */
  lemma XTableTeams(h: nat, t: (map<string, int>, seq<string>, int, seq<seq<Pair>>))
    requires XTable(h, t)
    ensures h >= 1
  {
  }

  /** The table is unchanged, so it still holds the season. */
  lemma SeasonKept(h: nat, t0: (map<string, int>, seq<string>, int, seq<seq<Pair>>),
                   t: (map<string, int>, seq<string>, int, seq<seq<Pair>>))
    requires SeasonTable(h, t0) && t == t0
    ensures SeasonTable(h, t)
  {
  }

  /** A known name's id is in use, and the reverse list holds the name at that id. */
  lemma TableLookup(varIndex: map<string, int>, reverseVar: seq<string>, nextVar: int, name: string)
    requires TableValid(varIndex, reverseVar, nextVar) && name in varIndex
    ensures 1 <= varIndex[name] < nextVar && reverseVar[varIndex[name] - 1] == name
  {
  }

  /** While the ids `1..k` are the X variables in order, the X name with id `k + 1` is not taken yet. */
  lemma XNameFresh(varIndex: map<string, int>, reverseVar: seq<string>, h: nat, w: int, m: int, p: int)
    requires h >= 1 && w >= 0 && 0 <= m < h && 0 <= p < h
    requires TableValid(varIndex, reverseVar, XId(h, w, m, p))
    requires reverseVar == XNames(h, |reverseVar|)
    ensures XName(w, m, p) !in varIndex
  {
    if XName(w, m, p) in varIndex {
      var j := varIndex[XName(w, m, p)];
      TableLookup(varIndex, reverseVar, XId(h, w, m, p), XName(w, m, p));
      XNamesIndex(h, |reverseVar|, j - 1);
      XNameOfIdInjective(h, j, w, m, p);
      assert false;
    }
  }

  /** Appending the name of the next triple extends the name list by one id. */
  lemma XNamesSnoc(h: nat, w: int, m: int, p: int)
    requires h >= 1 && w >= 0 && 0 <= m < h && 0 <= p < h
    ensures XId(h, w, m, p) >= 1
    ensures XNames(h, XId(h, w, m, p) - 1) + [XName(w, m, p)] == XNames(h, XId(h, w, m, p))
  {
    XIdPositive(h, w, m, p);
    IdOfXId(h, w, m, p);
  }

  /** Once all X variables exist, the X name of an in-range triple maps to its id. */
  lemma XNameKnown(varIndex: map<string, int>, reverseVar: seq<string>, h: nat, w: int, m: int, p: int)
    requires h >= 1 && InRange(h, w, m, p)
    requires TableValid(varIndex, reverseVar, |reverseVar| + 1)
    requires |reverseVar| == XCount(h) && reverseVar == XNames(h, |reverseVar|)
    ensures XName(w, m, p) in varIndex && varIndex[XName(w, m, p)] == XId(h, w, m, p)
  {
    XIdRange(h, w, m, p);
    XNamesAt(h, |reverseVar|, w, m, p);
  }

  // ---------------------------------------------------------------------------
  // The auxiliary names of at_most_2_seq
  // ---------------------------------------------------------------------------

  /**
   * The `j`-th name `at_most_2_seq(lits, tag)` allocates: `s_{tag}_{j/2}` for
   * even `j`, `t_{tag}_{j/2}` for odd `j` (the loop makes `s[i]`, then `t[i]`).
   */
  function CounterName(tag: string, j: nat): string {
    [if j % 2 == 0 then 's' else 't'] + "_" + tag + "_" + NatToString(j / 2)
  }

  /** The first `k` names `at_most_2_seq(lits, tag)` allocates. */
  function CounterNames(tag: string, k: nat): (names: seq<string>)
    ensures |names| == k
  {
    seq(k, j requires 0 <= j < k => CounterName(tag, j))
  }

  lemma CounterNamesSnoc(tag: string, j: nat)
    ensures CounterNames(tag, j + 1) == CounterNames(tag, j) + [CounterName(tag, j)]
  {
  }

  lemma CounterNameInjective(tag: string, j: nat, k: nat)
    requires CounterName(tag, j) == CounterName(tag, k)
    ensures j == k
  {
    var pre, pre' := [if j % 2 == 0 then 's' else 't'] + "_" + tag + "_", [if k % 2 == 0 then 's' else 't'] + "_" + tag + "_";
    assert CounterName(tag, j)[0] == pre[0] && CounterName(tag, k)[0] == pre'[0];
    assert pre == pre';
    StripPrefix(pre, NatToString(j / 2), NatToString(k / 2));
    NatToStringInjective(j / 2, k / 2);
  }

  /** None of the first `total` counter names of `tag` is in the (valid) table. */
  ghost predicate CountersFree(varIndex: map<string, int>, reverseVar: seq<string>, tag: string, total: nat) {
    TableValid(varIndex, reverseVar, |reverseVar| + 1)
    && forall j :: 0 <= j < total ==> CounterName(tag, j) !in varIndex
  }

  /** While the auxiliary names are being allocated in order, the next one is still free. */
  lemma CounterNameFresh(varIndex0: map<string, int>, reverseVar0: seq<string>,
                         varIndex: map<string, int>, reverseVar: seq<string>, tag: string, c: nat, total: nat)
    requires CountersFree(varIndex0, reverseVar0, tag, total) && c < total
    requires TableValid(varIndex, reverseVar, |reverseVar| + 1)
    requires reverseVar == reverseVar0 + CounterNames(tag, c)
    ensures CounterName(tag, c) !in varIndex
  {
    var name := CounterName(tag, c);
    forall j | 0 <= j < c ensures CounterNames(tag, c)[j] != name {
      if CounterNames(tag, c)[j] == name {
        CounterNameInjective(tag, j, c);
        assert false;
      }
    }
    FreshName(varIndex0, reverseVar0, varIndex, reverseVar, CounterNames(tag, c), name);
  }

  /** A name that was not in the old table and is not among the names added since is not in the new one. */
  lemma FreshName(varIndex0: map<string, int>, reverseVar0: seq<string>,
                  varIndex: map<string, int>, reverseVar: seq<string>, added: seq<string>, name: string)
    requires TableValid(varIndex0, reverseVar0, |reverseVar0| + 1) && name !in varIndex0
    requires TableValid(varIndex, reverseVar, |reverseVar| + 1) && reverseVar == reverseVar0 + added
    requires forall j :: 0 <= j < |added| ==> added[j] != name
    ensures name !in varIndex
  {
    forall i | 0 <= i < |reverseVar0| ensures reverseVar0[i] != name {
      assert reverseVar0[i] in varIndex0;
    }
    if name in varIndex {
      InTableAppend(varIndex, reverseVar, reverseVar0, added, name);
      assert false;
    }
  }

  /** A name of a valid table whose list is `front + back` is one of `front` or one of `back`. */
  lemma InTableAppend(varIndex: map<string, int>, reverseVar: seq<string>, front: seq<string>, back: seq<string>,
                      name: string)
    requires TableValid(varIndex, reverseVar, |reverseVar| + 1) && reverseVar == front + back && name in varIndex
    ensures (exists i :: 0 <= i < |front| && front[i] == name) || (exists j :: 0 <= j < |back| && back[j] == name)
  {
    TableLookup(varIndex, reverseVar, |reverseVar| + 1, name);
    var id := varIndex[name];
    if id - 1 < |front| {
      assert front[id - 1] == name;
    } else {
      assert back[id - 1 - |front|] == name;
    }
  }

  /** Fresh consecutive ids are positive, distinct, and distinct from older variables. */
  lemma CounterIdsFresh(lits: seq<int>, s: seq<int>, t: seq<int>, first: int)
    requires first >= 1 && |s| == |t|
    requires forall i :: 0 <= i < |s| ==> s[i] == first + 2 * i && t[i] == first + 2 * i + 1
    requires forall k :: 0 <= k < |lits| ==> Var(lits[k]) < first
    ensures FreshAux(lits, s + t)
  {
    var aux := s + t;
    assert forall i :: 0 <= i < |aux| ==> aux[i] >= first && (aux[i] - first) % 2 == (if i < |s| then 0 else 1);
    forall i, j | 0 <= i < j < |aux|
      ensures aux[i] != aux[j]
    {
      if i < |s| && j >= |s| {
        assert (aux[i] - first) % 2 != (aux[j] - first) % 2;
      }
    }
  }

  /** One more match of constraint 1: its `exactly_one` clauses. */
  lemma MatchBlocksStep(c0: seq<Clause>, h: nat, w: int, m: nat, before: seq<Clause>, after: seq<Clause>)
    requires before == c0 + Expand(MatchBlocks(h, w, m)) && after == before + ExactlyOneClauses(MatchLits(h, w, m))
    ensures after == c0 + Expand(MatchBlocks(h, w, m + 1))
  {
    ExpandOneMore(c0, MatchBlocks(h, w, m), Constraint.ExactlyOne(MatchLits(h, w, m)), before, after);
  }

  /** One more period of constraint 2: its `exactly_one` clauses. */
  lemma SlotBlocksStep(c0: seq<Clause>, h: nat, w: int, p: nat, before: seq<Clause>, after: seq<Clause>)
    requires before == c0 + Expand(SlotBlocks(h, w, p)) && after == before + ExactlyOneClauses(SlotLits(h, w, p))
    ensures after == c0 + Expand(SlotBlocks(h, w, p + 1))
  {
    ExpandOneMore(c0, SlotBlocks(h, w, p), Constraint.ExactlyOne(SlotLits(h, w, p)), before, after);
  }

  /** One more unit clause of the symmetry breaking. */
  lemma SymBlocksStep(c0: seq<Clause>, h: nat, anchor: int, m: nat, before: seq<Clause>, after: seq<Clause>)
    requires h >= 1
    requires before == c0 + Expand(SymBlocks(h, anchor, m)) && after == before + [[XId(h, AnchorWeek(h, anchor), m, m)]]
    ensures after == c0 + Expand(SymBlocks(h, anchor, m + 1))
  {
    ExpandOneMore(c0, SymBlocks(h, anchor, m), AnyOf([XId(h, AnchorWeek(h, anchor), m, m)]), before, after);
  }

  /** One more `lits` list: its two calls append its clause and its `at_most_2` clauses. */
  lemma PairBlocksSnoc(c0: seq<Clause>, ls: seq<seq<int>>, p: int, before: seq<Clause>, after: seq<Clause>)
    requires 0 <= p < |ls|
    requires before == c0 + Expand(PairBlocks(ls[..p])) && after == before + [ls[p]] + AtMost2Clauses(ls[p])
    ensures after == c0 + Expand(PairBlocks(ls[..p + 1]))
  {
    var done := PairBlocks(ls[..p]);
    assert ls[..p + 1][..p] == ls[..p];
    assert PairBlocks(ls[..p + 1]) == done + [AnyOf(ls[p])] + [AtMostTwo(ls[p])];
    var mid := before + [ls[p]];
    ExpandOneMore(c0, done, AnyOf(ls[p]), before, mid);
    ExpandOneMore(c0, done + [AnyOf(ls[p])], AtMostTwo(ls[p]), mid, after);
  }

  /** Expanding four call lists one after another is expanding their concatenation. */
  lemma ExpandFour(c0: seq<Clause>, k1: seq<Constraint>, k2: seq<Constraint>, k3: seq<Constraint>, k4: seq<Constraint>)
    ensures c0 + Expand(k1) + Expand(k2) + Expand(k3) + Expand(k4) == c0 + Expand(k1 + k2 + k3 + k4)
  {
    ExpandAppend(k1, k2);
    ExpandAppend(k1 + k2, k3);
    ExpandAppend(k1 + k2 + k3, k4);
    var e1, e2, e3, e4 := Expand(k1), Expand(k2), Expand(k3), Expand(k4);
    AppendAssoc(c0, e1, e2);
    AppendAssoc(c0, e1 + e2, e3);
    AppendAssoc(c0, e1 + e2 + e3, e4);
  }

  /** The four constraint phases of build_dimacs, appended one after another, give its clause list. */
  lemma DimacsInOrder(c0: seq<Clause>, h: nat, useSym: bool, anchor: int)
    requires h >= 1
    ensures c0 + Expand(MatchWeeks(h, Weeks(h))) + Expand(SlotWeeks(h, Weeks(h))) + Expand(TeamsBlocks(h, 2 * h))
              + (if useSym then Expand(SymBlocks(h, anchor, h)) else [])
         == c0 + DimacsClauses(h, useSym, anchor)
  {
    var k4 := if useSym then SymBlocks(h, anchor, h) else [];
    ExpandFour(c0, MatchWeeks(h, Weeks(h)), SlotWeeks(h, Weeks(h)), TeamsBlocks(h, 2 * h), k4);
  }

  // ---------------------------------------------------------------------------
  // The session
  // ---------------------------------------------------------------------------

  class CnfSession {
    var clauses: seq<Clause>
    var varIndex: map<string, int>
    var reverseVar: seq<string>
    var nextVar: int
    var weeks: seq<seq<Pair>>

    ghost predicate Valid()
      reads this
    {
      TableValid(varIndex, reverseVar, nextVar)
    }

    /** Everything but the clause list. */
    function Table(): (map<string, int>, seq<string>, int, seq<seq<Pair>>)
      reads this
    {
      (varIndex, reverseVar, nextVar, weeks)
    }

    /** The module's initial state. */
    constructor()
      ensures Valid()
      ensures clauses == [] && varIndex == map[] && reverseVar == [] && nextVar == 1 && weeks == []
    {
      clauses, varIndex, reverseVar, nextVar, weeks := [], map[], [], 1, [];
    }

    /** `new_var(name)`: the existing id of a known name, otherwise the next id. */
    method NewVar(name: string) returns (id: int)
      requires Valid()
      modifies this
      ensures Valid() && clauses == old(clauses) && weeks == old(weeks)
      ensures name in varIndex && varIndex[name] == id
      ensures name in old(varIndex) ==> id == old(varIndex[name]) && Table() == old(Table())
      ensures name !in old(varIndex) ==>
        id == old(nextVar) && nextVar == old(nextVar) + 1
        && reverseVar == old(reverseVar) + [name] && varIndex == old(varIndex)[name := id]
    {
      if name in varIndex {
        return varIndex[name];
      }
      varIndex := varIndex[name := nextVar];
      reverseVar := reverseVar + [name];
      nextVar := nextVar + 1;
      id := varIndex[name];
    }

    /** `add_clause(lits)`. */
    method AddClause(lits: Clause)
      modifies this
      ensures clauses == old(clauses) + [lits] && Table() == old(Table())
    {
      clauses := clauses + [lits];
    }

    /** `exactly_one(lits)`: nothing for `[]`, else the clause `lits` and one binary clause per pair. */
    method ExactlyOne(lits: seq<int>)
      modifies this
      ensures clauses == old(clauses) + ExactlyOneClauses(lits) && Table() == old(Table())
    {
      ghost var t0, c0 := Table(), clauses;
      if lits == [] {
        return;
      }
      AddClause(lits);
      assert lits[0..] == lits;
      AppendAssoc(c0, [lits], PairClauses([], lits));
      for i := 0 to |lits|
        invariant clauses + PairClauses([], lits[i..]) == c0 + ExactlyOneClauses(lits)
        invariant Table() == t0
      {
        ghost var before := clauses;
        PairClausesFrom([], lits, i);
        ExcludePairsWith(lits, i);
        AppendAssoc(before, HeadPairs([], lits[i..]), PairClauses([], lits[i + 1..]));
      }
      assert PairClauses([], lits[|lits|..]) == [];
    }

    /** One pass of the inner loop of `exactly_one`: `lits[i]` against every later literal. */
    method ExcludePairsWith(lits: seq<int>, i: int)
      requires 0 <= i < |lits|
      modifies this
      ensures clauses == old(clauses) + HeadPairs([], lits[i..]) && Table() == old(Table())
    {
      ghost var t0 := Table();
      ghost var pass := HeadPairs([], lits[i..]);
      for j := i + 1 to |lits|
        invariant clauses == old(clauses) + pass[..j - i - 1]
        invariant Table() == t0
      {
        assert pass[j - i - 1] == [-lits[i], -lits[j]];
        assert pass[..j - i] == pass[..j - i - 1] + [pass[j - i - 1]];
        AddClause([-lits[i], -lits[j]]);
      }
      assert pass[..|lits| - i - 1] == pass;
    }

    /** `at_most_2(lits)`: nothing for at most two literals, else `[-a, -b, -c]` per triple. */
    method AtMost2(lits: seq<int>)
      modifies this
      ensures clauses == old(clauses) + AtMost2Clauses(lits) && Table() == old(Table())
    {
      if |lits| <= 2 {
        return;
      }
      var triples := Combinations3(lits);
      AtMost2ClausesAsTriples(lits);
      ForbidTriples(triples);
    }

    /** The loop of `at_most_2`: one clause `[-a, -b, -c]` per triple. */
    method ForbidTriples(triples: seq<(int, int, int)>)
      modifies this
      ensures clauses == old(clauses) + NegatedTriples(triples) && Table() == old(Table())
    {
      ghost var t0 := Table();
      for k := 0 to |triples|
        invariant clauses == old(clauses) + NegatedTriples(triples[..k]) && Table() == t0
      {
        var (a, b, c) := triples[k];
        assert triples[..k + 1] == triples[..k] + [(a, b, c)];
        NegatedTriplesAppend(triples[..k], [(a, b, c)]);
        AddClause([-a, -b, -c]);
      }
      assert triples[..|triples|] == triples;
    }

    /**
     * `at_most_2_seq(lits, tag)`: for more than two literals, allocates
     * `s_{tag}_{i}` and `t_{tag}_{i}` for `i < len(lits) - 1` and adds the
     * sequential-counter clauses over them. The source discards the ids; they
     * are returned here as ghosts so that the contract can name them.
     */
    method AtMost2Seq(lits: seq<int>, tag: string) returns (ghost s: seq<int>, ghost t: seq<int>)
      requires Valid()
      modifies this
      ensures Valid() && weeks == old(weeks)
      ensures |lits| <= 2 ==> clauses == old(clauses) && Table() == old(Table())
      ensures |lits| > 2 ==> |s| == |lits| - 1 && |t| == |lits| - 1
      ensures |lits| > 2 ==> clauses == old(clauses) + SeqCounterClauses(lits, s, t)
      ensures |lits| > 2 && CountersFree(old(varIndex), old(reverseVar), tag, 2 * (|lits| - 1)) ==>
        nextVar == old(nextVar) + 2 * (|lits| - 1) && reverseVar == old(reverseVar) + CounterNames(tag, 2 * (|lits| - 1))
        && ((forall k :: 0 <= k < |lits| ==> Var(lits[k]) < old(nextVar)) ==> FreshAux(lits, s + t))
    {
      var n := |lits|;
      if n <= 2 {
        return [], [];
      }
      var sv, tv := AllocateCounters(tag, n - 1);
      s, t := sv, tv;
      if CountersFree(old(varIndex), old(reverseVar), tag, 2 * (n - 1))
        && (forall k :: 0 <= k < n ==> Var(lits[k]) < old(nextVar)) {
        CounterIdsFresh(lits, s, t, old(nextVar));
      }
      AddSeqCounterClauses(lits, sv, tv);
    }

    /** The clauses of `at_most_2_seq` over counters that already exist. */
    method AddSeqCounterClauses(lits: seq<int>, s: seq<int>, t: seq<int>)
      requires |lits| > 2 && |s| == |lits| - 1 && |t| == |lits| - 1
      modifies this
      ensures clauses == old(clauses) + SeqCounterClauses(lits, s, t) && Table() == old(Table())
    {
      ghost var c0 := clauses;
      AddClause([-lits[0], s[0]]);
      AddCounterSteps(lits, s, t);
      AddThirdForbidden(lits, t);
      ghost var first, steps := [[-lits[0], s[0]]], CounterSteps(lits, s, t, 1);
      AppendAssoc(c0, first, steps);
      AppendAssoc(c0, first + steps, ThirdForbidden(lits, t, 2));
    }

    /** The second loop of `at_most_2_seq`: the five clauses of each counter step. */
    method AddCounterSteps(lits: seq<int>, s: seq<int>, t: seq<int>)
      requires |lits| > 2 && |s| == |lits| - 1 && |t| == |lits| - 1
      modifies this
      ensures clauses == old(clauses) + CounterSteps(lits, s, t, 1) && Table() == old(Table())
    {
      ghost var t0 := Table();
      for i := 1 to |lits| - 1
        invariant clauses + CounterSteps(lits, s, t, i) == old(clauses) + CounterSteps(lits, s, t, 1)
        invariant Table() == t0
      {
        ghost var before := clauses;
        AddStep(lits, s, t, i);
        AppendAssoc(before, CounterStep(lits, s, t, i), CounterSteps(lits, s, t, i + 1));
      }
    }

    /** Step `i` of the counters: the five clauses the source adds for `lits[i]`. */
    method AddStep(lits: seq<int>, s: seq<int>, t: seq<int>, i: int)
      requires 1 <= i < |lits| - 1 && |s| == |lits| - 1 && |t| == |lits| - 1
      modifies this
      ensures clauses == old(clauses) + CounterStep(lits, s, t, i) && Table() == old(Table())
    {
      var xi := lits[i];
      AddClause([-xi, s[i]]);
      AddClause([-s[i - 1], s[i]]);
      AddClause([-xi, -s[i - 1], t[i]]);
      AddClause([-t[i - 1], t[i]]);
      AddClause([-t[i], s[i]]);
    }

    /** The third loop of `at_most_2_seq`: `[-lits[i], -t[i-1]]` for `i >= 2`. */
    method AddThirdForbidden(lits: seq<int>, t: seq<int>)
      requires |lits| > 2 && |t| == |lits| - 1
      modifies this
      ensures clauses == old(clauses) + ThirdForbidden(lits, t, 2) && Table() == old(Table())
    {
      ghost var t0 := Table();
      for i := 2 to |lits|
        invariant clauses + ThirdForbidden(lits, t, i) == old(clauses) + ThirdForbidden(lits, t, 2)
        invariant Table() == t0
      {
        ghost var before := clauses;
        AddClause([-lits[i], -t[i - 1]]);
        AppendAssoc(before, [[-lits[i], -t[i - 1]]], ThirdForbidden(lits, t, i + 1));
      }
    }

    /** The allocation loop of `at_most_2_seq`: `s[i]`, then `t[i]`, for `i < count`. */
    method AllocateCounters(tag: string, count: nat) returns (s: seq<int>, t: seq<int>)
      requires Valid()
      modifies this
      ensures Valid() && clauses == old(clauses) && weeks == old(weeks)
      ensures |s| == count && |t| == count
      ensures CountersFree(old(varIndex), old(reverseVar), tag, 2 * count) ==>
        nextVar == old(nextVar) + 2 * count && reverseVar == old(reverseVar) + CounterNames(tag, 2 * count)
        && forall i :: 0 <= i < count ==> s[i] == old(nextVar) + 2 * i && t[i] == old(nextVar) + 2 * i + 1
    {
      s, t := [], [];
      ghost var allNew := CountersFree(varIndex, reverseVar, tag, 2 * count);
      ghost var vi0, rv0 := varIndex, reverseVar;
      for i := 0 to count
        invariant Valid() && clauses == old(clauses) && weeks == old(weeks)
        invariant |s| == i && |t| == i
        invariant allNew ==> nextVar == old(nextVar) + 2 * i && reverseVar == rv0 + CounterNames(tag, 2 * i)
        invariant allNew ==> forall j :: 0 <= j < i ==> s[j] == old(nextVar) + 2 * j && t[j] == old(nextVar) + 2 * j + 1
      {
        var si := NewCounter(tag, 2 * i, vi0, rv0, 2 * count);
        var ti := NewCounter(tag, 2 * i + 1, vi0, rv0, 2 * count);
        s, t := s + [si], t + [ti];
      }
    }

    /** `new_var` on the `j`-th counter name: the next id, while the counter names are being allocated in order. */
    method NewCounter(tag: string, j: nat, ghost varIndex0: map<string, int>, ghost reverseVar0: seq<string>, ghost total: nat)
      returns (id: int)
      requires Valid()
      modifies this
      ensures Valid() && clauses == old(clauses) && weeks == old(weeks)
      ensures (CountersFree(varIndex0, reverseVar0, tag, total) && j < total
        && old(reverseVar) == reverseVar0 + CounterNames(tag, j)) ==>
        id == old(nextVar) && nextVar == old(nextVar) + 1 && reverseVar == reverseVar0 + CounterNames(tag, j + 1)
    {
      ghost var inOrder := CountersFree(varIndex0, reverseVar0, tag, total) && j < total
        && reverseVar == reverseVar0 + CounterNames(tag, j);
      if inOrder {
        CounterNameFresh(varIndex0, reverseVar0, varIndex, reverseVar, tag, j, total);
      }
      id := NewVar(CounterName(tag, j));
      if inOrder {
        CounterNamesSnoc(tag, j);
        AppendAssoc(reverseVar0, CounterNames(tag, j), [CounterName(tag, j)]);
      }
    }

    // -------------------------------------------------------------------------
    // build_dimacs
    // -------------------------------------------------------------------------

    /** The X variables with ids `1..id-1` exist, named in `w, m, p` order, and nothing else does. */
    ghost predicate CreatedUpTo(h: nat, id: int)
      reads this
    {
      h >= 1 && Valid() && nextVar == id && reverseVar == XNames(h, |reverseVar|)
    }

    /** Exactly the `W * M * P` X variables exist. */
    ghost predicate HasXVars(h: nat)
      reads this
    {
      XTable(h, Table())
    }

    /** `weeks` holds the circle-method pairings of `2h` teams. */
    ghost predicate HasSeason(h: nat)
      reads this
    {
      SeasonTable(h, Table())
    }

    /** The inner `X(w, m, p)` of build_dimacs, once every X variable exists: a lookup that changes nothing. */
    method X(ghost h: nat, w: nat, m: nat, p: nat) returns (id: int)
      requires HasXVars(h) && InRange(h, w, m, p)
      modifies this
      ensures id == XId(h, w, m, p) && clauses == old(clauses) && Table() == old(Table())
    {
      id := NewVar(XName(w, m, p));
    }

    /** The first block of build_dimacs: `X(w, m, p)` for every triple, in `w, m, p` order. */
    method CreateXVars(h: nat)
      requires h >= 1 && Valid() && reverseVar == []
      modifies this
      ensures HasXVars(h) && reverseVar == XNames(h, XCount(h)) && clauses == old(clauses) && weeks == old(weeks)
    {
      for w := 0 to Weeks(h)
        invariant CreatedUpTo(h, XId(h, w, 0, 0)) && clauses == old(clauses) && weeks == old(weeks)
      {
        CreateWeekVars(h, w);
      }
      AllXCreated(h, varIndex, reverseVar, nextVar, weeks);
    }

    method CreateWeekVars(h: nat, w: nat)
      requires CreatedUpTo(h, XId(h, w, 0, 0))
      modifies this
      ensures CreatedUpTo(h, XId(h, w + 1, 0, 0)) && clauses == old(clauses) && weeks == old(weeks)
    {
      for m := 0 to h
        invariant CreatedUpTo(h, XId(h, w, m, 0)) && clauses == old(clauses) && weeks == old(weeks)
      {
        CreateMatchVars(h, w, m);
        XIdNext(h, w, m);
      }
      XIdNext(h, w, 0);
    }

    method CreateMatchVars(h: nat, w: nat, m: nat)
      requires m < h && CreatedUpTo(h, XId(h, w, m, 0))
      modifies this
      ensures CreatedUpTo(h, XId(h, w, m, h)) && clauses == old(clauses) && weeks == old(weeks)
    {
      for p := 0 to h
        invariant CreatedUpTo(h, XId(h, w, m, p)) && clauses == old(clauses) && weeks == old(weeks)
      {
        XNameFresh(varIndex, reverseVar, h, w, m, p);
        XNamesSnoc(h, w, m, p);
        var _ := NewVar(XName(w, m, p));
      }
    }

    /** `[X(w, m, p) for p in range(P)]`. */
    method MatchLitList(h: nat, w: nat, m: nat) returns (lits: seq<int>)
      requires HasXVars(h) && w < Weeks(h) && m < h
      modifies this
      ensures lits == MatchLits(h, w, m) && clauses == old(clauses) && Table() == old(Table())
    {
      ghost var t0 := Table();
      XTableKept(h, Table(), t0);
      ghost var all := MatchLits(h, w, m);
      lits := [];
      for p := 0 to h
        invariant lits == all[..p] && clauses == old(clauses) && Table() == t0
      {
        XTableKept(h, t0, Table());
        var x := X(h, w, m, p);
        assert all[..p + 1] == all[..p] + [x];
        lits := lits + [x];
      }
      assert all[..h] == all;
    }

    /** `[X(w, m, p) for m in range(M)]`. */
    method SlotLitList(h: nat, w: nat, p: nat) returns (lits: seq<int>)
      requires HasXVars(h) && w < Weeks(h) && p < h
      modifies this
      ensures lits == SlotLits(h, w, p) && clauses == old(clauses) && Table() == old(Table())
    {
      ghost var t0 := Table();
      XTableKept(h, Table(), t0);
      ghost var all := SlotLits(h, w, p);
      lits := [];
      for m := 0 to h
        invariant lits == all[..m] && clauses == old(clauses) && Table() == t0
      {
        XTableKept(h, t0, Table());
        var x := X(h, w, m, p);
        assert all[..m + 1] == all[..m] + [x];
        lits := lits + [x];
      }
      assert all[..h] == all;
    }

    /** The search loop for `mtw`: the team's match in week `w`, which the circle method always has. */
    method FindTeamMatch(h: nat, w: nat, t: int) returns (m: nat)
      requires h >= 1 && weeks == Pairings(2 * h) && w < Weeks(h) && 1 <= t <= 2 * h
      ensures m == TeamMatch(h, w, t) && m < h
    {
      MatchOfTeamFound(2 * h, w, t);
      assert (2 * h) / 2 == h;
      var mtw := FindMatch(weeks[w], t);
      match mtw {
        case None =>
          assert false;
        case Some(found) =>
          m := found;
      }
    }

    /**
     * The `lits` of team `t` and period `p`: for each week, the search for the
     * team's match `mtw`, then `X(w, mtw, p)`. The circle method seats every
     * team in every week, so the RuntimeError branch is never taken.
     */
    method TeamLitList(h: nat, t: int, p: nat) returns (lits: seq<int>)
      requires HasXVars(h) && HasSeason(h) && 1 <= t <= 2 * h && p < h
      modifies this
      ensures lits == TeamLits(h, t, p) && clauses == old(clauses) && Table() == old(Table())
    {
      ghost var t0 := Table();
      XTableKept(h, Table(), t0);
      SeasonKept(h, Table(), t0);
      ghost var all := TeamLits(h, t, p);
      lits := [];
      for w := 0 to Weeks(h)
        invariant lits == all[..w] && clauses == old(clauses) && Table() == t0
      {
        XTableKept(h, t0, Table());
        SeasonKept(h, t0, Table());
        var x := TeamLit(h, t, p, w);
        assert all[..w + 1] == all[..w] + [x];
        lits := lits + [x];
      }
      assert all[..Weeks(h)] == all;
    }

    /** One week of the loop above: the search for `mtw`, then `X(w, mtw, p)`. */
    method TeamLit(h: nat, t: int, p: nat, w: nat) returns (x: int)
      requires HasXVars(h) && HasSeason(h) && 1 <= t <= 2 * h && p < h && w < Weeks(h)
      modifies this
      ensures x == TeamLits(h, t, p)[w] && clauses == old(clauses) && Table() == old(Table())
    {
      var m := FindTeamMatch(h, w, t);
      x := X(h, w, m, p);
    }

    /** `exactly_one([X(w, m, p) for p in range(P)])`. */
    method MatchExactlyOne(h: nat, w: nat, m: nat)
      requires HasXVars(h) && w < Weeks(h) && m < h
      modifies this
      ensures clauses == old(clauses) + ExactlyOneClauses(MatchLits(h, w, m)) && Table() == old(Table())
    {
      var lits := MatchLitList(h, w, m);
      ExactlyOne(lits);
    }

    /** `exactly_one([X(w, m, p) for m in range(M)])`. */
    method SlotExactlyOne(h: nat, w: nat, p: nat)
      requires HasXVars(h) && w < Weeks(h) && p < h
      modifies this
      ensures clauses == old(clauses) + ExactlyOneClauses(SlotLits(h, w, p)) && Table() == old(Table())
    {
      var lits := SlotLitList(h, w, p);
      ExactlyOne(lits);
    }

    /** Constraint 1: `exactly_one` over the periods of every match. */
    method AddMatchConstraints(h: nat)
      requires h >= 1 && HasXVars(h)
      modifies this
      ensures clauses == old(clauses) + Expand(MatchWeeks(h, Weeks(h))) && Table() == old(Table())
    {
      ghost var t0 := Table();
      ghost var c0 := clauses;
      for w := 0 to Weeks(h)
        invariant clauses == c0 + Expand(MatchWeeks(h, w)) && Table() == t0
      {
        XTableKept(h, t0, Table());
        ghost var before := clauses;
        AddMatchWeek(h, w);
        ExpandMore(c0, MatchWeeks(h, w), MatchBlocks(h, w, h), before, clauses);
      }
    }

    /** Constraint 1 for the matches of week `w`. */
    method AddMatchWeek(h: nat, w: nat)
      requires HasXVars(h) && w < Weeks(h)
      modifies this
      ensures clauses == old(clauses) + Expand(MatchBlocks(h, w, h)) && Table() == old(Table())
    {
      ghost var t0 := Table();
      XTableKept(h, Table(), t0);
      ghost var c0 := clauses;
      for m := 0 to h
        invariant clauses == c0 + Expand(MatchBlocks(h, w, m)) && Table() == t0
      {
        XTableKept(h, t0, Table());
        ghost var before := clauses;
        MatchExactlyOne(h, w, m);
        MatchBlocksStep(c0, h, w, m, before, clauses);
      }
    }

    /** Constraint 2: `exactly_one` over the matches of every period. */
    method AddSlotConstraints(h: nat)
      requires h >= 1 && HasXVars(h)
      modifies this
      ensures clauses == old(clauses) + Expand(SlotWeeks(h, Weeks(h))) && Table() == old(Table())
    {
      ghost var t0 := Table();
      ghost var c0 := clauses;
      for w := 0 to Weeks(h)
        invariant clauses == c0 + Expand(SlotWeeks(h, w)) && Table() == t0
      {
        XTableKept(h, t0, Table());
        AddSlotWeekAfter(h, w, c0);
      }
    }

    /** Constraint 2 for week `w`, after the weeks before it. */
    method AddSlotWeekAfter(h: nat, w: nat, ghost c0: seq<Clause>)
      requires HasXVars(h) && w < Weeks(h)
      requires clauses == c0 + Expand(SlotWeeks(h, w))
      modifies this
      ensures clauses == c0 + Expand(SlotWeeks(h, w + 1)) && Table() == old(Table())
    {
      ghost var before := clauses;
      AddSlotWeek(h, w);
      ExpandMore(c0, SlotWeeks(h, w), SlotBlocks(h, w, h), before, clauses);
    }

    /** Constraint 2 for the periods of week `w`. */
    method AddSlotWeek(h: nat, w: nat)
      requires HasXVars(h) && w < Weeks(h)
      modifies this
      ensures clauses == old(clauses) + Expand(SlotBlocks(h, w, h)) && Table() == old(Table())
    {
      ghost var t0 := Table();
      XTableKept(h, Table(), t0);
      ghost var c0 := clauses;
      for p := 0 to h
        invariant clauses == c0 + Expand(SlotBlocks(h, w, p)) && Table() == t0
      {
        XTableKept(h, t0, Table());
        ghost var before := clauses;
        SlotExactlyOne(h, w, p);
        SlotBlocksStep(c0, h, w, p, before, clauses);
      }
    }

    /** Constraint 3: for every team and period, `add_clause(lits[:])` then `at_most_2(lits)`. */
    method AddTeamConstraints(h: nat)
      requires HasXVars(h) && HasSeason(h)
      modifies this
      ensures clauses == old(clauses) + Expand(TeamsBlocks(h, 2 * h)) && Table() == old(Table())
    {
      ghost var t0 := Table();
      ghost var c0 := clauses;
      for i := 0 to 2 * h
        invariant clauses == c0 + Expand(TeamsBlocks(h, i)) && Table() == t0
      {
        XTableKept(h, t0, Table());
        SeasonKept(h, t0, Table());
        AddTeam(h, i, c0);
      }
    }

    /** Constraint 3 for team `i + 1`, after the teams before it. */
    method AddTeam(h: nat, i: nat, ghost c0: seq<Clause>)
      requires HasXVars(h) && HasSeason(h) && i < 2 * h
      requires clauses == c0 + Expand(TeamsBlocks(h, i))
      modifies this
      ensures clauses == c0 + Expand(TeamsBlocks(h, i + 1)) && Table() == old(Table())
    {
      ghost var before := clauses;
      AddTeamPeriods(h, i + 1);
      ExpandMore(c0, TeamsBlocks(h, i), TeamBlocks(h, i + 1), before, clauses);
    }

    /** Constraint 3 for one team, period by period. */
    method AddTeamPeriods(h: nat, t: int)
      requires HasXVars(h) && HasSeason(h) && 1 <= t <= 2 * h
      modifies this
      ensures clauses == old(clauses) + Expand(TeamBlocks(h, t)) && Table() == old(Table())
    {
      ghost var t0 := Table();
      XTableKept(h, Table(), t0);
      SeasonKept(h, Table(), t0);
      ghost var c0 := clauses;
      ghost var ls := TeamPeriods(h, t);
      for p := 0 to h
        invariant clauses == c0 + Expand(PairBlocks(ls[..p])) && Table() == t0
      {
        XTableKept(h, t0, Table());
        SeasonKept(h, t0, Table());
        var lits := TeamLitList(h, t, p);
        ghost var before := clauses;
        AddClause(lits);
        AtMost2(lits);
        PairBlocksSnoc(c0, ls, p, before, clauses);
      }
      assert ls[..h] == ls;
    }

    /** Symmetry breaking: the unit clause `[X(aw, m, m)]` for every match of the anchor week. */
    method AddSymmetryBreaking(h: nat, anchor: int)
      requires HasXVars(h)
      modifies this
      ensures clauses == old(clauses) + Expand(SymBlocks(h, anchor, h)) && Table() == old(Table())
    {
      ghost var t0 := Table();
      XTableKept(h, Table(), t0);
      ghost var c0 := clauses;
      var aw := anchor % Weeks(h);
      for m := 0 to h
        invariant clauses == c0 + Expand(SymBlocks(h, anchor, m)) && Table() == t0
      {
        XTableKept(h, t0, Table());
        var x := X(h, aw, m, m);
        ghost var before := clauses;
        AddClause([x]);
        SymBlocksStep(c0, h, anchor, m, before, clauses);
      }
    }

    /** The reset at the start of build_dimacs: every table emptied, `weeks` kept. */
    method Reset()
      modifies this
      ensures Valid()
      ensures clauses == [] && varIndex == map[] && reverseVar == [] && nextVar == 1 && weeks == old(weeks)
    {
      clauses, varIndex, reverseVar, nextVar := [], map[], [], 1;
    }

    /** Constraints 1-3 and, with `use_sym`, the symmetry breaking, in build_dimacs order. */
    method AddConstraints(h: nat, useSym: bool, anchor: int)
      requires h >= 1 && HasXVars(h) && HasSeason(h)
      modifies this
      ensures clauses == old(clauses) + DimacsClauses(h, useSym, anchor) && Table() == old(Table())
    {
      ghost var t0, c0 := Table(), clauses;
      XTableKept(h, Table(), t0);
      SeasonKept(h, Table(), t0);
      AddMatchConstraints(h);
      XTableKept(h, t0, Table());
      AddSlotConstraints(h);
      XTableKept(h, t0, Table());
      SeasonKept(h, t0, Table());
      AddTeamConstraints(h);
      if useSym {
        XTableKept(h, t0, Table());
        AddSymmetryBreaking(h, anchor);
      }
      DimacsInOrder(c0, h, useSym, anchor);
    }

    /**
     * `build_dimacs(n, use_sym, anchor_week)`: the state is reset, an odd `n`
     * raises (leaving `weeks` as it was), otherwise `weeks` becomes the
     * circle-method pairings, the X variables take ids `1..W*M*P` in `w, m, p`
     * order and the clauses are exactly the encoding's.
     */
    method BuildDimacs(n: int, useSym: bool, anchor: int) returns (r: Result<()>)
      requires n % 2 != 0 || n >= 2
      modifies this
      ensures Valid()
      ensures n % 2 != 0 ==>
        r == Err(OddTeamCount) && clauses == [] && varIndex == map[] && reverseVar == [] && nextVar == 1
        && weeks == old(weeks)
      ensures n % 2 == 0 ==>
        r == Ok(()) && HasXVars(n / 2) && HasSeason(n / 2) && weeks == Pairings(n)
        && reverseVar == XNames(n / 2, XCount(n / 2)) && clauses == DimacsClauses(n / 2, useSym, anchor)
    {
      Reset();
      if n % 2 != 0 {
        return Err(OddTeamCount);
      }
      var pairings := CircleMethodPairings(n);
      weeks := pairings.value;
      var h := n / 2;
      assert 2 * h == n;
      CreateXVars(h);
      AddConstraints(h, useSym, anchor);
      r := Ok(());
    }

    /** `get_reverse_map()`: a copy of `reverse_var`, whose entry `i` names the variable with id `i + 1`. */
    method GetReverseMap() returns (names: seq<string>)
      requires Valid()
      ensures |names| == nextVar - 1
      ensures forall i :: 0 <= i < |names| ==> names[i] in varIndex && varIndex[names[i]] == i + 1
      ensures forall name :: name in varIndex ==> names[varIndex[name] - 1] == name
    {
      names := reverseVar;
    }

    /**
     * The text `write_dimacs` writes: the header `p cnf <next_var - 1> <len(clauses)>`,
     * then each clause's line, in clause order.
     */
    method WriteDimacs() returns (text: string)
      ensures text == DimacsFile(nextVar - 1, clauses)
    {
      text := WriteCnf(nextVar - 1, clauses);
    }
  }
}
