/**
 * The CNF that `build_dimacs` of source/SAT/sat_dimacs.py produces, as a
 * specification: the variable `X_w_m_p` ("match `m` of week `w` is played in
 * period `p`"), its name and id, the calls to `exactly_one`, `add_clause` and
 * `at_most_2` in the order the source makes them, and what the resulting
 * clauses mean.
 *
 * Throughout, `h` is `n // 2` (matches per week = periods per week) for an
 * even team count `n = 2h`, so there are `W = 2h - 1` weeks.
 */
module SatEncoding {
  import opened Text
  import opened Cardinality
  import opened SatPairings
  import opened RoundRobinProps

  /** `W = n - 1` for `n = 2h`. */
  function Weeks(h: nat): int { 2 * h - 1 }

  // ---------------------------------------------------------------------------
  // Names and ids of the X variables
  // ---------------------------------------------------------------------------

  /** `f"X_{w}_{m}_{p}"`. */
  function XName(w: nat, m: nat, p: nat): string {
    "X_" + NatToString(w) + XTail(m, p)
  }

  /** The part of `XName` after the week number. */
  function XTail(m: nat, p: nat): (s: string)
    ensures s != [] && s[0] == '_'
  {
    "_" + NatToString(m) + "_" + NatToString(p)
  }

  lemma StripPrefix(pre: string, s: string, s': string)
    requires pre + s == pre + s'
    ensures s == s'
  {
    assert s == (pre + s)[|pre|..];
    assert s' == (pre + s')[|pre|..];
  }

  /** A decimal numeral followed by `_` determines both the number and what follows. */
  lemma NumeralThenUnderscore(x: nat, r: string, y: nat, r': string)
    requires r != [] && r[0] == '_' && r' != [] && r'[0] == '_'
    requires NatToString(x) + r == NatToString(y) + r'
    ensures x == y && r == r'
  {
    ReadNatOfNatToString(x, r);
    ReadNatOfNatToString(y, r');
  }

  lemma XTailInjective(m: nat, p: nat, m': nat, p': nat)
    requires XTail(m, p) == XTail(m', p')
    ensures m == m' && p == p'
  {
    var last, last' := "_" + NatToString(p), "_" + NatToString(p');
    assert XTail(m, p) == "_" + (NatToString(m) + last);
    assert XTail(m', p') == "_" + (NatToString(m') + last');
    StripPrefix("_", NatToString(m) + last, NatToString(m') + last');
    NumeralThenUnderscore(m, last, m', last');
    StripPrefix("_", NatToString(p), NatToString(p'));
    NatToStringInjective(p, p');
  }

  /** Different triples have different names. */
  lemma XNameInjective(w: nat, m: nat, p: nat, w': nat, m': nat, p': nat)
    requires XName(w, m, p) == XName(w', m', p')
    ensures w == w' && m == m' && p == p'
  {
    assert XName(w, m, p) == "X_" + (NatToString(w) + XTail(m, p));
    assert XName(w', m', p') == "X_" + (NatToString(w') + XTail(m', p'));
    StripPrefix("X_", NatToString(w) + XTail(m, p), NatToString(w') + XTail(m', p'));
    NumeralThenUnderscore(w, XTail(m, p), w', XTail(m', p'));
    XTailInjective(m, p, m', p');
  }

  /**
   * The id `build_dimacs` gives `X_w_m_p`: the variables are created first, in
   * `w, m, p` loop order, starting from 1.
   */
  function XId(h: nat, w: int, m: int, p: int): int {
    (w * h + m) * h + p + 1
  }

  /** The number of X variables, `W * M * P`. */
  function XCount(h: nat): nat {
    MulMono(0, Weeks(h) * h, h);
    if h == 0 then 0 else Weeks(h) * h * h
  }

  predicate InRange(h: nat, w: int, m: int, p: int) {
    0 <= w < Weeks(h) && 0 <= m < h && 0 <= p < h
  }

  lemma XIdPositive(h: nat, w: int, m: int, p: int)
    requires 0 <= w && 0 <= m && 0 <= p
    ensures XId(h, w, m, p) >= 1
  {
    assert w * h >= 0;
    assert (w * h + m) * h >= 0;
  }

  lemma MulMono(x: int, y: int, c: nat)
    requires x <= y
    ensures x * c <= y * c
  {
  }

  /** The ids of in-range triples are 1..W*M*P. */
  lemma XIdRange(h: nat, w: int, m: int, p: int)
    requires InRange(h, w, m, p)
    ensures 1 <= XId(h, w, m, p) <= XCount(h)
  {
    XIdPositive(h, w, m, p);
    var W := Weeks(h);
    var k := w * h + m;
    MulMono(w, W - 1, h);
    assert (W - 1) * h == W * h - h;
    assert k <= W * h - 1;
    MulMono(k, W * h - 1, h);
    assert (W * h - 1) * h == W * h * h - h;
  }

  /** The next triple in `w, m, p` order has the next id. */
  lemma XIdNext(h: nat, w: int, m: int)
    ensures XId(h, w, m, h) == XId(h, w, m + 1, 0)
    ensures XId(h, w, h, 0) == XId(h, w + 1, 0, 0)
  {
    assert (w * h + m) * h + h == (w * h + m + 1) * h;
    assert (w * h + h) * h == ((w + 1) * h) * h;
  }

  /** Division by a positive `h` undoes `q * h + r` for a remainder `0 <= r < h`. */
  lemma DivModOf(x: int, h: nat, q: int, r: int)
    requires h >= 1 && x == q * h + r && 0 <= r < h
    ensures x / h == q && x % h == r
  {
    var q', r' := x / h, x % h;
    assert x == q' * h + r';
    if q' < q {
      MulMono(q' + 1, q, h);
      assert false;
    } else if q < q' {
      MulMono(q + 1, q', h);
      assert false;
    }
  }

  /** The week of the variable with id `id`, inverting `XId`. */
  function IdWeek(h: nat, id: int): int
    requires h >= 1
  {
    (id - 1) / h / h
  }

  /** The match of the variable with id `id`, inverting `XId`. */
  function IdMatch(h: nat, id: int): int
    requires h >= 1
  {
    (id - 1) / h % h
  }

  /** The period of the variable with id `id`, inverting `XId`. */
  function IdPeriod(h: nat, id: int): int
    requires h >= 1
  {
    (id - 1) % h
  }

  /** Decoding the id of a triple gives the triple back. */
  lemma IdOfXId(h: nat, w: int, m: int, p: int)
    requires h >= 1 && 0 <= m < h && 0 <= p < h
    ensures IdWeek(h, XId(h, w, m, p)) == w
    ensures IdMatch(h, XId(h, w, m, p)) == m
    ensures IdPeriod(h, XId(h, w, m, p)) == p
  {
    var k := XId(h, w, m, p) - 1;
    DivModOf(k, h, w * h + m, p);
    DivModOf(w * h + m, h, w, m);
  }

  /** Every positive id is the id of the triple it decodes to, in range when the id is. */
  lemma XIdOfId(h: nat, id: int)
    requires h >= 1 && id >= 1
    ensures IdWeek(h, id) >= 0 && 0 <= IdMatch(h, id) < h && 0 <= IdPeriod(h, id) < h
    ensures XId(h, IdWeek(h, id), IdMatch(h, id), IdPeriod(h, id)) == id
    ensures id <= XCount(h) ==> IdWeek(h, id) < Weeks(h)
  {
    var k := id - 1;
    var w, m, p := IdWeek(h, id), IdMatch(h, id), IdPeriod(h, id);
    assert k == (k / h) * h + p;
    assert k / h == w * h + m;
    assert k / h >= 0;
    assert id == (w * h + m) * h + p + 1;
    if w >= Weeks(h) && id <= XCount(h) {
      MulMono(Weeks(h), w, h);
      MulMono(Weeks(h) * h, w * h + m, h);
      assert false;
    }
  }

  /** The name `build_dimacs` gives the variable with id `id`. */
  function XNameOfId(h: nat, id: int): string
    requires h >= 1 && id >= 1
  {
    XIdOfId(h, id);
    XName(IdWeek(h, id), IdMatch(h, id), IdPeriod(h, id))
  }

  /** The names of ids `1..k`, in id order. */
  function XNames(h: nat, k: nat): (names: seq<string>)
    requires h >= 1
    ensures |names| == k
  {
    seq(k, i requires 0 <= i < k => XNameOfId(h, i + 1))
  }

  /** The name of a triple sits at position `XId - 1` of the name list. */
  lemma XNamesAt(h: nat, k: nat, w: int, m: int, p: int)
    requires InRange(h, w, m, p) && h >= 1 && XId(h, w, m, p) <= k
    ensures XNames(h, k)[XId(h, w, m, p) - 1] == XName(w, m, p)
  {
    XIdPositive(h, w, m, p);
    IdOfXId(h, w, m, p);
  }

  /** Position `i` of the name list holds the name of id `i + 1`. */
  lemma XNamesIndex(h: nat, k: nat, i: int)
    requires h >= 1 && 0 <= i < k
    ensures XNames(h, k)[i] == XNameOfId(h, i + 1)
  {
  }

  /** Only the id of a triple is named like that triple. */
  lemma XNameOfIdInjective(h: nat, j: int, w: int, m: int, p: int)
    requires h >= 1 && j >= 1 && w >= 0 && 0 <= m < h && 0 <= p < h
    requires XNameOfId(h, j) == XName(w, m, p)
    ensures j == XId(h, w, m, p)
  {
    XIdOfId(h, j);
    XNameInjective(w, m, p, IdWeek(h, j), IdMatch(h, j), IdPeriod(h, j));
  }

  // ---------------------------------------------------------------------------
  // The literal lists handed to exactly_one, add_clause and at_most_2
  // ---------------------------------------------------------------------------

  /** `[X(w, m, p) for p in range(P)]`: the periods of match `m` of week `w`. */
  function MatchLits(h: nat, w: int, m: int): (lits: seq<int>)
    ensures |lits| == h
  {
    seq(h, p => XId(h, w, m, p))
  }

  /** `[X(w, m, p) for m in range(M)]`: the matches of week `w` in period `p`. */
  function SlotLits(h: nat, w: int, p: int): (lits: seq<int>)
    ensures |lits| == h
  {
    seq(h, m => XId(h, w, m, p))
  }

  /** The `lits` collected for team `t` and period `p`: the team's match of each week, put in `p`. */
  function TeamLits(h: nat, t: int, p: int): (lits: seq<int>)
    ensures h >= 1 ==> |lits| == Weeks(h)
  {
    seq(if h >= 1 then Weeks(h) else 0, w => XId(h, w, TeamMatch(h, w, t), p))
  }

  /**
   * The match team `t` plays in week `w` (the `mtw` of build_dimacs): the slot
   * where the circle method seats the team; 0 outside the season.
   */
  function TeamMatch(h: nat, w: int, t: int): (m: int)
    ensures 0 <= m && (h >= 1 ==> m < h)
  {
    if h >= 1 && 0 <= w < Weeks(h) && 1 <= t <= 2 * h then SlotOfTeam(2 * h, w, t) else 0
  }

  // ---------------------------------------------------------------------------
  // The calls build_dimacs makes, in order
  // ---------------------------------------------------------------------------

  /** Constraint 1 for matches `0..m-1` of week `w`. */
  function MatchBlocks(h: nat, w: int, m: int): seq<Constraint>
    decreases m
  {
    if m <= 0 then [] else MatchBlocks(h, w, m - 1) + [ExactlyOne(MatchLits(h, w, m - 1))]
  }

  /** Constraint 1 for weeks `0..w-1`. */
  function MatchWeeks(h: nat, w: int): seq<Constraint>
    decreases w
  {
    if w <= 0 then [] else MatchWeeks(h, w - 1) + MatchBlocks(h, w - 1, h)
  }

  /** Constraint 2 for periods `0..p-1` of week `w`. */
  function SlotBlocks(h: nat, w: int, p: int): seq<Constraint>
    decreases p
  {
    if p <= 0 then [] else SlotBlocks(h, w, p - 1) + [ExactlyOne(SlotLits(h, w, p - 1))]
  }

  /** Constraint 2 for weeks `0..w-1`. */
  function SlotWeeks(h: nat, w: int): seq<Constraint>
    decreases w
  {
    if w <= 0 then [] else SlotWeeks(h, w - 1) + SlotBlocks(h, w - 1, h)
  }

  /** The `lits` of team `t` for each period `0..h-1`, in the order build_dimacs visits them. */
  function TeamPeriods(h: nat, t: int): (ls: seq<seq<int>>)
    ensures |ls| == h
  {
    seq(h, p => TeamLits(h, t, p))
  }

  /** `add_clause(lits[:])` ("at least once") followed by `at_most_2(lits)`. */
  function TeamPair(lits: seq<int>): seq<Constraint> {
    [AnyOf(lits), AtMostTwo(lits)]
  }

  /** The calls for a list of `lits` lists, one pair of calls per list. */
  function PairBlocks(ls: seq<seq<int>>): seq<Constraint> {
    if ls == [] then [] else PairBlocks(ls[..|ls| - 1]) + TeamPair(ls[|ls| - 1])
  }

  /** Constraint 3 for team `t`, over all periods. */
  function TeamBlocks(h: nat, t: int): seq<Constraint> {
    PairBlocks(TeamPeriods(h, t))
  }

  /** Constraint 3 for teams `1..t`. */
  function TeamsBlocks(h: nat, t: int): seq<Constraint>
    decreases t
  {
    if t <= 0 then [] else TeamsBlocks(h, t - 1) + TeamBlocks(h, t)
  }

  /** The anchor week `anchor_week % W`; Python's `%` with a positive divisor is never negative. */
  function AnchorWeek(h: nat, anchor: int): int
    requires h >= 1
  {
    anchor % Weeks(h)
  }

  /** Symmetry breaking for matches `0..m-1`: the unit clauses `[X(aw, m, m)]`. */
  function SymBlocks(h: nat, anchor: int, m: int): seq<Constraint>
    requires h >= 1
    decreases m
  {
    if m <= 0 then [] else SymBlocks(h, anchor, m - 1) + [AnyOf([XId(h, AnchorWeek(h, anchor), m - 1, m - 1)])]
  }

  /** Every call `build_dimacs(2h, use_sym, anchor_week)` makes after creating the variables. */
  function DimacsConstraints(h: nat, useSym: bool, anchor: int): seq<Constraint>
    requires h >= 1
  {
    MatchWeeks(h, Weeks(h)) + SlotWeeks(h, Weeks(h)) + TeamsBlocks(h, 2 * h)
    + (if useSym then SymBlocks(h, anchor, h) else [])
  }

  /** The clauses of `build_dimacs(2h, use_sym, anchor_week)`, in order. */
  function DimacsClauses(h: nat, useSym: bool, anchor: int): seq<Clause>
    requires h >= 1
  {
    Expand(DimacsConstraints(h, useSym, anchor))
  }

  /** With `use_sym` the symmetry clauses only follow the clauses built without it. */
  lemma SymmetryAppends(h: nat, anchor: int)
    requires h >= 1
    ensures DimacsClauses(h, true, anchor) == DimacsClauses(h, false, anchor) + Expand(SymBlocks(h, anchor, h))
  {
    var base := MatchWeeks(h, Weeks(h)) + SlotWeeks(h, Weeks(h)) + TeamsBlocks(h, 2 * h);
    assert DimacsConstraints(h, false, anchor) == base;
    ExpandAppend(base, SymBlocks(h, anchor, h));
  }

  /** The unit clauses `[X(aw, i, i)]` for `i` in `0..m-1`, in order. */
  function SymUnits(h: nat, aw: int, m: nat): (cs: seq<Clause>)
    ensures |cs| == m
  {
    seq(m, i => [XId(h, aw, i, i)])
  }

  lemma SymUnitsSnoc(h: nat, aw: int, m: nat)
    ensures SymUnits(h, aw, m + 1) == SymUnits(h, aw, m) + [[XId(h, aw, m, m)]]
  {
  }

  /** The symmetry clauses for matches `0..m-1` are the `m` units `[X(aw, i, i)]`, in order. */
  lemma {:induction false} SymClauses(h: nat, anchor: int, m: nat)
    requires h >= 1
    ensures Expand(SymBlocks(h, anchor, m)) == SymUnits(h, AnchorWeek(h, anchor), m)
  {
    if m > 0 {
      var aw := AnchorWeek(h, anchor);
      var unit := [XId(h, aw, m - 1, m - 1)];
      var prev := SymBlocks(h, anchor, m - 1);
      SymClauses(h, anchor, m - 1);
      ExpandSnoc(prev, AnyOf(unit));
      SymUnitsSnoc(h, aw, m - 1);
      calc {
        Expand(SymBlocks(h, anchor, m));
        Expand(prev + [AnyOf(unit)]);
        Expand(prev) + ConstraintClauses(AnyOf(unit));
        { assert ConstraintClauses(AnyOf(unit)) == [unit]; }
        SymUnits(h, aw, m - 1) + [unit];
      }
    }
  }

  // ---------------------------------------------------------------------------
  // What the clauses mean
  // ---------------------------------------------------------------------------

  /** Every match of week `w` is put in exactly one period. */
  ghost predicate MatchesPlaced(a: Assignment, h: nat, w: int) {
    forall m :: 0 <= m < h ==> CountTrue(a, MatchLits(h, w, m)) == 1
  }

  /** Every period of week `w` holds exactly one match. */
  ghost predicate PeriodsFilled(a: Assignment, h: nat, w: int) {
    forall p :: 0 <= p < h ==> CountTrue(a, SlotLits(h, w, p)) == 1
  }

  /** Team `t` plays in every period at least once and at most twice over the season. */
  ghost predicate TeamSpread(a: Assignment, h: nat, t: int)
    requires h >= 1
  {
    forall p :: 0 <= p < h ==> 1 <= CountTrue(a, TeamLits(h, t, p)) <= 2
  }

  /** Match `m` of the anchor week is played in period `m`, for every `m`. */
  ghost predicate AnchorFixed(a: Assignment, h: nat, anchor: int)
    requires h >= 1
  {
    forall m :: 0 <= m < h ==> LitTrue(a, XId(h, AnchorWeek(h, anchor), m, m))
  }

  /**
   * `a` is a valid assignment of periods: constraints 1, 2 and 3 of the
   * encoding, and with symmetry breaking the anchor week is frozen.
   */
  ghost predicate IsPeriodAssignment(a: Assignment, h: nat, useSym: bool, anchor: int)
    requires h >= 1
  {
    && (forall w :: 0 <= w < Weeks(h) ==> MatchesPlaced(a, h, w))
    && (forall w :: 0 <= w < Weeks(h) ==> PeriodsFilled(a, h, w))
    && (forall t :: 1 <= t <= 2 * h ==> TeamSpread(a, h, t))
    && (useSym ==> AnchorFixed(a, h, anchor))
  }

  lemma {:induction false} MatchBlocksHold(a: Assignment, h: nat, w: int, m: int)
    requires h >= 1
    ensures AllHold(a, MatchBlocks(h, w, m)) ==>
      forall j :: 0 <= j < m ==> CountTrue(a, MatchLits(h, w, j)) == 1
    ensures (forall j :: 0 <= j < m ==> CountTrue(a, MatchLits(h, w, j)) == 1) ==>
      AllHold(a, MatchBlocks(h, w, m))
  {
    if m > 0 {
      MatchBlocksHold(a, h, w, m - 1);
      var k := ExactlyOne(MatchLits(h, w, m - 1));
      AllHoldAppend(a, MatchBlocks(h, w, m - 1), [k]);
      AllHoldSingle(a, k);
    }
  }

  lemma {:induction false} MatchWeeksHold(a: Assignment, h: nat, w: int)
    requires h >= 1
    ensures AllHold(a, MatchWeeks(h, w)) ==> forall v :: 0 <= v < w ==> MatchesPlaced(a, h, v)
    ensures (forall v :: 0 <= v < w ==> MatchesPlaced(a, h, v)) ==> AllHold(a, MatchWeeks(h, w))
  {
    if w > 0 {
      MatchWeeksHold(a, h, w - 1);
      AllHoldAppend(a, MatchWeeks(h, w - 1), MatchBlocks(h, w - 1, h));
      MatchBlocksHold(a, h, w - 1, h);
      if forall v :: 0 <= v < w ==> MatchesPlaced(a, h, v) {
        assert MatchesPlaced(a, h, w - 1);
      }
    }
  }

  lemma {:induction false} SlotBlocksHold(a: Assignment, h: nat, w: int, p: int)
    requires h >= 1
    ensures AllHold(a, SlotBlocks(h, w, p)) ==>
      forall j :: 0 <= j < p ==> CountTrue(a, SlotLits(h, w, j)) == 1
    ensures (forall j :: 0 <= j < p ==> CountTrue(a, SlotLits(h, w, j)) == 1) ==>
      AllHold(a, SlotBlocks(h, w, p))
  {
    if p > 0 {
      SlotBlocksHold(a, h, w, p - 1);
      var k := ExactlyOne(SlotLits(h, w, p - 1));
      AllHoldAppend(a, SlotBlocks(h, w, p - 1), [k]);
      AllHoldSingle(a, k);
    }
  }

  lemma {:induction false} SlotWeeksHold(a: Assignment, h: nat, w: int)
    requires h >= 1
    ensures AllHold(a, SlotWeeks(h, w)) ==> forall v :: 0 <= v < w ==> PeriodsFilled(a, h, v)
    ensures (forall v :: 0 <= v < w ==> PeriodsFilled(a, h, v)) ==> AllHold(a, SlotWeeks(h, w))
  {
    if w > 0 {
      SlotWeeksHold(a, h, w - 1);
      AllHoldAppend(a, SlotWeeks(h, w - 1), SlotBlocks(h, w - 1, h));
      SlotBlocksHold(a, h, w - 1, h);
      if forall v :: 0 <= v < w ==> PeriodsFilled(a, h, v) {
        assert PeriodsFilled(a, h, w - 1);
      }
    }
  }

  /** "At least one" then `at_most_2` on one list: between one and two literals true. */
  lemma TeamPairHolds(a: Assignment, lits: seq<int>)
    ensures AllHold(a, TeamPair(lits)) <==> 1 <= CountTrue(a, lits) <= 2
  {
    AllHoldAppend(a, [AnyOf(lits)], [AtMostTwo(lits)]);
    assert [AnyOf(lits), AtMostTwo(lits)] == [AnyOf(lits)] + [AtMostTwo(lits)];
    AllHoldSingle(a, AnyOf(lits));
    AllHoldSingle(a, AtMostTwo(lits));
    NoneTrue(a, lits);
  }

  /** Appending the two calls for one team and period. */
  lemma TeamPairAppend(a: Assignment, prev: seq<Constraint>, lits: seq<int>)
    ensures AllHold(a, prev + TeamPair(lits)) ==> AllHold(a, prev) && 1 <= CountTrue(a, lits) <= 2
    ensures AllHold(a, prev) && 1 <= CountTrue(a, lits) <= 2 ==> AllHold(a, prev + TeamPair(lits))
  {
    AllHoldAppend(a, prev, TeamPair(lits));
    TeamPairHolds(a, lits);
  }

  lemma {:induction false} PairBlocksHold(a: Assignment, ls: seq<seq<int>>)
    ensures AllHold(a, PairBlocks(ls)) ==> forall j :: 0 <= j < |ls| ==> 1 <= CountTrue(a, ls[j]) <= 2
    ensures (forall j :: 0 <= j < |ls| ==> 1 <= CountTrue(a, ls[j]) <= 2) ==> AllHold(a, PairBlocks(ls))
  {
    if ls != [] {
      var init := ls[..|ls| - 1];
      PairBlocksHold(a, init);
      TeamPairAppend(a, PairBlocks(init), ls[|ls| - 1]);
      assert forall j :: 0 <= j < |init| ==> init[j] == ls[j];
    }
  }

  lemma TeamBlocksHold(a: Assignment, h: nat, t: int)
    requires h >= 1
    ensures AllHold(a, TeamBlocks(h, t)) ==> TeamSpread(a, h, t)
    ensures TeamSpread(a, h, t) ==> AllHold(a, TeamBlocks(h, t))
  {
    var ls := TeamPeriods(h, t);
    PairBlocksHold(a, ls);
    assert forall p :: 0 <= p < h ==> ls[p] == TeamLits(h, t, p);
  }

  lemma TeamsBlocksHold(a: Assignment, h: nat, t: int)
    requires h >= 1
    ensures AllHold(a, TeamsBlocks(h, t)) ==> forall u :: 1 <= u <= t ==> TeamSpread(a, h, u)
    ensures (forall u :: 1 <= u <= t ==> TeamSpread(a, h, u)) ==> AllHold(a, TeamsBlocks(h, t))
  {
    forall u | 1 <= u <= t {
      TeamBlocksHold(a, h, u);
    }
    if AllHold(a, TeamsBlocks(h, t)) {
      TeamsBlocksEach(a, h, t);
    }
    if forall u :: 1 <= u <= t ==> TeamSpread(a, h, u) {
      EachTeamsBlocks(a, h, t);
    }
  }

  lemma {:induction false} TeamsBlocksEach(a: Assignment, h: nat, t: int)
    requires AllHold(a, TeamsBlocks(h, t))
    ensures forall u :: 1 <= u <= t ==> AllHold(a, TeamBlocks(h, u))
  {
    if t > 0 {
      AllHoldAppend(a, TeamsBlocks(h, t - 1), TeamBlocks(h, t));
      TeamsBlocksEach(a, h, t - 1);
    }
  }

  lemma {:induction false} EachTeamsBlocks(a: Assignment, h: nat, t: int)
    requires forall u :: 1 <= u <= t ==> AllHold(a, TeamBlocks(h, u))
    ensures AllHold(a, TeamsBlocks(h, t))
  {
    if t > 0 {
      EachTeamsBlocks(a, h, t - 1);
      AllHoldAppend(a, TeamsBlocks(h, t - 1), TeamBlocks(h, t));
    }
  }

  lemma {:induction false} SymBlocksHold(a: Assignment, h: nat, anchor: int, m: int)
    requires h >= 1
    ensures AllHold(a, SymBlocks(h, anchor, m)) ==>
      forall j :: 0 <= j < m ==> LitTrue(a, XId(h, AnchorWeek(h, anchor), j, j))
    ensures (forall j :: 0 <= j < m ==> LitTrue(a, XId(h, AnchorWeek(h, anchor), j, j))) ==>
      AllHold(a, SymBlocks(h, anchor, m))
  {
    if m > 0 {
      SymBlocksHold(a, h, anchor, m - 1);
      var id := XId(h, AnchorWeek(h, anchor), m - 1, m - 1);
      AllHoldAppend(a, SymBlocks(h, anchor, m - 1), [AnyOf([id])]);
      AllHoldSingle(a, AnyOf([id]));
      assert ClauseSat(a, [id]) <==> LitTrue(a, id) by {
        assert [id][0] == id;
      }
    }
  }

  // ---------------------------------------------------------------------------
  // Every literal build_dimacs passes is an X id, hence non-zero
  // ---------------------------------------------------------------------------

  ghost predicate AllNonzero(ks: seq<Constraint>) {
    forall i :: 0 <= i < |ks| ==> NonzeroLits(ks[i])
  }

  lemma AllNonzeroAppend(ks: seq<Constraint>, ks': seq<Constraint>)
    requires AllNonzero(ks) && AllNonzero(ks')
    ensures AllNonzero(ks + ks')
  {
    forall i | 0 <= i < |ks + ks'|
      ensures NonzeroLits((ks + ks')[i])
    {
      if i >= |ks| {
        assert (ks + ks')[i] == ks'[i - |ks|];
      }
    }
  }

  lemma {:induction false} MatchBlocksNonzero(h: nat, w: int, m: int)
    requires w >= 0
    ensures AllNonzero(MatchBlocks(h, w, m))
  {
    if m > 0 {
      MatchBlocksNonzero(h, w, m - 1);
      var lits := MatchLits(h, w, m - 1);
      forall p | 0 <= p < |lits|
        ensures lits[p] != 0
      {
        XIdPositive(h, w, m - 1, p);
      }
      AllNonzeroAppend(MatchBlocks(h, w, m - 1), [ExactlyOne(MatchLits(h, w, m - 1))]);
    }
  }

  lemma {:induction false} MatchWeeksNonzero(h: nat, w: int)
    ensures AllNonzero(MatchWeeks(h, w))
  {
    if w > 0 {
      MatchWeeksNonzero(h, w - 1);
      MatchBlocksNonzero(h, w - 1, h);
      AllNonzeroAppend(MatchWeeks(h, w - 1), MatchBlocks(h, w - 1, h));
    }
  }

  lemma {:induction false} SlotBlocksNonzero(h: nat, w: int, p: int)
    requires w >= 0
    ensures AllNonzero(SlotBlocks(h, w, p))
  {
    if p > 0 {
      SlotBlocksNonzero(h, w, p - 1);
      var lits := SlotLits(h, w, p - 1);
      forall m | 0 <= m < |lits|
        ensures lits[m] != 0
      {
        XIdPositive(h, w, m, p - 1);
      }
      AllNonzeroAppend(SlotBlocks(h, w, p - 1), [ExactlyOne(SlotLits(h, w, p - 1))]);
    }
  }

  lemma {:induction false} SlotWeeksNonzero(h: nat, w: int)
    ensures AllNonzero(SlotWeeks(h, w))
  {
    if w > 0 {
      SlotWeeksNonzero(h, w - 1);
      SlotBlocksNonzero(h, w - 1, h);
      AllNonzeroAppend(SlotWeeks(h, w - 1), SlotBlocks(h, w - 1, h));
    }
  }

  lemma {:induction false} PairBlocksNonzero(ls: seq<seq<int>>)
    requires forall j, i :: 0 <= j < |ls| && 0 <= i < |ls[j]| ==> ls[j][i] != 0
    ensures AllNonzero(PairBlocks(ls))
  {
    if ls != [] {
      var init := ls[..|ls| - 1];
      assert forall j :: 0 <= j < |init| ==> init[j] == ls[j];
      PairBlocksNonzero(init);
      AllNonzeroAppend(PairBlocks(init), TeamPair(ls[|ls| - 1]));
    }
  }

  lemma {:induction false} TeamsBlocksNonzero(h: nat, t: int)
    ensures AllNonzero(TeamsBlocks(h, t))
  {
    if t > 0 {
      TeamsBlocksNonzero(h, t - 1);
      var ls := TeamPeriods(h, t);
      forall j, i | 0 <= j < |ls| && 0 <= i < |ls[j]|
        ensures ls[j][i] != 0
      {
        assert TeamMatch(h, i, t) >= 0;
        XIdPositive(h, i, TeamMatch(h, i, t), j);
      }
      PairBlocksNonzero(ls);
      AllNonzeroAppend(TeamsBlocks(h, t - 1), TeamBlocks(h, t));
    }
  }

  lemma {:induction false} SymBlocksNonzero(h: nat, anchor: int, m: int)
    requires h >= 1
    ensures AllNonzero(SymBlocks(h, anchor, m))
  {
    if m > 0 {
      SymBlocksNonzero(h, anchor, m - 1);
      AllNonzeroAppend(SymBlocks(h, anchor, m - 1), [AnyOf([XId(h, AnchorWeek(h, anchor), m - 1, m - 1)])]);
    }
  }

  lemma DimacsNonzero(h: nat, useSym: bool, anchor: int)
    requires h >= 1
    ensures forall i :: 0 <= i < |DimacsConstraints(h, useSym, anchor)| ==>
      NonzeroLits(DimacsConstraints(h, useSym, anchor)[i])
  {
    var c1, c2, c3 := MatchWeeks(h, Weeks(h)), SlotWeeks(h, Weeks(h)), TeamsBlocks(h, 2 * h);
    var c4 := if useSym then SymBlocks(h, anchor, h) else [];
    MatchWeeksNonzero(h, Weeks(h));
    SlotWeeksNonzero(h, Weeks(h));
    TeamsBlocksNonzero(h, 2 * h);
    if useSym {
      SymBlocksNonzero(h, anchor, h);
    }
    AllNonzeroAppend(c1, c2);
    AllNonzeroAppend(c1 + c2, c3);
    AllNonzeroAppend(c1 + c2 + c3, c4);
  }

  /**
   * An assignment satisfies every clause of `build_dimacs` exactly when it is
   * a valid assignment of periods.
   */
  lemma DimacsMeaning(a: Assignment, h: nat, useSym: bool, anchor: int)
    requires h >= 1
    ensures CnfSat(a, DimacsClauses(h, useSym, anchor)) ==> IsPeriodAssignment(a, h, useSym, anchor)
    ensures IsPeriodAssignment(a, h, useSym, anchor) ==> CnfSat(a, DimacsClauses(h, useSym, anchor))
  {
    var c1, c2, c3 := MatchWeeks(h, Weeks(h)), SlotWeeks(h, Weeks(h)), TeamsBlocks(h, 2 * h);
    var c4 := if useSym then SymBlocks(h, anchor, h) else [];
    DimacsNonzero(h, useSym, anchor);
    ExpandSat(a, DimacsConstraints(h, useSym, anchor));
    AllHoldAppend(a, c1, c2);
    AllHoldAppend(a, c1 + c2, c3);
    AllHoldAppend(a, c1 + c2 + c3, c4);
    MatchWeeksHold(a, h, Weeks(h));
    SlotWeeksHold(a, h, Weeks(h));
    TeamsBlocksHold(a, h, 2 * h);
    if useSym {
      SymBlocksHold(a, h, anchor, h);
    }
  }
}
