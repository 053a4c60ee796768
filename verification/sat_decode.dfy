/**
 * Decoding a SAT answer into a schedule (source/SAT/sat_decode.py):
 * `decode_schedule` turns the true `X_w_m_p` variables of an assignment into
 * the `period x week` matrix of pairs, and `parse_glucose_solution` (in
 * module GlucoseParse) reads the assignment from the solver's `v` lines.
 *
 * The assignment is a Python dict, iterated in insertion order; when two true
 * variables name the same cell, the later one wins, so the dict is modelled as
 * an ordered association list (module Dict).
 */
module SatDecode {
  import opened Wrappers
  import opened Text
  import opened Dict
  import opened RoundRobin
  import opened Cardinality
  import opened SatPairings
  import opened SatEncoding

  // ---------------------------------------------------------------------------
  // The name pattern ^X_(\d+)_(\d+)_(\d+)$
  // ---------------------------------------------------------------------------

  /** `_(\d+)`: an underscore, then a greedy run of digits read as a number. */
  function UnderscoreNat(s: string): Option<(nat, string)> {
    match AfterPrefix(s, "_")
    case None => None
    case Some(t) => ReadNat(t)
  }

  /** `_(\d+)_(\d+)$`: the match and period groups, then the end of the name. */
  function ParseTail(s: string): Option<(nat, nat)> {
    match UnderscoreNat(s)
    case None => None
    case Some((m, s1)) =>
      match UnderscoreNat(s1)
      case None => None
      case Some((p, s2)) => if s2 == "" || s2 == "\n" then Some((m, p)) else None
  }

  /**
   * The three groups of `^X_(\d+)_(\d+)_(\d+)$`, read with `int()`. Python's
   * `$` also matches just before a final `\n`, so one trailing line feed is
   * accepted.
   */
  function ParseXName(name: string): Option<(nat, nat, nat)> {
    match AfterPrefix(name, "X_")
    case None => None
    case Some(s1) =>
      match ReadNat(s1)
      case None => None
      case Some((w, s2)) =>
        match ParseTail(s2)
        case None => None
        case Some((m, p)) => Some((w, m, p))
  }

  lemma UnderscoreNatOf(k: nat, rest: string)
    requires rest == [] || !IsDigit(rest[0])
    ensures UnderscoreNat("_" + NatToString(k) + rest) == Some((k, rest))
  {
    assert "_" + NatToString(k) + rest == "_" + (NatToString(k) + rest);
    AfterPrefixOf("_", NatToString(k) + rest);
    ReadNatOfNatToString(k, rest);
  }

  lemma ParseTailOfXTail(m: nat, p: nat)
    ensures ParseTail(XTail(m, p)) == Some((m, p))
  {
    var last := "_" + NatToString(p);
    assert XTail(m, p) == "_" + NatToString(m) + last;
    UnderscoreNatOf(m, last);
    UnderscoreNatOf(p, "");
    assert "_" + NatToString(p) + "" == last;
  }

  /** The pattern reads back the triple of every name `build_dimacs` gives. */
  lemma ParseXNameOfXName(w: nat, m: nat, p: nat)
    ensures ParseXName(XName(w, m, p)) == Some((w, m, p))
  {
    var rest := NatToString(w) + XTail(m, p);
    assert XName(w, m, p) == "X_" + rest;
    AfterPrefixOf("X_", rest);
    ReadNatOfNatToString(w, XTail(m, p));
    ParseTailOfXTail(m, p);
  }

  // ---------------------------------------------------------------------------
  // decode_schedule, as a specification
  // ---------------------------------------------------------------------------

  /** `len(range(k))`. */
  function Count(k: int): nat { if k < 0 then 0 else k }

  /** The pairing table has a pair for every in-range week and match (else `pairings[w][mi]` fails). */
  predicate PairingsCover(pairings: seq<seq<Pair>>, n: int) {
    |pairings| >= n - 1 && forall w :: 0 <= w < n - 1 ==> |pairings[w]| >= n / 2
  }

  /**
   * Where an entry `(vid, val)` of the assignment puts a pair, if anywhere: it
   * is skipped when false, when `vid - 1` is no index of `reverse_var`, when the
   * name does not match the pattern, and when the triple is out of range.
   */
  function EntryTarget(e: (int, bool), reverseVar: seq<string>, n: int): Option<(nat, nat, nat)> {
    if !e.1 then None
    else if e.0 - 1 < 0 || e.0 - 1 >= |reverseVar| then None
    else
      var t := ParseXName(reverseVar[e.0 - 1]);
      if t.Some? && t.value.0 < n - 1 && t.value.1 < n / 2 && t.value.2 < n / 2 then t else None
  }

  /** `[[None for _ in range(weeks)] for _ in range(periods)]`. */
  function EmptyGrid(rows: int, cols: int): (g: seq<seq<Option<Pair>>>)
    ensures |g| == Count(rows) && forall p :: 0 <= p < |g| ==> |g[p]| == Count(cols)
  {
    seq(Count(rows), _ => seq(Count(cols), _ => None))
  }

  /** The grid shape of `n` teams: `n // 2` periods by `n - 1` weeks. */
  predicate Shaped(g: seq<seq<Option<Pair>>>, n: int) {
    |g| == Count(n / 2) && forall p :: 0 <= p < |g| ==> |g[p]| == Count(n - 1)
  }

  /** The effect of one entry: `sol[p][w] = pairings[w][mi]`, or nothing. */
  function Place(g: seq<seq<Option<Pair>>>, e: (int, bool), reverseVar: seq<string>, pairings: seq<seq<Pair>>, n: int)
    : (g': seq<seq<Option<Pair>>>)
    requires Shaped(g, n) && PairingsCover(pairings, n)
    ensures Shaped(g', n)
  {
    var t := EntryTarget(e, reverseVar, n);
    if t.None? then g else g[t.value.2 := g[t.value.2][t.value.0 := Some(pairings[t.value.0][t.value.1])]]
  }

  /** The grid after the first loop has seen the entries `es`, in order. */
  function PlaceAll(es: seq<(int, bool)>, reverseVar: seq<string>, pairings: seq<seq<Pair>>, n: int)
    : (g: seq<seq<Option<Pair>>>)
    requires PairingsCover(pairings, n)
    ensures Shaped(g, n)
  {
    if es == [] then EmptyGrid(n / 2, n - 1)
    else Place(PlaceAll(es[..|es| - 1], reverseVar, pairings, n), es[|es| - 1], reverseVar, pairings, n)
  }

  /** No cell is `None`. */
  predicate Full(g: seq<seq<Option<Pair>>>) {
    forall p, w :: 0 <= p < |g| && 0 <= w < |g[p]| ==> g[p][w].Some?
  }

  function Unwrap(g: seq<seq<Option<Pair>>>): (s: seq<seq<Pair>>)
    requires Full(g)
    ensures |s| == |g| && forall p :: 0 <= p < |s| ==> |s[p]| == |g[p]|
  {
    seq(|g|, p requires 0 <= p < |g| => seq(|g[p]|, w requires 0 <= w < |g[p]| => g[p][w].value))
  }

  /** `decode_schedule(assignments, reverse_var, pairings, n)`: the matrix, or None if a cell stays empty. */
  function Decode(assignments: Dict<int, bool>, reverseVar: seq<string>, pairings: seq<seq<Pair>>, n: int)
    : Option<seq<seq<Pair>>>
    requires PairingsCover(pairings, n)
  {
    var g: seq<seq<Option<Pair>>> := PlaceAll(assignments, reverseVar, pairings, n);
    if Full(g) then Some(Unwrap(g)) else None
  }

  // ---------------------------------------------------------------------------
  // What the decoded matrix holds
  // ---------------------------------------------------------------------------

  /** The match index entry `e` writes into cell `(p, w)`, if it writes there. */
  function CellTarget(e: (int, bool), reverseVar: seq<string>, n: int, w: int, p: int): Option<nat> {
    var t := EntryTarget(e, reverseVar, n);
    if t.Some? && t.value.0 == w && t.value.2 == p then Some(t.value.1) else None
  }

  /** The match index of the last entry of `es` that writes into cell `(p, w)`. */
  function LastWrite(es: seq<(int, bool)>, reverseVar: seq<string>, n: int, w: int, p: int): (r: Option<nat>)
    ensures r.Some? ==> r.value < n / 2
  {
    if es == [] then None
    else if CellTarget(es[|es| - 1], reverseVar, n, w, p).Some? then CellTarget(es[|es| - 1], reverseVar, n, w, p)
    else LastWrite(es[..|es| - 1], reverseVar, n, w, p)
  }

  /**
   * Later writes win: after the first loop, cell `(p, w)` holds the pair of
   * the last entry aimed at it, and stays empty if no entry is.
   */
  lemma {:induction false} PlaceAllCell(es: seq<(int, bool)>, reverseVar: seq<string>, pairings: seq<seq<Pair>>,
                                        n: int, w: int, p: int)
    requires PairingsCover(pairings, n) && 0 <= p < n / 2 && 0 <= w < n - 1
    ensures LastWrite(es, reverseVar, n, w, p).None? ==> PlaceAll(es, reverseVar, pairings, n)[p][w].None?
    ensures LastWrite(es, reverseVar, n, w, p).Some? ==>
      PlaceAll(es, reverseVar, pairings, n)[p][w] == Some(pairings[w][LastWrite(es, reverseVar, n, w, p).value])
  {
    if es != [] {
      PlaceAllCell(es[..|es| - 1], reverseVar, pairings, n, w, p);
      PlaceCell(PlaceAll(es[..|es| - 1], reverseVar, pairings, n), es[|es| - 1], reverseVar, pairings, n, w, p);
    }
  }

  /** One entry changes cell `(p, w)` only when it is aimed at it. */
  lemma PlaceCell(g: seq<seq<Option<Pair>>>, e: (int, bool), reverseVar: seq<string>, pairings: seq<seq<Pair>>,
                  n: int, w: int, p: int)
    requires Shaped(g, n) && PairingsCover(pairings, n) && 0 <= p < n / 2 && 0 <= w < n - 1
    ensures CellTarget(e, reverseVar, n, w, p).None? ==> Place(g, e, reverseVar, pairings, n)[p][w] == g[p][w]
    ensures CellTarget(e, reverseVar, n, w, p).Some? ==>
      Place(g, e, reverseVar, pairings, n)[p][w] == Some(pairings[w][CellTarget(e, reverseVar, n, w, p).value])
  {
  }

  /** `LastWrite` picks one of the entries aimed at the cell, and finds one whenever there is one. */
  lemma {:induction false} LastWriteFrom(es: seq<(int, bool)>, reverseVar: seq<string>, n: int, w: int, p: int)
    ensures LastWrite(es, reverseVar, n, w, p).Some? ==>
      exists i :: 0 <= i < |es| && CellTarget(es[i], reverseVar, n, w, p) == LastWrite(es, reverseVar, n, w, p)
    ensures (exists i :: 0 <= i < |es| && CellTarget(es[i], reverseVar, n, w, p).Some?) ==>
      LastWrite(es, reverseVar, n, w, p).Some?
  {
    if es != [] {
      var init := es[..|es| - 1];
      LastWriteFrom(init, reverseVar, n, w, p);
      assert forall i :: 0 <= i < |init| ==> init[i] == es[i];
    }
  }

  /**
   * `decode_schedule` returns a matrix exactly when every cell of the
   * `n // 2` by `n - 1` grid is aimed at by some true entry; the matrix then
   * has that shape and each cell holds the pair of the last such entry.
   */
  lemma DecodeCells(assignments: Dict<int, bool>, reverseVar: seq<string>, pairings: seq<seq<Pair>>, n: int)
    requires PairingsCover(pairings, n)
    ensures Decode(assignments, reverseVar, pairings, n).Some? ==>
      forall p, w :: 0 <= p < n / 2 && 0 <= w < n - 1 ==> LastWrite(assignments, reverseVar, n, w, p).Some?
    ensures (forall p, w :: 0 <= p < n / 2 && 0 <= w < n - 1 ==> LastWrite(assignments, reverseVar, n, w, p).Some?) ==>
      Decode(assignments, reverseVar, pairings, n).Some?
    ensures Decode(assignments, reverseVar, pairings, n).Some? ==>
      var s := Decode(assignments, reverseVar, pairings, n).value;
      && |s| == Count(n / 2)
      && (forall p :: 0 <= p < |s| ==> |s[p]| == Count(n - 1))
      && forall p, w :: 0 <= p < |s| && 0 <= w < |s[p]| ==>
           s[p][w] == pairings[w][LastWrite(assignments, reverseVar, n, w, p).value]
  {
    var g: seq<seq<Option<Pair>>> := PlaceAll(assignments, reverseVar, pairings, n);
    forall p, w | 0 <= p < n / 2 && 0 <= w < n - 1 {
      PlaceAllCell(assignments, reverseVar, pairings, n, w, p);
    }
    if forall p: int, w: int :: 0 <= p < n / 2 && 0 <= w < n - 1 ==> LastWrite(assignments, reverseVar, n, w, p).Some? {
      forall p: int, w: int | 0 <= p < |g| && 0 <= w < |g[p]| ensures g[p][w].Some? {
        assert 0 <= p < n / 2 && 0 <= w < n - 1;
        assert LastWrite(assignments, reverseVar, n, w, p).Some?;
      }
    }
    if Full(g) {
      var s := Unwrap(g);
      forall p: int, w: int | 0 <= p < |s| && 0 <= w < |s[p]|
        ensures s[p][w] == pairings[w][LastWrite(assignments, reverseVar, n, w, p).value]
      {
        assert 0 <= p < n / 2 && 0 <= w < n - 1;
        assert s[p][w] == g[p][w].value;
      }
    }
  }

  /** `x` is one of the first `n // 2` pairs of week `w`, in the pairing's own orientation. */
  predicate FromWeek(x: Pair, pairings: seq<seq<Pair>>, w: int, n: int) {
    exists m :: 0 <= m < n / 2 && 0 <= w < |pairings| && m < |pairings[w]| && x == pairings[w][m]
  }

  /** Every cell of column `w` of a decoded matrix holds one of week `w`'s pairs. */
  lemma ColumnFromWeek(assignments: Dict<int, bool>, reverseVar: seq<string>, pairings: seq<seq<Pair>>, n: int)
    requires PairingsCover(pairings, n)
    ensures Decode(assignments, reverseVar, pairings, n).Some? ==>
      var s := Decode(assignments, reverseVar, pairings, n).value;
      forall p, w :: 0 <= p < |s| && 0 <= w < |s[p]| ==> FromWeek(s[p][w], pairings, w, n)
  {
    DecodeCells(assignments, reverseVar, pairings, n);
    if Decode(assignments, reverseVar, pairings, n).Some? {
      var s := Decode(assignments, reverseVar, pairings, n).value;
      forall p: int, w: int | 0 <= p < |s| && 0 <= w < |s[p]| ensures FromWeek(s[p][w], pairings, w, n) {
        assert 0 <= p < n / 2 && 0 <= w < n - 1;
        assert LastWrite(assignments, reverseVar, n, w, p).Some?;
        var m := LastWrite(assignments, reverseVar, n, w, p).value;
        assert m < n / 2 && s[p][w] == pairings[w][m];
      }
    }
  }

  // ---------------------------------------------------------------------------
  // Round trip: decoding a model of the DIMACS encoding
  // ---------------------------------------------------------------------------

  /** The solver's map gives every encoded variable `1..XCount(h)` the value `a` gives it. */
  ghost predicate Records(assignments: Dict<int, bool>, a: Assignment, h: nat) {
    forall id :: 1 <= id <= XCount(h) ==> Get(assignments, id) == Some(a(id))
  }

  /** The triple that the id `k` encodes. */
  function IdTriple(h: nat, k: int): (nat, nat, nat)
    requires h >= 1 && k >= 1
  {
    XIdOfId(h, k);
    (IdWeek(h, k), IdMatch(h, k), IdPeriod(h, k))
  }

  /** Every name of the reverse map reads back, through the pattern, as the triple its id encodes. */
  ghost predicate NamesDecode(reverseVar: seq<string>, h: nat)
    requires h >= 1
  {
    |reverseVar| == XCount(h) &&
    forall k :: 1 <= k <= |reverseVar| ==> ParseXName(reverseVar[k - 1]) == Some(IdTriple(h, k))
  }

  /** The reverse map of `build_dimacs` is one. */
  lemma XNamesDecode(h: nat)
    requires h >= 1
    ensures NamesDecode(XNames(h, XCount(h)), h)
  {
    var rv := XNames(h, XCount(h));
    forall k | 1 <= k <= |rv| ensures ParseXName(rv[k - 1]) == Some(IdTriple(h, k)) {
      NameDecodes(h, k);
    }
  }

  /** The name at position `k - 1` of the reverse map reads back as the triple of id `k`. */
  lemma NameDecodes(h: nat, k: int)
    requires h >= 1 && 1 <= k <= XCount(h)
    ensures ParseXName(XNames(h, XCount(h))[k - 1]) == Some(IdTriple(h, k))
  {
    XNamesIndex(h, XCount(h), k - 1);
    XIdOfId(h, k);
    ParseXNameOfXName(IdWeek(h, k), IdMatch(h, k), IdPeriod(h, k));
  }

  /** An entry writes into a cell only if it is the true variable of that cell, and then `a` makes it true. */
  lemma EntryIsVariable(assignments: Dict<int, bool>, a: Assignment, h: nat, reverseVar: seq<string>,
                        i: int, w: int, m: nat, p: int)
    requires h >= 1 && DistinctKeys(assignments) && Records(assignments, a, h) && NamesDecode(reverseVar, h)
    requires 0 <= i < |assignments| && CellTarget(assignments[i], reverseVar, 2 * h, w, p) == Some(m)
    ensures assignments[i].0 == XId(h, w, m, p) && a(XId(h, w, m, p))
  {
    TargetIsId(h, reverseVar, assignments[i], w, m, p);
    GetAt(assignments, i);
  }

  /** Only the true entry of `X(w, m, p)` writes `m` into cell `(p, w)`. */
  lemma TargetIsId(h: nat, reverseVar: seq<string>, e: (int, bool), w: int, m: nat, p: int)
    requires h >= 1 && NamesDecode(reverseVar, h) && CellTarget(e, reverseVar, 2 * h, w, p) == Some(m)
    ensures e == (XId(h, w, m, p), true)
  {
    CellTargetFacts(e, reverseVar, 2 * h, w, m, p);
    assert IdTriple(h, e.0) == (w, m, p);
    XIdOfId(h, e.0);
  }

  /** What an entry that writes `m` into cell `(p, w)` looks like. */
  lemma CellTargetFacts(e: (int, bool), reverseVar: seq<string>, n: int, w: int, m: nat, p: int)
    requires CellTarget(e, reverseVar, n, w, p) == Some(m)
    ensures e.1 && 1 <= e.0 <= |reverseVar| && ParseXName(reverseVar[e.0 - 1]) == Some((w, m, p))
  {
  }

  /** A true variable of the encoding, recorded in the map, writes into its cell. */
  lemma VariableIsEntry(assignments: Dict<int, bool>, a: Assignment, h: nat, reverseVar: seq<string>,
                        w: nat, m: nat, p: nat)
    requires h >= 1 && Records(assignments, a, h) && NamesDecode(reverseVar, h)
    requires InRange(h, w, m, p) && a(XId(h, w, m, p))
    ensures exists i :: 0 <= i < |assignments| && CellTarget(assignments[i], reverseVar, 2 * h, w, p) == Some(m)
  {
    var k := XId(h, w, m, p);
    XIdRange(h, w, m, p);
    IdOfXId(h, w, m, p);
    assert ParseXName(reverseVar[k - 1]) == Some(IdTriple(h, k)) == Some((w, m, p));
    CellTargetOf(k, reverseVar, 2 * h, w, m, p);
    assert Get(assignments, k) == Some(true);
    GetFound(assignments, k, true);
  }

  /** An entry writes into cell `(p, w)` when it is true, its id is in range and its name reads back in range. */
  lemma CellTargetOf(k: int, reverseVar: seq<string>, n: int, w: nat, m: nat, p: nat)
    requires 1 <= k <= |reverseVar| && ParseXName(reverseVar[k - 1]) == Some((w, m, p))
    requires w < n - 1 && m < n / 2 && p < n / 2
    ensures CellTarget((k, true), reverseVar, n, w, p) == Some(m)
  {
  }

  /** `circle_method_pairings(2h)` has a pair for every week and match index `decode_schedule` reads. */
  lemma PairingsCoverOf(h: nat)
    requires h >= 1
    ensures PairingsCover(Pairings(2 * h), 2 * h)
  {
    forall w | 0 <= w < 2 * h - 1 ensures |Pairings(2 * h)[w]| >= h {
      PairingsAt(2 * h, w, 0);
    }
  }

  /** A cell whose period slot has exactly one true variable receives that variable's match. */
  lemma CellOfModel(assignments: Dict<int, bool>, a: Assignment, h: nat, reverseVar: seq<string>,
                    w: nat, m: nat, p: nat)
    requires h >= 1 && DistinctKeys(assignments) && Records(assignments, a, h) && NamesDecode(reverseVar, h)
    requires InRange(h, w, m, p) && a(XId(h, w, m, p)) && CountTrue(a, SlotLits(h, w, p)) == 1
    ensures LastWrite(assignments, reverseVar, 2 * h, w, p) == Some(m)
  {
    VariableIsEntry(assignments, a, h, reverseVar, w, m, p);
    LastWriteFrom(assignments, reverseVar, 2 * h, w, p);
    var i :| 0 <= i < |assignments| &&
      CellTarget(assignments[i], reverseVar, 2 * h, w, p) == LastWrite(assignments, reverseVar, 2 * h, w, p);
    var m' := LastWrite(assignments, reverseVar, 2 * h, w, p).value;
    EntryIsVariable(assignments, a, h, reverseVar, i, w, m', p);
    SlotUnique(a, h, w, p, m, m');
  }

  /** Two true variables of one period slot name the same match. */
  lemma SlotUnique(a: Assignment, h: nat, w: int, p: int, m: int, m': int)
    requires CountTrue(a, SlotLits(h, w, p)) == 1 && 0 <= m < h && 0 <= m' < h && 0 <= w && 0 <= p
    requires a(XId(h, w, m, p)) && a(XId(h, w, m', p))
    ensures m == m'
  {
    XIdPositive(h, w, m, p);
    XIdPositive(h, w, m', p);
    CountOne(a, SlotLits(h, w, p));
    assert LitTrue(a, SlotLits(h, w, p)[m]) && LitTrue(a, SlotLits(h, w, p)[m']);
  }

  /**
   * Round trip: when every period of every week holds exactly one match in
   * the assignment, `decode_schedule` returns the full matrix, with the pair
   * of match `m` of week `w` in cell `(p, w)` whenever `X_w_m_p` is true.
   */
  lemma DecodeModel(assignments: Dict<int, bool>, a: Assignment, h: nat, reverseVar: seq<string>,
                    pairings: seq<seq<Pair>>)
    requires h >= 1 && DistinctKeys(assignments) && Records(assignments, a, h) && NamesDecode(reverseVar, h)
    requires PairingsCover(pairings, 2 * h)
    requires forall w :: 0 <= w < Weeks(h) ==> PeriodsFilled(a, h, w)
    ensures Decode(assignments, reverseVar, pairings, 2 * h).Some?
    ensures forall p, w, m :: 0 <= p < h && 0 <= w < Weeks(h) && 0 <= m < h && a(XId(h, w, m, p)) ==>
      Decode(assignments, reverseVar, pairings, 2 * h).value[p][w] == pairings[w][m]
  {
    forall p, w | 0 <= p < h && 0 <= w < Weeks(h)
      ensures LastWrite(assignments, reverseVar, 2 * h, w, p).Some?
      ensures forall m :: 0 <= m < h && a(XId(h, w, m, p)) ==> LastWrite(assignments, reverseVar, 2 * h, w, p) == Some(m)
    {
      assert PeriodsFilled(a, h, w);
      CountOne(a, SlotLits(h, w, p));
      var m0 :| 0 <= m0 < h && LitTrue(a, SlotLits(h, w, p)[m0]);
      XIdPositive(h, w, m0, p);
      CellOfModel(assignments, a, h, reverseVar, w, m0, p);
      forall m | 0 <= m < h && a(XId(h, w, m, p)) {
        CellOfModel(assignments, a, h, reverseVar, w, m, p);
      }
    }
    DecodeCells(assignments, reverseVar, pairings, 2 * h);
  }

  /**
   * The same for any model of the clauses `build_dimacs` writes, decoded with
   * its own reverse map and pairing table.
   */
  lemma DecodeSolution(assignments: Dict<int, bool>, a: Assignment, h: nat, useSym: bool, anchor: int)
    requires h >= 1 && DistinctKeys(assignments) && Records(assignments, a, h)
    requires CnfSat(a, DimacsClauses(h, useSym, anchor))
    ensures PairingsCover(Pairings(2 * h), 2 * h)
    ensures Decode(assignments, XNames(h, XCount(h)), Pairings(2 * h), 2 * h).Some?
    ensures forall p, w, m :: 0 <= p < h && 0 <= w < Weeks(h) && 0 <= m < h && a(XId(h, w, m, p)) ==>
      Decode(assignments, XNames(h, XCount(h)), Pairings(2 * h), 2 * h).value[p][w] == Pairings(2 * h)[w][m]
  {
    PairingsCoverOf(h);
    XNamesDecode(h);
    DimacsMeaning(a, h, useSym, anchor);
    DecodeModel(assignments, a, h, XNames(h, XCount(h)), Pairings(2 * h));
  }

  // ---------------------------------------------------------------------------
  // decode_schedule, the loops
  // ---------------------------------------------------------------------------

  /** One pass of the first loop, with the source's `continue` conditions. */
  method PlaceEntry(sol: seq<seq<Option<Pair>>>, vid: int, val: bool,
                    reverseVar: seq<string>, pairings: seq<seq<Pair>>, n: int)
    returns (sol': seq<seq<Option<Pair>>>)
    requires Shaped(sol, n) && PairingsCover(pairings, n)
    ensures sol' == Place(sol, (vid, val), reverseVar, pairings, n)
  {
    var periods, weeks, matchesPerWeek := n / 2, n - 1, n / 2;
    if !val {
      return sol;
    }
    var idx := vid - 1;
    if idx < 0 || idx >= |reverseVar| {
      return sol;
    }
    var name := reverseVar[idx];
    var groups := ParseXName(name);
    if groups.None? {
      return sol;
    }
    var (w, mi, p) := groups.value;
    if !(0 <= w < weeks && 0 <= mi < matchesPerWeek && 0 <= p < periods) {
      return sol;
    }
    var (a, b) := pairings[w][mi];
    sol' := sol[p := sol[p][w := Some((a, b))]];
  }

  /** `decode_schedule`: place every true variable's pair, then insist that every cell is filled. */
  method DecodeSchedule(assignments: Dict<int, bool>, reverseVar: seq<string>, pairings: seq<seq<Pair>>, n: int)
    returns (sol: Option<seq<seq<Pair>>>)
    requires PairingsCover(pairings, n)
    ensures sol == Decode(assignments, reverseVar, pairings, n)
  {
    var grid := EmptyGrid(n / 2, n - 1);
    for i := 0 to |assignments|
      invariant grid == PlaceAll(assignments[..i], reverseVar, pairings, n)
    {
      assert assignments[..i + 1][..i] == assignments[..i];
      grid := PlaceEntry(grid, assignments[i].0, assignments[i].1, reverseVar, pairings, n);
    }
    assert assignments[..|assignments|] == assignments;
    var full := ScanFull(grid, n);
    if !full {
      return None;
    }
    return Some(Unwrap(grid));
  }

  /** The sanity check: `False` at the first `None` cell, in period-then-week order. */
  method ScanFull(grid: seq<seq<Option<Pair>>>, n: int) returns (full: bool)
    requires Shaped(grid, n)
    ensures full <==> Full(grid)
  {
    for p := 0 to Count(n / 2)
      invariant forall p', w :: 0 <= p' < p && 0 <= w < |grid[p']| ==> grid[p'][w].Some?
    {
      for w := 0 to Count(n - 1)
        invariant forall w' :: 0 <= w' < w ==> grid[p][w'].Some?
      {
        if grid[p][w].None? {
          return false;
        }
      }
    }
    return true;
  }
}
