/**
 * Writing the SMT-LIB 2 model of the schedule (source/SMT/smtlib_export.py):
 * the Boolean variables `M_i_j_P{p}_W{w}` ("teams i < j meet in period p of
 * week w") and `H_i_j_P{p}_W{w}` ("i is at home in that match"), and the
 * lines of the `.smt2` file that constrain them.
 *
 * The file is modelled as a sequence of commands, one per line; `FileText`
 * prints them. Each block of the file is a function built with `Loop` in the
 * shape of the Python loops that write it, and `WriteSmtlibFile` is the
 * imperative writer, proved to emit exactly `Script(n, useSymmetry, maxDiff)`.
 */
module SmtlibExport {
  import opened Text
  import opened Wrappers
  import opened Loops
  import opened Lines

  /** The common layout of both names: `{kind}_{i}_{j}_P{p}_W{w}`. */
  function MatchVarName(kind: string, i: nat, j: nat, p: nat, w: nat): string {
    kind + "_" + NatToString(i) + "_" + NatToString(j) + "_P" + NatToString(p) + "_W" + NatToString(w)
  }

  /** `var_M(i, j, p, w)`. */
  function VarM(i: nat, j: nat, p: nat, w: nat): string {
    MatchVarName("M", i, j, p, w)
  }

  /** `var_H(i, j, p, w)`. */
  function VarH(i: nat, j: nat, p: nat, w: nat): string {
    MatchVarName("H", i, j, p, w)
  }

  // ---------------------------------------------------------------------------
  // Variables, terms and commands
  // ---------------------------------------------------------------------------

  /** A declared Boolean: the match variable or the home variable of `(i, j, p, w)`. */
  datatype Var = M(i: nat, j: nat, p: nat, w: nat) | H(i: nat, j: nat, p: nat, w: nat)

  function VarName(v: Var): string {
    match v
    case M(i, j, p, w) => VarM(i, j, p, w)
    case H(i, j, p, w) => VarH(i, j, p, w)
  }

  /**
   * A summand: `(ite x 1 0)`, or the fairness term `(ite (and m h) 1 0)`
   * (`positive`) / `(ite (and m (not h)) 1 0)`.
   */
  datatype Term = Ite(x: Var) | HomeIte(m: Var, h: Var, positive: bool)

  /** One line of the file. */
  datatype Command =
    | SetLogic
    | ProduceModels
    | DeclareBool(v: Var)
    | AtLeast(terms: seq<Term>, bound: int)
    | AtMost(terms: seq<Term>, bound: int)
    | AssertVar(v: Var)
    | AssertOr(vs: seq<Var>)
    | CheckSat
    | GetModel

  function TermText(t: Term): string {
    match t
    case Ite(x) => "(ite " + VarName(x) + " 1 0)"
    case HomeIte(m, h, positive) =>
      if positive then "(ite (and " + VarName(m) + " " + VarName(h) + ") 1 0)"
      else "(ite (and " + VarName(m) + " (not " + VarName(h) + ")) 1 0)"
  }

  function TermTexts(ts: seq<Term>): seq<string> {
    seq(|ts|, k requires 0 <= k < |ts| => TermText(ts[k]))
  }

  function VarNames(vs: seq<Var>): seq<string> {
    seq(|vs|, k requires 0 <= k < |vs| => VarName(vs[k]))
  }

  /** `" ".join(...)` of the summands. */
  function SumText(ts: seq<Term>): string {
    JoinSpace(TermTexts(ts))
  }

  /** The text of one line, without its newline. */
  function CommandText(c: Command): string {
    match c
    case SetLogic => "(set-logic QF_LIA)"
    case ProduceModels => "(set-option :produce-models true)"
    case DeclareBool(v) => "(declare-fun " + VarName(v) + " () Bool)"
    case AtLeast(ts, k) => "(assert (>= (+ " + SumText(ts) + ") " + IntToString(k) + "))"
    case AtMost(ts, k) => "(assert (<= (+ " + SumText(ts) + ") " + IntToString(k) + "))"
    case AssertVar(v) => "(assert " + VarName(v) + ")"
    case AssertOr(vs) => "(assert (or " + JoinSpace(VarNames(vs)) + "))"
    case CheckSat => "(check-sat)"
    case GetModel => "(get-model)"
  }

  /** The text of one line, with its newline. */
  function Line(c: Command): string {
    CommandText(c) + "\n"
  }

  /** The file: every command on a line of its own. */
  function FileText(cs: seq<Command>): string {
    Unlines(cs, Line)
  }

  /** `(ite x 1 0)` for every variable of `vs`, in order. */
  function Ites(vs: seq<Var>): (ts: seq<Term>)
    ensures |ts| == |vs| && forall k :: 0 <= k < |vs| ==> ts[k] == Ite(vs[k])
  {
    seq(|vs|, k requires 0 <= k < |vs| => Ite(vs[k]))
  }

  /** The `>= 1` and `<= 1` pair that says exactly one of `vs` holds. */
  function ExactlyOne(vs: seq<Var>): seq<Command> {
    [AtLeast(Ites(vs), 1), AtMost(Ites(vs), 1)]
  }

  /** The match variable of `t` against `opp`, with the teams in increasing order. */
  function TeamVar(t: nat, opp: nat, p: nat, w: nat): Var {
    if t < opp then M(t, opp, p, w) else M(opp, t, p, w)
  }

  // ---------------------------------------------------------------------------
  // The blocks of the file
  // ---------------------------------------------------------------------------

  function Header(): seq<Command> {
    [SetLogic, ProduceModels]
  }

  function Footer(): seq<Command> {
    [CheckSat, GetModel]
  }

  /** Declarations: `M` for every `i < j`, period and week, each followed by its `H` when `hasH`. */
  function DeclCell(hasH: bool, i: nat, j: nat, p: nat, w: nat): seq<Command> {
    [DeclareBool(M(i, j, p, w))] + (if hasH then [DeclareBool(H(i, j, p, w))] else [])
  }

  function DeclWeeks(hasH: bool, i: nat, j: nat, p: nat): nat -> seq<Command> {
    (w: nat) => DeclCell(hasH, i, j, p, w)
  }

  function DeclPeriod(n: int, hasH: bool, i: nat, j: nat, p: nat): seq<Command> {
    Loop(0, n - 1, DeclWeeks(hasH, i, j, p))
  }

  function DeclPeriods(n: int, hasH: bool, i: nat, j: nat): nat -> seq<Command> {
    (p: nat) => DeclPeriod(n, hasH, i, j, p)
  }

  function DeclPair(n: int, hasH: bool, i: nat, j: nat): seq<Command> {
    if i < j then Loop(0, n / 2, DeclPeriods(n, hasH, i, j)) else []
  }

  function DeclPairs(n: int, hasH: bool, i: nat): nat -> seq<Command> {
    (j: nat) => DeclPair(n, hasH, i, j)
  }

  function DeclRow(n: int, hasH: bool, i: nat): seq<Command> {
    Loop(1, n + 1, DeclPairs(n, hasH, i))
  }

  function DeclRows(n: int, hasH: bool): nat -> seq<Command> {
    (i: nat) => DeclRow(n, hasH, i)
  }

  function Declarations(n: int, hasH: bool): seq<Command> {
    Loop(1, n + 1, DeclRows(n, hasH))
  }

  /** Constraint 1: the match variables of slot `(p, w)`, pairs `i < j` in order. */
  function SlotPairVar(p: nat, w: nat, i: nat): nat -> seq<Var> {
    (j: nat) => if i < j then [M(i, j, p, w)] else []
  }

  function SlotRowVars(n: int, p: nat, w: nat): nat -> seq<Var> {
    (i: nat) => Loop(1, n + 1, SlotPairVar(p, w, i))
  }

  function SlotVars(n: int, p: nat, w: nat): seq<Var> {
    Loop(1, n + 1, SlotRowVars(n, p, w))
  }

  function SlotWeeks(n: int, p: nat): nat -> seq<Command> {
    (w: nat) => ExactlyOne(SlotVars(n, p, w))
  }

  function SlotPeriod(n: int, p: nat): seq<Command> {
    Loop(0, n - 1, SlotWeeks(n, p))
  }

  function SlotPeriods(n: int): nat -> seq<Command> {
    (p: nat) => SlotPeriod(n, p)
  }

  function SlotConstraints(n: int): seq<Command> {
    Loop(0, n / 2, SlotPeriods(n))
  }

  /** Constraint 2: the match variables of pair `(i, j)`, periods outer, weeks inner. */
  function PairWeekVar(i: nat, j: nat, p: nat): nat -> seq<Var> {
    (w: nat) => [M(i, j, p, w)]
  }

  function PairPeriodVars(n: int, i: nat, j: nat): nat -> seq<Var> {
    (p: nat) => Loop(0, n - 1, PairWeekVar(i, j, p))
  }

  function PairVars(n: int, i: nat, j: nat): seq<Var> {
    Loop(0, n / 2, PairPeriodVars(n, i, j))
  }

  function PairCell(n: int, i: nat, j: nat): seq<Command> {
    if i < j then ExactlyOne(PairVars(n, i, j)) else []
  }

  function PairCols(n: int, i: nat): nat -> seq<Command> {
    (j: nat) => PairCell(n, i, j)
  }

  function PairRow(n: int, i: nat): seq<Command> {
    Loop(1, n + 1, PairCols(n, i))
  }

  function PairRows(n: int): nat -> seq<Command> {
    (i: nat) => PairRow(n, i)
  }

  function PairConstraints(n: int): seq<Command> {
    Loop(1, n + 1, PairRows(n))
  }

  /** The match variable of `t` against every other team, in one period and week. */
  function OppVar(t: nat, p: nat, w: nat): nat -> seq<Var> {
    (opp: nat) => if opp != t then [TeamVar(t, opp, p, w)] else []
  }

  function OppVars(n: int, t: nat, p: nat, w: nat): seq<Var> {
    Loop(1, n + 1, OppVar(t, p, w))
  }

  /** Constraint 3: the match variables of team `t` in week `w`, periods outer, opponents inner. */
  function TeamWeekPeriod(n: int, t: nat, w: nat): nat -> seq<Var> {
    (p: nat) => OppVars(n, t, p, w)
  }

  function TeamWeekVars(n: int, t: nat, w: nat): seq<Var> {
    Loop(0, n / 2, TeamWeekPeriod(n, t, w))
  }

  function TeamWeekCells(n: int, t: nat): nat -> seq<Command> {
    (w: nat) => ExactlyOne(TeamWeekVars(n, t, w))
  }

  function TeamWeekRow(n: int, t: nat): seq<Command> {
    Loop(0, n - 1, TeamWeekCells(n, t))
  }

  function TeamWeekRows(n: int): nat -> seq<Command> {
    (t: nat) => TeamWeekRow(n, t)
  }

  function TeamWeekConstraints(n: int): seq<Command> {
    Loop(1, n + 1, TeamWeekRows(n))
  }

  /** Constraint 4: the match variables of team `t` in period `p`, weeks outer, opponents inner. */
  function TeamPeriodWeek(n: int, t: nat, p: nat): nat -> seq<Var> {
    (w: nat) => OppVars(n, t, p, w)
  }

  function TeamPeriodVars(n: int, t: nat, p: nat): seq<Var> {
    Loop(0, n - 1, TeamPeriodWeek(n, t, p))
  }

  function TeamPeriodCells(n: int, t: nat): nat -> seq<Command> {
    (p: nat) => [AtMost(Ites(TeamPeriodVars(n, t, p)), 2)]
  }

  function TeamPeriodRow(n: int, t: nat): seq<Command> {
    Loop(0, n / 2, TeamPeriodCells(n, t))
  }

  function TeamPeriodRows(n: int): nat -> seq<Command> {
    (t: nat) => TeamPeriodRow(n, t)
  }

  function TeamPeriodConstraints(n: int): seq<Command> {
    Loop(1, n + 1, TeamPeriodRows(n))
  }

  /** SB1: match `(2p + 1, 2p + 2)` is fixed into period `p` of week 0 when team `2p + 2` exists. */
  function Sb1Cells(n: int): nat -> seq<Command> {
    (p: nat) => if 2 * p + 2 <= n then [AssertVar(M(2 * p + 1, 2 * p + 2, p, 0))] else []
  }

  function Sb1(n: int): seq<Command> {
    Loop(0, n / 2, Sb1Cells(n))
  }

  /** The SB2 literal of period `p`: both branches of the source's `if 1 < opp`. */
  function Sb2Var(opp: nat, p: nat, w: nat): Var {
    if 1 < opp then M(1, opp, p, w) else M(opp, 1, p, w)
  }

  function Sb2Periods(opp: nat, w: nat): nat -> seq<Var> {
    (p: nat) => [Sb2Var(opp, p, w)]
  }

  /** SB2: in week `w`, team 1 meets team `w + 2` in some period. */
  function Sb2Vars(n: int, w: nat): seq<Var> {
    Loop(0, n / 2, Sb2Periods(w + 2, w))
  }

  function Sb2Cells(n: int): nat -> seq<Command> {
    (w: nat) => if w + 2 <= n then [AssertOr(Sb2Vars(n, w))] else []
  }

  function Sb2(n: int): seq<Command> {
    Loop(0, n - 1, Sb2Cells(n))
  }

  function Symmetry(n: int, useSymmetry: bool): seq<Command> {
    if useSymmetry then Sb1(n) + Sb2(n) else []
  }

  /** Fairness bounds: `(weeks - max_diff) // 2` and `(weeks + max_diff) // 2`. */
  function MinHome(n: int, d: int): int {
    (n - 1 - d) / 2
  }

  function MaxHome(n: int, d: int): int {
    (n - 1 + d) / 2
  }

  /** The summand that is 1 when `t` plays `opp` at home in period `p` of week `w`. */
  function HomeTerm(t: nat, opp: nat, p: nat, w: nat): Term {
    var m := TeamVar(t, opp, p, w);
    HomeIte(m, H(m.i, m.j, p, w), m.i == t)
  }

  function HomeWeeks(t: nat, opp: nat, p: nat): nat -> seq<Term> {
    (w: nat) => [HomeTerm(t, opp, p, w)]
  }

  function HomePeriods(n: int, t: nat, opp: nat): nat -> seq<Term> {
    (p: nat) => Loop(0, n - 1, HomeWeeks(t, opp, p))
  }

  function HomeVsOpp(n: int, t: nat, opp: nat): seq<Term> {
    if opp == t then [] else Loop(0, n / 2, HomePeriods(n, t, opp))
  }

  function HomeOpps(n: int, t: nat): nat -> seq<Term> {
    (opp: nat) => HomeVsOpp(n, t, opp)
  }

  /** The home-game count of `t`: opponents outer, then periods, then weeks. */
  function HomeTerms(n: int, t: nat): seq<Term> {
    Loop(1, n + 1, HomeOpps(n, t))
  }

  function FairCells(n: int, d: int): nat -> seq<Command> {
    (t: nat) => [AtLeast(HomeTerms(n, t), MinHome(n, d)), AtMost(HomeTerms(n, t), MaxHome(n, d))]
  }

  function Fairness(n: int, maxDiff: Option<int>): seq<Command> {
    if maxDiff.Some? then Loop(1, n + 1, FairCells(n, maxDiff.value)) else []
  }

  /** The whole file, block by block. */
  function Script(n: int, useSymmetry: bool, maxDiff: Option<int>): seq<Command> {
    Header() + Declarations(n, maxDiff.Some?) + SlotConstraints(n) + PairConstraints(n)
      + TeamWeekConstraints(n) + TeamPeriodConstraints(n) + Symmetry(n, useSymmetry)
      + Fairness(n, maxDiff) + Footer()
  }

  // ---------------------------------------------------------------------------
  // What the file says
  // ---------------------------------------------------------------------------

  /** A variable of the schedule: a pair `1 <= i < j <= n`, a period and a week in range. */
  predicate InRange(n: int, v: Var) {
    1 <= v.i < v.j <= n && v.p < n / 2 && v.w < n - 1
  }

  /** The value of a summand under the assignment `a`. */
  function TermValue(a: Var -> bool, t: Term): int {
    match t
    case Ite(x) => if a(x) then 1 else 0
    case HomeIte(m, h, positive) => if a(m) && a(h) == positive then 1 else 0
  }

  /** The value of `(+ ...)`. */
  function Sum(a: Var -> bool, ts: seq<Term>): int {
    if ts == [] then 0 else Sum(a, ts[..|ts| - 1]) + TermValue(a, ts[|ts| - 1])
  }

  /** How many entries of `vs` are true under `a`. */
  function CountTrue(a: Var -> bool, vs: seq<Var>): nat {
    if vs == [] then 0 else CountTrue(a, vs[..|vs| - 1]) + (if a(vs[|vs| - 1]) then 1 else 0)
  }

  /** Whether the assignment `a` satisfies one line. */
  predicate Holds(a: Var -> bool, c: Command) {
    match c
    case AtLeast(ts, k) => Sum(a, ts) >= k
    case AtMost(ts, k) => Sum(a, ts) <= k
    case AssertVar(v) => a(v)
    case AssertOr(vs) => exists k :: 0 <= k < |vs| && a(vs[k])
    case _ => true
  }

  /** The team at home in match `m` under `a`: `i` when `H` holds, `j` otherwise. */
  function HomeTeam(a: Var -> bool, m: Var): nat {
    if a(H(m.i, m.j, m.p, m.w)) then m.i else m.j
  }

  /** Whether `a` satisfies every line of `cs`. */
  predicate Satisfies(a: Var -> bool, cs: seq<Command>) {
    forall c :: c in cs ==> Holds(a, c)
  }

  /** A sum of `(ite x 1 0)` counts the true variables. */
  lemma {:induction false} SumOfItes(a: Var -> bool, vs: seq<Var>)
    ensures Sum(a, Ites(vs)) == CountTrue(a, vs)
    decreases |vs|
  {
    if vs != [] {
      var init := vs[..|vs| - 1];
      assert Ites(vs)[..|vs| - 1] == Ites(init);
      SumOfItes(a, init);
    }
  }

  /** The `>= 1` / `<= 1` pair holds exactly when one of the variables is true. */
  lemma ExactlyOneMeaning(a: Var -> bool, vs: seq<Var>)
    ensures (forall c :: c in ExactlyOne(vs) ==> Holds(a, c)) <==> CountTrue(a, vs) == 1
  {
    SumOfItes(a, vs);
    assert Holds(a, ExactlyOne(vs)[0]) && Holds(a, ExactlyOne(vs)[1]) <==> CountTrue(a, vs) == 1;
  }

  /** A fairness summand is 1 exactly when `t` plays `opp` there and is the home team. */
  lemma HomeTermMeaning(a: Var -> bool, t: nat, opp: nat, p: nat, w: nat)
    requires t != opp
    ensures TermValue(a, HomeTerm(t, opp, p, w)) ==
      (if a(TeamVar(t, opp, p, w)) && HomeTeam(a, TeamVar(t, opp, p, w)) == t then 1 else 0)
  {
  }

  /**
   * The fairness bounds in terms of the imbalance `2 * hg - W` of a team with
   * `hg` home games: the upper bound is exactly `2 * hg - W <= d`, and the lower
   * bound, rounded down, allows `W - 2 * hg` up to `d + 1` when `W - d` is odd.
   */
  lemma FairBoundsMeaning(n: int, d: int, hg: int)
    ensures hg <= MaxHome(n, d) <==> 2 * hg - (n - 1) <= d
    ensures hg >= MinHome(n, d) <==> (n - 1) - 2 * hg <= d + (n - 1 - d) % 2
  {
  }

  /** Declarations, step by step. */
  lemma DeclPeriodMeaning(n: int, hasH: bool, i: nat, j: nat, p: nat, v: Var)
    ensures DeclareBool(v) in DeclPeriod(n, hasH, i, j, p) <==>
      v.i == i && v.j == j && v.p == p && v.w < n - 1 && (v.M? || hasH)
  {
    LoopMember(0, n - 1, DeclWeeks(hasH, i, j, p), DeclareBool(v));
    if v.i == i && v.j == j && v.p == p && v.w < n - 1 && (v.M? || hasH) {
      assert DeclareBool(v) in DeclWeeks(hasH, i, j, p)(v.w);
    }
  }

  lemma DeclPairMeaning(n: int, hasH: bool, i: nat, j: nat, v: Var)
    ensures DeclareBool(v) in DeclPair(n, hasH, i, j) <==>
      i < j && v.i == i && v.j == j && v.p < n / 2 && v.w < n - 1 && (v.M? || hasH)
  {
    var c := DeclareBool(v);
    if i < j {
      LoopMember(0, n / 2, DeclPeriods(n, hasH, i, j), c);
      if c in DeclPair(n, hasH, i, j) {
        var p: nat :| 0 <= p < n / 2 && c in DeclPeriods(n, hasH, i, j)(p);
        DeclPeriodMeaning(n, hasH, i, j, p, v);
      }
      if v.i == i && v.j == j && v.p < n / 2 && v.w < n - 1 && (v.M? || hasH) {
        DeclPeriodMeaning(n, hasH, i, j, v.p, v);
        assert c in DeclPeriods(n, hasH, i, j)(v.p);
      }
    }
  }

  lemma DeclRowMeaning(n: int, hasH: bool, i: nat, v: Var)
    ensures DeclareBool(v) in DeclRow(n, hasH, i) <==>
      v.i == i && i < v.j <= n && v.p < n / 2 && v.w < n - 1 && (v.M? || hasH)
  {
    var c := DeclareBool(v);
    LoopMember(1, n + 1, DeclPairs(n, hasH, i), c);
    if c in DeclRow(n, hasH, i) {
      var j: nat :| 1 <= j < n + 1 && c in DeclPairs(n, hasH, i)(j);
      DeclPairMeaning(n, hasH, i, j, v);
    }
    if v.i == i && i < v.j <= n && v.p < n / 2 && v.w < n - 1 && (v.M? || hasH) {
      DeclPairMeaning(n, hasH, i, v.j, v);
      assert c in DeclPairs(n, hasH, i)(v.j);
    }
  }

  /** One `M` per pair, period and week is declared, and an `H` exactly when `hasH`. */
  lemma DeclarationsMeaning(n: int, hasH: bool, v: Var)
    ensures DeclareBool(v) in Declarations(n, hasH) <==> InRange(n, v) && (v.M? || hasH)
  {
    var c := DeclareBool(v);
    LoopMember(1, n + 1, DeclRows(n, hasH), c);
    if c in Declarations(n, hasH) {
      var i: nat :| 1 <= i < n + 1 && c in DeclRows(n, hasH)(i);
      DeclRowMeaning(n, hasH, i, v);
    }
    if InRange(n, v) && (v.M? || hasH) {
      DeclRowMeaning(n, hasH, v.i, v);
      assert c in DeclRows(n, hasH)(v.i);
    }
  }

  /** Constraint 1: slot `(p, w)` sums the match variables of every pair in that slot. */
  lemma SlotRowMeaning(n: int, p: nat, w: nat, i: nat, v: Var)
    ensures v in Loop(1, n + 1, SlotPairVar(p, w, i)) <==>
      v.M? && v.i == i && i < v.j <= n && v.p == p && v.w == w
  {
    LoopMember(1, n + 1, SlotPairVar(p, w, i), v);
    if v.M? && v.i == i && i < v.j <= n && v.p == p && v.w == w {
      assert v in SlotPairVar(p, w, i)(v.j);
    }
  }

  lemma SlotVarsMeaning(n: int, p: nat, w: nat, v: Var)
    ensures v in SlotVars(n, p, w) <==> v.M? && 1 <= v.i < v.j <= n && v.p == p && v.w == w
  {
    LoopMember(1, n + 1, SlotRowVars(n, p, w), v);
    if v in SlotVars(n, p, w) {
      var i: nat :| 1 <= i < n + 1 && v in SlotRowVars(n, p, w)(i);
      SlotRowMeaning(n, p, w, i, v);
    }
    if v.M? && 1 <= v.i < v.j <= n && v.p == p && v.w == w {
      SlotRowMeaning(n, p, w, v.i, v);
      assert v in SlotRowVars(n, p, w)(v.i);
    }
  }

  lemma SlotConstraintsHas(n: int, p: nat, w: nat, c: Command)
    requires p < n / 2 && w < n - 1 && c in ExactlyOne(SlotVars(n, p, w))
    ensures c in SlotConstraints(n)
  {
    LoopHas(0, n - 1, SlotWeeks(n, p), w, c);
    LoopHas(0, n / 2, SlotPeriods(n), p, c);
  }

  lemma SlotConstraintsOnly(n: int, c: Command)
    requires c in SlotConstraints(n)
    ensures exists p: nat, w: nat :: p < n / 2 && w < n - 1 && c in ExactlyOne(SlotVars(n, p, w))
  {
    LoopMember(0, n / 2, SlotPeriods(n), c);
    var p: nat :| 0 <= p < n / 2 && c in SlotPeriods(n)(p);
    LoopMember(0, n - 1, SlotWeeks(n, p), c);
    var w: nat :| 0 <= w < n - 1 && c in SlotWeeks(n, p)(w);
    assert c in ExactlyOne(SlotVars(n, p, w));
  }

  /** Constraint 1 is one exactly-one pair for every slot in range, and nothing else. */
  lemma SlotConstraintsMeaning(n: int, c: Command)
    ensures c in SlotConstraints(n) <==>
      exists p: nat, w: nat :: p < n / 2 && w < n - 1 && c in ExactlyOne(SlotVars(n, p, w))
  {
    if c in SlotConstraints(n) {
      SlotConstraintsOnly(n, c);
    }
    if exists p: nat, w: nat :: p < n / 2 && w < n - 1 && c in ExactlyOne(SlotVars(n, p, w)) {
      var p: nat, w: nat :| p < n / 2 && w < n - 1 && c in ExactlyOne(SlotVars(n, p, w));
      SlotConstraintsHas(n, p, w, c);
    }
  }

  /** Constraint 2: pair `(i, j)` sums its match variables over every period and week. */
  lemma PairVarsMeaning(n: int, i: nat, j: nat, v: Var)
    ensures v in PairVars(n, i, j) <==> v.M? && v.i == i && v.j == j && v.p < n / 2 && v.w < n - 1
  {
    if v in PairVars(n, i, j) {
      LoopMember(0, n / 2, PairPeriodVars(n, i, j), v);
      var p: nat :| 0 <= p < n / 2 && v in PairPeriodVars(n, i, j)(p);
      LoopMember(0, n - 1, PairWeekVar(i, j, p), v);
      var w: nat :| 0 <= w < n - 1 && v in PairWeekVar(i, j, p)(w);
      assert v == M(i, j, p, w);
    }
    if v.M? && v.i == i && v.j == j && v.p < n / 2 && v.w < n - 1 {
      assert v in PairWeekVar(i, j, v.p)(v.w);
      LoopHas(0, n - 1, PairWeekVar(i, j, v.p), v.w, v);
      LoopHas(0, n / 2, PairPeriodVars(n, i, j), v.p, v);
    }
  }

  lemma PairConstraintsHas(n: int, i: nat, j: nat, c: Command)
    requires 1 <= i < j <= n && c in ExactlyOne(PairVars(n, i, j))
    ensures c in PairConstraints(n)
  {
    assert c in PairCols(n, i)(j);
    LoopHas(1, n + 1, PairCols(n, i), j, c);
    LoopHas(1, n + 1, PairRows(n), i, c);
  }

  lemma PairConstraintsOnly(n: int, c: Command)
    requires c in PairConstraints(n)
    ensures exists i: nat, j: nat :: 1 <= i < j <= n && c in ExactlyOne(PairVars(n, i, j))
  {
    LoopMember(1, n + 1, PairRows(n), c);
    var i: nat :| 1 <= i < n + 1 && c in PairRows(n)(i);
    LoopMember(1, n + 1, PairCols(n, i), c);
    var j: nat :| 1 <= j < n + 1 && c in PairCols(n, i)(j);
    assert i < j && c in ExactlyOne(PairVars(n, i, j));
  }

  /** Constraint 2 is one exactly-one pair for every pair `i < j` of teams, and nothing else. */
  lemma PairConstraintsMeaning(n: int, c: Command)
    ensures c in PairConstraints(n) <==>
      exists i: nat, j: nat :: 1 <= i < j <= n && c in ExactlyOne(PairVars(n, i, j))
  {
    if c in PairConstraints(n) {
      PairConstraintsOnly(n, c);
    }
    if exists i: nat, j: nat :: 1 <= i < j <= n && c in ExactlyOne(PairVars(n, i, j)) {
      var i: nat, j: nat :| 1 <= i < j <= n && c in ExactlyOne(PairVars(n, i, j));
      PairConstraintsHas(n, i, j, c);
    }
  }

  /** The opponents loop: the match variable of `t` against every other team, teams in order. */
  lemma OppVarsMeaning(n: int, t: nat, p: nat, w: nat, v: Var)
    requires 1 <= t <= n
    ensures v in OppVars(n, t, p, w) <==>
      v.M? && 1 <= v.i < v.j <= n && (v.i == t || v.j == t) && v.p == p && v.w == w
  {
    LoopMember(1, n + 1, OppVar(t, p, w), v);
    if v.M? && 1 <= v.i < v.j <= n && (v.i == t || v.j == t) && v.p == p && v.w == w {
      var opp := if v.i == t then v.j else v.i;
      assert v in OppVar(t, p, w)(opp);
    }
  }

  /** Constraint 3: team `t`'s sum in week `w` covers its matches in every period. */
  lemma TeamWeekVarsMeaning(n: int, t: nat, w: nat, v: Var)
    requires 1 <= t <= n
    ensures v in TeamWeekVars(n, t, w) <==>
      v.M? && 1 <= v.i < v.j <= n && (v.i == t || v.j == t) && v.p < n / 2 && v.w == w
  {
    LoopMember(0, n / 2, TeamWeekPeriod(n, t, w), v);
    if v in TeamWeekVars(n, t, w) {
      var p: nat :| 0 <= p < n / 2 && v in TeamWeekPeriod(n, t, w)(p);
      OppVarsMeaning(n, t, p, w, v);
    }
    if v.M? && 1 <= v.i < v.j <= n && (v.i == t || v.j == t) && v.p < n / 2 && v.w == w {
      OppVarsMeaning(n, t, v.p, w, v);
      assert v in TeamWeekPeriod(n, t, w)(v.p);
    }
  }

  lemma TeamWeekConstraintsHas(n: int, t: nat, w: nat, c: Command)
    requires 1 <= t <= n && w < n - 1 && c in ExactlyOne(TeamWeekVars(n, t, w))
    ensures c in TeamWeekConstraints(n)
  {
    LoopHas(0, n - 1, TeamWeekCells(n, t), w, c);
    LoopHas(1, n + 1, TeamWeekRows(n), t, c);
  }

  lemma TeamWeekConstraintsOnly(n: int, c: Command)
    requires c in TeamWeekConstraints(n)
    ensures exists t: nat, w: nat :: 1 <= t <= n && w < n - 1 && c in ExactlyOne(TeamWeekVars(n, t, w))
  {
    LoopMember(1, n + 1, TeamWeekRows(n), c);
    var t: nat :| 1 <= t < n + 1 && c in TeamWeekRows(n)(t);
    LoopMember(0, n - 1, TeamWeekCells(n, t), c);
    var w: nat :| 0 <= w < n - 1 && c in TeamWeekCells(n, t)(w);
    assert c in ExactlyOne(TeamWeekVars(n, t, w));
  }

  /** Constraint 3 is one exactly-one pair for every team and week, and nothing else. */
  lemma TeamWeekConstraintsMeaning(n: int, c: Command)
    ensures c in TeamWeekConstraints(n) <==>
      exists t: nat, w: nat :: 1 <= t <= n && w < n - 1 && c in ExactlyOne(TeamWeekVars(n, t, w))
  {
    if c in TeamWeekConstraints(n) {
      TeamWeekConstraintsOnly(n, c);
    }
    if exists t: nat, w: nat :: 1 <= t <= n && w < n - 1 && c in ExactlyOne(TeamWeekVars(n, t, w)) {
      var t: nat, w: nat :| 1 <= t <= n && w < n - 1 && c in ExactlyOne(TeamWeekVars(n, t, w));
      TeamWeekConstraintsHas(n, t, w, c);
    }
  }

  /** Constraint 4: team `t`'s sum in period `p` covers its matches in every week. */
  lemma TeamPeriodVarsMeaning(n: int, t: nat, p: nat, v: Var)
    requires 1 <= t <= n
    ensures v in TeamPeriodVars(n, t, p) <==>
      v.M? && 1 <= v.i < v.j <= n && (v.i == t || v.j == t) && v.p == p && v.w < n - 1
  {
    LoopMember(0, n - 1, TeamPeriodWeek(n, t, p), v);
    if v in TeamPeriodVars(n, t, p) {
      var w: nat :| 0 <= w < n - 1 && v in TeamPeriodWeek(n, t, p)(w);
      OppVarsMeaning(n, t, p, w, v);
    }
    if v.M? && 1 <= v.i < v.j <= n && (v.i == t || v.j == t) && v.p == p && v.w < n - 1 {
      OppVarsMeaning(n, t, p, v.w, v);
      assert v in TeamPeriodWeek(n, t, p)(v.w);
    }
  }

  /**
   * Constraint 4 is one `<= 2` line per team and period: `n * (n / 2)` lines,
   * the one for `(t, p)` at position `(t - 1) * (n / 2) + p`.
   */
  lemma TeamPeriodConstraintsAt(n: int, t: nat, p: nat)
    requires 1 <= t <= n && p < n / 2
    ensures |TeamPeriodConstraints(n)| == n * (n / 2)
    ensures (t - 1) * (n / 2) + p < |TeamPeriodConstraints(n)|
    ensures TeamPeriodConstraints(n)[(t - 1) * (n / 2) + p] == AtMost(Ites(TeamPeriodVars(n, t, p)), 2)
  {
    TeamPeriodRowLengths(n);
    LoopLength(1, n + 1, TeamPeriodRows(n), n / 2);
    LoopAt(1, n + 1, TeamPeriodRows(n), n / 2, t, p);
    TeamPeriodRowAt(n, t, p);
  }

  lemma TeamPeriodRowLengths(n: int)
    ensures forall u: nat :: 1 <= u < n + 1 ==> |TeamPeriodRows(n)(u)| == Upto(0, n / 2)
  {
    forall u: nat | 1 <= u < n + 1
      ensures |TeamPeriodRows(n)(u)| == Upto(0, n / 2)
    {
      LoopLength(0, n / 2, TeamPeriodCells(n, u), 1);
    }
  }

  lemma TeamPeriodRowAt(n: int, t: nat, p: nat)
    requires p < n / 2
    ensures p < |TeamPeriodRow(n, t)| && TeamPeriodRow(n, t)[p] == AtMost(Ites(TeamPeriodVars(n, t, p)), 2)
  {
    LoopAt(0, n / 2, TeamPeriodCells(n, t), 1, p, 0);
  }

  lemma TeamPeriodConstraintsHas(n: int, t: nat, p: nat)
    requires 1 <= t <= n && p < n / 2
    ensures AtMost(Ites(TeamPeriodVars(n, t, p)), 2) in TeamPeriodConstraints(n)
  {
    var c := AtMost(Ites(TeamPeriodVars(n, t, p)), 2);
    assert c in TeamPeriodCells(n, t)(p);
    LoopHas(0, n / 2, TeamPeriodCells(n, t), p, c);
    LoopHas(1, n + 1, TeamPeriodRows(n), t, c);
  }

  lemma TeamPeriodConstraintsOnly(n: int, c: Command)
    requires c in TeamPeriodConstraints(n)
    ensures exists t: nat, p: nat :: 1 <= t <= n && p < n / 2 && c == AtMost(Ites(TeamPeriodVars(n, t, p)), 2)
  {
    LoopMember(1, n + 1, TeamPeriodRows(n), c);
    var t: nat :| 1 <= t < n + 1 && c in TeamPeriodRows(n)(t);
    LoopMember(0, n / 2, TeamPeriodCells(n, t), c);
    var p: nat :| 0 <= p < n / 2 && c in TeamPeriodCells(n, t)(p);
    assert c == AtMost(Ites(TeamPeriodVars(n, t, p)), 2);
  }

  /** An assignment satisfies constraint 1 exactly when every slot holds exactly one match. */
  lemma SlotsSatisfied(a: Var -> bool, n: int)
    ensures Satisfies(a, SlotConstraints(n)) <==>
      forall p: nat, w: nat :: p < n / 2 && w < n - 1 ==> CountTrue(a, SlotVars(n, p, w)) == 1
  {
    if Satisfies(a, SlotConstraints(n)) {
      forall p: nat, w: nat | p < n / 2 && w < n - 1
        ensures CountTrue(a, SlotVars(n, p, w)) == 1
      {
        forall c | c in ExactlyOne(SlotVars(n, p, w))
          ensures Holds(a, c)
        {
          SlotConstraintsHas(n, p, w, c);
        }
        ExactlyOneMeaning(a, SlotVars(n, p, w));
      }
    }
    if forall p: nat, w: nat :: p < n / 2 && w < n - 1 ==> CountTrue(a, SlotVars(n, p, w)) == 1 {
      forall c | c in SlotConstraints(n)
        ensures Holds(a, c)
      {
        SlotConstraintsOnly(n, c);
        var p: nat, w: nat :| p < n / 2 && w < n - 1 && c in ExactlyOne(SlotVars(n, p, w));
        ExactlyOneMeaning(a, SlotVars(n, p, w));
      }
    }
  }

  /** An assignment satisfies constraint 2 exactly when every pair of teams meets exactly once. */
  lemma PairsSatisfied(a: Var -> bool, n: int)
    ensures Satisfies(a, PairConstraints(n)) <==>
      forall i: nat, j: nat :: 1 <= i < j <= n ==> CountTrue(a, PairVars(n, i, j)) == 1
  {
    if Satisfies(a, PairConstraints(n)) {
      forall i: nat, j: nat | 1 <= i < j <= n
        ensures CountTrue(a, PairVars(n, i, j)) == 1
      {
        forall c | c in ExactlyOne(PairVars(n, i, j))
          ensures Holds(a, c)
        {
          PairConstraintsHas(n, i, j, c);
        }
        ExactlyOneMeaning(a, PairVars(n, i, j));
      }
    }
    if forall i: nat, j: nat :: 1 <= i < j <= n ==> CountTrue(a, PairVars(n, i, j)) == 1 {
      forall c | c in PairConstraints(n)
        ensures Holds(a, c)
      {
        PairConstraintsOnly(n, c);
        var i: nat, j: nat :| 1 <= i < j <= n && c in ExactlyOne(PairVars(n, i, j));
        ExactlyOneMeaning(a, PairVars(n, i, j));
      }
    }
  }

  /** An assignment satisfies constraint 3 exactly when every team plays exactly once a week. */
  lemma TeamWeeksSatisfied(a: Var -> bool, n: int)
    ensures Satisfies(a, TeamWeekConstraints(n)) <==>
      forall t: nat, w: nat :: 1 <= t <= n && w < n - 1 ==> CountTrue(a, TeamWeekVars(n, t, w)) == 1
  {
    if Satisfies(a, TeamWeekConstraints(n)) {
      forall t: nat, w: nat | 1 <= t <= n && w < n - 1
        ensures CountTrue(a, TeamWeekVars(n, t, w)) == 1
      {
        forall c | c in ExactlyOne(TeamWeekVars(n, t, w))
          ensures Holds(a, c)
        {
          TeamWeekConstraintsHas(n, t, w, c);
        }
        ExactlyOneMeaning(a, TeamWeekVars(n, t, w));
      }
    }
    if forall t: nat, w: nat :: 1 <= t <= n && w < n - 1 ==> CountTrue(a, TeamWeekVars(n, t, w)) == 1 {
      forall c | c in TeamWeekConstraints(n)
        ensures Holds(a, c)
      {
        TeamWeekConstraintsOnly(n, c);
        var t: nat, w: nat :| 1 <= t <= n && w < n - 1 && c in ExactlyOne(TeamWeekVars(n, t, w));
        ExactlyOneMeaning(a, TeamWeekVars(n, t, w));
      }
    }
  }

  /** An assignment satisfies constraint 4 exactly when no team plays more than twice in one period. */
  lemma TeamPeriodsSatisfied(a: Var -> bool, n: int)
    ensures Satisfies(a, TeamPeriodConstraints(n)) <==>
      forall t: nat, p: nat :: 1 <= t <= n && p < n / 2 ==> CountTrue(a, TeamPeriodVars(n, t, p)) <= 2
  {
    if Satisfies(a, TeamPeriodConstraints(n)) {
      forall t: nat, p: nat | 1 <= t <= n && p < n / 2
        ensures CountTrue(a, TeamPeriodVars(n, t, p)) <= 2
      {
        TeamPeriodConstraintsHas(n, t, p);
        assert Holds(a, AtMost(Ites(TeamPeriodVars(n, t, p)), 2));
        SumOfItes(a, TeamPeriodVars(n, t, p));
      }
    }
    if forall t: nat, p: nat :: 1 <= t <= n && p < n / 2 ==> CountTrue(a, TeamPeriodVars(n, t, p)) <= 2 {
      forall c | c in TeamPeriodConstraints(n)
        ensures Holds(a, c)
      {
        TeamPeriodConstraintsOnly(n, c);
        var t: nat, p: nat :| 1 <= t <= n && p < n / 2 && c == AtMost(Ites(TeamPeriodVars(n, t, p)), 2);
        SumOfItes(a, TeamPeriodVars(n, t, p));
      }
    }
  }

  /** SB1 fixes match `(2p + 1, 2p + 2)` into period `p` of week 0, for each such pair of teams. */
  lemma Sb1Meaning(n: int, v: Var)
    ensures AssertVar(v) in Sb1(n) <==> v.M? && v.w == 0 && v.i == 2 * v.p + 1 && v.j == 2 * v.p + 2 && v.j <= n
  {
    LoopMember(0, n / 2, Sb1Cells(n), AssertVar(v));
    if v.M? && v.w == 0 && v.i == 2 * v.p + 1 && v.j == 2 * v.p + 2 && v.j <= n {
      assert AssertVar(v) in Sb1Cells(n)(v.p);
    }
  }

  /** SB2's `or` for week `w` lists team 1 against team `w + 2` in every period; the `else` branch never runs. */
  lemma Sb2VarsMeaning(n: int, w: nat, v: Var)
    ensures v in Sb2Vars(n, w) <==> v.M? && v.i == 1 && v.j == w + 2 && v.p < n / 2 && v.w == w
  {
    LoopMember(0, n / 2, Sb2Periods(w + 2, w), v);
    if v.M? && v.i == 1 && v.j == w + 2 && v.p < n / 2 && v.w == w {
      assert v in Sb2Periods(w + 2, w)(v.p);
    }
  }

  /** SB2 has one `or` for every week `w` whose opponent `w + 2` exists. */
  lemma Sb2Meaning(n: int, vs: seq<Var>)
    ensures AssertOr(vs) in Sb2(n) <==> exists w: nat :: w + 2 <= n && vs == Sb2Vars(n, w)
  {
    LoopMember(0, n - 1, Sb2Cells(n), AssertOr(vs));
    if exists w: nat :: w + 2 <= n && vs == Sb2Vars(n, w) {
      var w: nat :| w + 2 <= n && vs == Sb2Vars(n, w);
      assert AssertOr(vs) in Sb2Cells(n)(w);
    }
  }

  /**
   * With symmetry breaking on, the block holds SB1's units and SB2's
   * disjunctions and nothing else; with it off, the block is empty.
   */
  lemma SymmetryMeaning(n: int, on: bool, c: Command)
    ensures c in Symmetry(n, on) <==> on && (c in Sb1(n) || c in Sb2(n))
    ensures c in Symmetry(n, on) ==> c.AssertVar? || c.AssertOr?
  {
    if on && c in Sb1(n) {
      LoopMember(0, n / 2, Sb1Cells(n), c);
    }
    if on && c in Sb2(n) {
      LoopMember(0, n - 1, Sb2Cells(n), c);
    }
  }

  /**
   * The fairness block: with a bound `d`, the home-game sum of every team lies
   * in `[MinHome, MaxHome]`; without one, the block is empty.
   */
  lemma FairnessMeaning(n: int, maxDiff: Option<int>, c: Command)
    ensures c in Fairness(n, maxDiff) <==>
      (maxDiff.Some? &&
       exists t: nat :: 1 <= t <= n &&
         (c == AtLeast(HomeTerms(n, t), MinHome(n, maxDiff.value))
          || c == AtMost(HomeTerms(n, t), MaxHome(n, maxDiff.value))))
  {
    if maxDiff.None? {
      return;
    }
    var d := maxDiff.value;
    if c in Fairness(n, Some(d)) {
      LoopMember(1, n + 1, FairCells(n, d), c);
      var t: nat :| 1 <= t < n + 1 && c in FairCells(n, d)(t);
      assert c == AtLeast(HomeTerms(n, t), MinHome(n, d)) || c == AtMost(HomeTerms(n, t), MaxHome(n, d));
    }
    if exists t: nat :: 1 <= t <= n &&
        (c == AtLeast(HomeTerms(n, t), MinHome(n, d)) || c == AtMost(HomeTerms(n, t), MaxHome(n, d)))
    {
      var t: nat :| 1 <= t <= n &&
        (c == AtLeast(HomeTerms(n, t), MinHome(n, d)) || c == AtMost(HomeTerms(n, t), MaxHome(n, d)));
      assert c in FairCells(n, d)(t);
      LoopHas(1, n + 1, FairCells(n, d), t, c);
    }
  }

  /**
   * A summand of team `t`'s home-game count: for a match of `t` in range, 1
   * when that match is played and `t` is at home in it.
   */
  predicate IsHomeTermOf(n: int, t: nat, x: Term) {
    x.HomeIte? && x.m.M? && InRange(n, x.m) && (x.m.i == t || x.m.j == t)
      && x.h == H(x.m.i, x.m.j, x.m.p, x.m.w) && x.positive == (x.m.i == t)
  }

  lemma HomeVsOppOnly(n: int, t: nat, opp: nat, x: Term)
    requires x in HomeVsOpp(n, t, opp)
    ensures opp != t && exists p: nat, w: nat :: p < n / 2 && w < n - 1 && x == HomeTerm(t, opp, p, w)
  {
    LoopMember(0, n / 2, HomePeriods(n, t, opp), x);
    var p: nat :| 0 <= p < n / 2 && x in HomePeriods(n, t, opp)(p);
    LoopMember(0, n - 1, HomeWeeks(t, opp, p), x);
    var w: nat :| 0 <= w < n - 1 && x in HomeWeeks(t, opp, p)(w);
    assert x == HomeTerm(t, opp, p, w);
  }

  lemma HomeVsOppHas(n: int, t: nat, opp: nat, p: nat, w: nat)
    requires opp != t && p < n / 2 && w < n - 1
    ensures HomeTerm(t, opp, p, w) in HomeVsOpp(n, t, opp)
  {
    var x := HomeTerm(t, opp, p, w);
    assert x in HomeWeeks(t, opp, p)(w);
    LoopHas(0, n - 1, HomeWeeks(t, opp, p), w, x);
    LoopHas(0, n / 2, HomePeriods(n, t, opp), p, x);
  }

  lemma HomeTermsOnly(n: int, t: nat, x: Term)
    requires 1 <= t <= n && x in HomeTerms(n, t)
    ensures IsHomeTermOf(n, t, x)
  {
    LoopMember(1, n + 1, HomeOpps(n, t), x);
    var opp: nat :| 1 <= opp < n + 1 && x in HomeOpps(n, t)(opp);
    HomeVsOppOnly(n, t, opp, x);
  }

  lemma HomeTermsHas(n: int, t: nat, x: Term)
    requires 1 <= t <= n && IsHomeTermOf(n, t, x)
    ensures x in HomeTerms(n, t)
  {
    var opp: nat := if x.m.i == t then x.m.j else x.m.i;
    assert x == HomeTerm(t, opp, x.m.p, x.m.w);
    HomeVsOppHas(n, t, opp, x.m.p, x.m.w);
    assert x in HomeOpps(n, t)(opp);
    LoopHas(1, n + 1, HomeOpps(n, t), opp, x);
  }

  /** Team `t`'s home-game sum has one summand for each of its possible matches, oriented towards `t`. */
  lemma HomeTermsMeaning(n: int, t: nat, x: Term)
    requires 1 <= t <= n
    ensures x in HomeTerms(n, t) <==> IsHomeTermOf(n, t, x)
  {
    if x in HomeTerms(n, t) {
      HomeTermsOnly(n, t, x);
    }
    if IsHomeTermOf(n, t, x) {
      HomeTermsHas(n, t, x);
    }
  }

  /** The first two and the last two lines of the file. */
  lemma ScriptEnds(n: int, useSymmetry: bool, maxDiff: Option<int>)
    ensures var s := Script(n, useSymmetry, maxDiff);
      |s| >= 4 && s[0] == SetLogic && s[1] == ProduceModels && s[|s| - 2] == CheckSat && s[|s| - 1] == GetModel
  {
  }

  /**
   * The file opens with `(set-logic QF_LIA)` and `(set-option :produce-models true)`
   * and closes with `(check-sat)` and `(get-model)`.
   */
  lemma ScriptFrame(n: int, useSymmetry: bool, maxDiff: Option<int>)
    ensures var s := Script(n, useSymmetry, maxDiff);
      FileText(s) == Line(SetLogic) + Line(ProduceModels) + FileText(s[2..|s| - 2]) + Line(CheckSat) + Line(GetModel)
  {
    ScriptEnds(n, useSymmetry, maxDiff);
    UnlinesFramed(Script(n, useSymmetry, maxDiff), Line);
  }

  // ---------------------------------------------------------------------------
  // The writer
  // ---------------------------------------------------------------------------

  /** `write_smtlib_file(n, label, use_symmetry, max_diff)`, returning the lines it writes. */
  method WriteSmtlibFile(n: int, useSymmetry: bool, maxDiff: Option<int>) returns (script: seq<Command>)
    ensures script == Script(n, useSymmetry, maxDiff)
  {
    script := [SetLogic, ProduceModels];
    script := EmitDeclarations(n, maxDiff.Some?, script);
    script := EmitSlots(n, script);
    script := EmitPairs(n, script);
    script := EmitTeamWeeks(n, script);
    script := EmitTeamPeriods(n, script);
    script := EmitSymmetry(n, useSymmetry, script);
    script := EmitFairness(n, maxDiff, script);
    script := script + [CheckSat, GetModel];
  }

  /** The declarations: the `i` loop. */
  method EmitDeclarations(n: int, hasH: bool, script: seq<Command>) returns (out: seq<Command>)
    ensures out == script + Declarations(n, hasH)
  {
    out := script;
    var i := 1;
    while i < n + 1
      invariant 1 <= i <= Upto(1, n + 1)
      invariant out == script + Loop(1, i, DeclRows(n, hasH))
    {
      out := EmitDeclRow(n, hasH, i, out);
      LoopAppend(script, 1, i, DeclRows(n, hasH));
      i := i + 1;
    }
    LoopDone(1, i, n + 1, DeclRows(n, hasH));
  }

  /** The `j` loop of the declarations. */
  method EmitDeclRow(n: int, hasH: bool, i: nat, script: seq<Command>) returns (out: seq<Command>)
    ensures out == script + DeclRow(n, hasH, i)
  {
    out := script;
    var j := 1;
    while j < n + 1
      invariant 1 <= j <= Upto(1, n + 1)
      invariant out == script + Loop(1, j, DeclPairs(n, hasH, i))
    {
      ghost var before := out;
      if i < j {
        out := EmitPairDecls(n, hasH, i, j, out);
      }
      assert out == before + DeclPairs(n, hasH, i)(j);
      LoopAppend(script, 1, j, DeclPairs(n, hasH, i));
      j := j + 1;
    }
    LoopDone(1, j, n + 1, DeclPairs(n, hasH, i));
  }

  /** The `p` loop of the declarations. */
  method EmitPairDecls(n: int, hasH: bool, i: nat, j: nat, script: seq<Command>) returns (out: seq<Command>)
    requires i < j
    ensures out == script + DeclPair(n, hasH, i, j)
  {
    out := script;
    var p := 0;
    while p < n / 2
      invariant 0 <= p <= Upto(0, n / 2)
      invariant out == script + Loop(0, p, DeclPeriods(n, hasH, i, j))
    {
      out := EmitDeclPeriod(n, hasH, i, j, p, out);
      LoopAppend(script, 0, p, DeclPeriods(n, hasH, i, j));
      p := p + 1;
    }
    LoopDone(0, p, n / 2, DeclPeriods(n, hasH, i, j));
  }

  /** The `w` loop of the declarations: `M`, then `H` when there is a fairness bound. */
  method EmitDeclPeriod(n: int, hasH: bool, i: nat, j: nat, p: nat, script: seq<Command>) returns (out: seq<Command>)
    ensures out == script + DeclPeriod(n, hasH, i, j, p)
  {
    out := script;
    var w := 0;
    while w < n - 1
      invariant 0 <= w <= Upto(0, n - 1)
      invariant out == script + Loop(0, w, DeclWeeks(hasH, i, j, p))
    {
      ghost var before := out;
      out := out + [DeclareBool(M(i, j, p, w))];
      if hasH {
        out := out + [DeclareBool(H(i, j, p, w))];
      }
      assert out == before + DeclWeeks(hasH, i, j, p)(w);
      LoopAppend(script, 0, w, DeclWeeks(hasH, i, j, p));
      w := w + 1;
    }
    LoopDone(0, w, n - 1, DeclWeeks(hasH, i, j, p));
  }

  /** Constraint 1: the `p` loop. */
  method EmitSlots(n: int, script: seq<Command>) returns (out: seq<Command>)
    ensures out == script + SlotConstraints(n)
  {
    out := script;
    var p := 0;
    while p < n / 2
      invariant 0 <= p <= Upto(0, n / 2)
      invariant out == script + Loop(0, p, SlotPeriods(n))
    {
      out := EmitSlotPeriod(n, p, out);
      LoopAppend(script, 0, p, SlotPeriods(n));
      p := p + 1;
    }
    LoopDone(0, p, n / 2, SlotPeriods(n));
  }

  /** Constraint 1: the `w` loop, one `>= 1` and one `<= 1` line per slot. */
  method EmitSlotPeriod(n: int, p: nat, script: seq<Command>) returns (out: seq<Command>)
    ensures out == script + SlotPeriod(n, p)
  {
    out := script;
    var w := 0;
    while w < n - 1
      invariant 0 <= w <= Upto(0, n - 1)
      invariant out == script + Loop(0, w, SlotWeeks(n, p))
    {
      ghost var before := out;
      var lits := SlotVars(n, p, w);
      out := out + [AtLeast(Ites(lits), 1)];
      out := out + [AtMost(Ites(lits), 1)];
      assert out == before + SlotWeeks(n, p)(w);
      LoopAppend(script, 0, w, SlotWeeks(n, p));
      w := w + 1;
    }
    LoopDone(0, w, n - 1, SlotWeeks(n, p));
  }

  /** Constraint 2: the `i` loop. */
  method EmitPairs(n: int, script: seq<Command>) returns (out: seq<Command>)
    ensures out == script + PairConstraints(n)
  {
    out := script;
    var i := 1;
    while i < n + 1
      invariant 1 <= i <= Upto(1, n + 1)
      invariant out == script + Loop(1, i, PairRows(n))
    {
      out := EmitPairRow(n, i, out);
      LoopAppend(script, 1, i, PairRows(n));
      i := i + 1;
    }
    LoopDone(1, i, n + 1, PairRows(n));
  }

  /** Constraint 2: the `j` loop, one `>= 1` and one `<= 1` line per pair `i < j`. */
  method EmitPairRow(n: int, i: nat, script: seq<Command>) returns (out: seq<Command>)
    ensures out == script + PairRow(n, i)
  {
    out := script;
    var j := 1;
    while j < n + 1
      invariant 1 <= j <= Upto(1, n + 1)
      invariant out == script + Loop(1, j, PairCols(n, i))
    {
      ghost var before := out;
      if i < j {
        var lits := PairVars(n, i, j);
        out := out + [AtLeast(Ites(lits), 1)];
        out := out + [AtMost(Ites(lits), 1)];
      }
      assert out == before + PairCols(n, i)(j);
      LoopAppend(script, 1, j, PairCols(n, i));
      j := j + 1;
    }
    LoopDone(1, j, n + 1, PairCols(n, i));
  }

  /** The opponents loop of constraints 3 and 4: `lits` gains `t`'s match variable against each other team. */
  method AppendOppVars(n: int, t: nat, p: nat, w: nat, lits: seq<Var>) returns (out: seq<Var>)
    ensures out == lits + OppVars(n, t, p, w)
  {
    out := lits;
    var opp := 1;
    while opp < n + 1
      invariant 1 <= opp <= Upto(1, n + 1)
      invariant out == lits + Loop(1, opp, OppVar(t, p, w))
    {
      ghost var before := out;
      if opp != t {
        var i, j := if t < opp then t else opp, if t < opp then opp else t;
        out := out + [M(i, j, p, w)];
      }
      assert out == before + OppVar(t, p, w)(opp);
      LoopAppend(lits, 1, opp, OppVar(t, p, w));
      opp := opp + 1;
    }
    LoopDone(1, opp, n + 1, OppVar(t, p, w));
  }

  /** The `lits` of constraint 3 for team `t` and week `w`. */
  method TeamWeekLits(n: int, t: nat, w: nat) returns (lits: seq<Var>)
    ensures lits == TeamWeekVars(n, t, w)
  {
    lits := [];
    var p := 0;
    while p < n / 2
      invariant 0 <= p <= Upto(0, n / 2)
      invariant lits == [] + Loop(0, p, TeamWeekPeriod(n, t, w))
    {
      lits := AppendOppVars(n, t, p, w, lits);
      LoopAppend([], 0, p, TeamWeekPeriod(n, t, w));
      p := p + 1;
    }
    LoopDone(0, p, n / 2, TeamWeekPeriod(n, t, w));
  }

  /** The `lits` of constraint 4 for team `t` and period `p`. */
  method TeamPeriodLits(n: int, t: nat, p: nat) returns (lits: seq<Var>)
    ensures lits == TeamPeriodVars(n, t, p)
  {
    lits := [];
    var w := 0;
    while w < n - 1
      invariant 0 <= w <= Upto(0, n - 1)
      invariant lits == [] + Loop(0, w, TeamPeriodWeek(n, t, p))
    {
      lits := AppendOppVars(n, t, p, w, lits);
      LoopAppend([], 0, w, TeamPeriodWeek(n, t, p));
      w := w + 1;
    }
    LoopDone(0, w, n - 1, TeamPeriodWeek(n, t, p));
  }

  /** Constraint 3: the `t` loop. */
  method EmitTeamWeeks(n: int, script: seq<Command>) returns (out: seq<Command>)
    ensures out == script + TeamWeekConstraints(n)
  {
    out := script;
    var t := 1;
    while t < n + 1
      invariant 1 <= t <= Upto(1, n + 1)
      invariant out == script + Loop(1, t, TeamWeekRows(n))
    {
      out := EmitTeamWeekRow(n, t, out);
      LoopAppend(script, 1, t, TeamWeekRows(n));
      t := t + 1;
    }
    LoopDone(1, t, n + 1, TeamWeekRows(n));
  }

  /** Constraint 3: the `w` loop, one `>= 1` and one `<= 1` line per week. */
  method EmitTeamWeekRow(n: int, t: nat, script: seq<Command>) returns (out: seq<Command>)
    ensures out == script + TeamWeekRow(n, t)
  {
    out := script;
    var w := 0;
    while w < n - 1
      invariant 0 <= w <= Upto(0, n - 1)
      invariant out == script + Loop(0, w, TeamWeekCells(n, t))
    {
      ghost var before := out;
      var lits := TeamWeekLits(n, t, w);
      out := out + [AtLeast(Ites(lits), 1)];
      out := out + [AtMost(Ites(lits), 1)];
      assert out == before + TeamWeekCells(n, t)(w);
      LoopAppend(script, 0, w, TeamWeekCells(n, t));
      w := w + 1;
    }
    LoopDone(0, w, n - 1, TeamWeekCells(n, t));
  }

  /** Constraint 4: the `t` loop. */
  method EmitTeamPeriods(n: int, script: seq<Command>) returns (out: seq<Command>)
    ensures out == script + TeamPeriodConstraints(n)
  {
    out := script;
    var t := 1;
    while t < n + 1
      invariant 1 <= t <= Upto(1, n + 1)
      invariant out == script + Loop(1, t, TeamPeriodRows(n))
    {
      out := EmitTeamPeriodRow(n, t, out);
      LoopAppend(script, 1, t, TeamPeriodRows(n));
      t := t + 1;
    }
    LoopDone(1, t, n + 1, TeamPeriodRows(n));
  }

  /** Constraint 4: the `p` loop, one `<= 2` line per period. */
  method EmitTeamPeriodRow(n: int, t: nat, script: seq<Command>) returns (out: seq<Command>)
    ensures out == script + TeamPeriodRow(n, t)
  {
    out := script;
    var p := 0;
    while p < n / 2
      invariant 0 <= p <= Upto(0, n / 2)
      invariant out == script + Loop(0, p, TeamPeriodCells(n, t))
    {
      ghost var before := out;
      var lits := TeamPeriodLits(n, t, p);
      out := out + [AtMost(Ites(lits), 2)];
      assert out == before + TeamPeriodCells(n, t)(p);
      LoopAppend(script, 0, p, TeamPeriodCells(n, t));
      p := p + 1;
    }
    LoopDone(0, p, n / 2, TeamPeriodCells(n, t));
  }

  /** The `if use_symmetry:` block. */
  method EmitSymmetry(n: int, useSymmetry: bool, script: seq<Command>) returns (out: seq<Command>)
    ensures out == script + Symmetry(n, useSymmetry)
  {
    out := script;
    if useSymmetry {
      out := EmitSb1(n, out);
      out := EmitSb2(n, out);
      assert out == script + (Sb1(n) + Sb2(n));
    } else {
      assert out == script + [];
    }
  }

  /** SB1: the `p` loop. */
  method EmitSb1(n: int, script: seq<Command>) returns (out: seq<Command>)
    ensures out == script + Sb1(n)
  {
    out := script;
    var p := 0;
    while p < n / 2
      invariant 0 <= p <= Upto(0, n / 2)
      invariant out == script + Loop(0, p, Sb1Cells(n))
    {
      ghost var before := out;
      var i, j := 2 * p + 1, 2 * p + 2;
      if j <= n {
        out := out + [AssertVar(M(i, j, p, 0))];
      }
      assert out == before + Sb1Cells(n)(p);
      LoopAppend(script, 0, p, Sb1Cells(n));
      p := p + 1;
    }
    LoopDone(0, p, n / 2, Sb1Cells(n));
  }

  /** SB2: the `w` loop. */
  method EmitSb2(n: int, script: seq<Command>) returns (out: seq<Command>)
    ensures out == script + Sb2(n)
  {
    out := script;
    var w := 0;
    while w < n - 1
      invariant 0 <= w <= Upto(0, n - 1)
      invariant out == script + Loop(0, w, Sb2Cells(n))
    {
      ghost var before := out;
      var opp := w + 2;
      if opp <= n {
        var orLits := Sb2Lits(n, opp, w);
        out := out + [AssertOr(orLits)];
      }
      assert out == before + Sb2Cells(n)(w);
      LoopAppend(script, 0, w, Sb2Cells(n));
      w := w + 1;
    }
    LoopDone(0, w, n - 1, Sb2Cells(n));
  }

  /** SB2: the `p` loop that collects `or_lits`. */
  method Sb2Lits(n: int, opp: nat, w: nat) returns (orLits: seq<Var>)
    ensures orLits == Loop(0, n / 2, Sb2Periods(opp, w))
  {
    orLits := [];
    var p := 0;
    while p < n / 2
      invariant 0 <= p <= Upto(0, n / 2)
      invariant orLits == [] + Loop(0, p, Sb2Periods(opp, w))
    {
      var i, j := if 1 < opp then 1 else opp, if 1 < opp then opp else 1;
      orLits := orLits + [M(i, j, p, w)];
      LoopAppend([], 0, p, Sb2Periods(opp, w));
      p := p + 1;
    }
    LoopDone(0, p, n / 2, Sb2Periods(opp, w));
  }

  /** The `if max_diff is not None:` block: the `t` loop. */
  method EmitFairness(n: int, maxDiff: Option<int>, script: seq<Command>) returns (out: seq<Command>)
    ensures out == script + Fairness(n, maxDiff)
  {
    out := script;
    if maxDiff.None? {
      assert out == script + [];
      return;
    }
    var d := maxDiff.value;
    var minHome, maxHome := (n - 1 - d) / 2, (n - 1 + d) / 2;
    var t := 1;
    while t < n + 1
      invariant 1 <= t <= Upto(1, n + 1)
      invariant out == script + Loop(1, t, FairCells(n, d))
    {
      ghost var before := out;
      var terms := HomeTermsOf(n, t);
      out := out + [AtLeast(terms, minHome)];
      out := out + [AtMost(terms, maxHome)];
      assert out == before + FairCells(n, d)(t);
      LoopAppend(script, 1, t, FairCells(n, d));
      t := t + 1;
    }
    LoopDone(1, t, n + 1, FairCells(n, d));
  }

  /** The `terms` of team `t`: the `opp` loop. */
  method HomeTermsOf(n: int, t: nat) returns (terms: seq<Term>)
    ensures terms == HomeTerms(n, t)
  {
    terms := [];
    var opp := 1;
    while opp < n + 1
      invariant 1 <= opp <= Upto(1, n + 1)
      invariant terms == [] + Loop(1, opp, HomeOpps(n, t))
    {
      ghost var before := terms;
      if opp != t {
        terms := AppendHomeTerms(n, t, opp, terms);
      }
      assert terms == before + HomeOpps(n, t)(opp);
      LoopAppend([], 1, opp, HomeOpps(n, t));
      opp := opp + 1;
    }
    LoopDone(1, opp, n + 1, HomeOpps(n, t));
  }

  /** The `p` loop of the fairness block for `t` against `opp`. */
  method AppendHomeTerms(n: int, t: nat, opp: nat, terms: seq<Term>) returns (out: seq<Term>)
    requires opp != t
    ensures out == terms + HomeVsOpp(n, t, opp)
  {
    out := terms;
    var p := 0;
    while p < n / 2
      invariant 0 <= p <= Upto(0, n / 2)
      invariant out == terms + Loop(0, p, HomePeriods(n, t, opp))
    {
      out := AppendHomeWeeks(n, t, opp, p, out);
      LoopAppend(terms, 0, p, HomePeriods(n, t, opp));
      p := p + 1;
    }
    LoopDone(0, p, n / 2, HomePeriods(n, t, opp));
  }

  /** The `w` loop of the fairness block: `t` is home in `(i, j)` when `H` holds and `t == i`, or `H` fails and `t == j`. */
  method AppendHomeWeeks(n: int, t: nat, opp: nat, p: nat, terms: seq<Term>) returns (out: seq<Term>)
    requires opp != t
    ensures out == terms + Loop(0, n - 1, HomeWeeks(t, opp, p))
  {
    var i, j := if t < opp then t else opp, if t < opp then opp else t;
    out := terms;
    var w := 0;
    while w < n - 1
      invariant 0 <= w <= Upto(0, n - 1)
      invariant out == terms + Loop(0, w, HomeWeeks(t, opp, p))
    {
      ghost var before := out;
      var m, h := M(i, j, p, w), H(i, j, p, w);
      if i == t {
        out := out + [HomeIte(m, h, true)];
      } else {
        out := out + [HomeIte(m, h, false)];
      }
      assert out == before + HomeWeeks(t, opp, p)(w);
      LoopAppend(terms, 0, w, HomeWeeks(t, opp, p));
      w := w + 1;
    }
    LoopDone(0, w, n - 1, HomeWeeks(t, opp, p));
  }
}
