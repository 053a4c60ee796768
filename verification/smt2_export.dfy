/**
 * Writing the SMT2 model for external solvers (source/SMT/smt2_export.py):
 * an integer `per_{w}_{m}` per match `m` of week `w` holding the period it is
 * played in, a Boolean `home_{w}_{m}` ("the first team of the pair is at
 * home") when home games are modelled, and the lines of the `.smt2` file that
 * constrain them.
 *
 * The matches are the circle method's (`RoundRobin.Schedule`), and
 * `match_of[w][t]` is the index of team `t`'s match in week `w`. The file is a
 * sequence of commands, one per line; each block is a function built with
 * `Loop` in the shape of the Python loops that write it, and `WriteSmt2File`
 * is the writer, proved to emit `Script(n, o)`. The last part says what the
 * file asks of the periods and home bits (`ScriptMeaning`).
 */
module Smt2Export {
  import opened Wrappers
  import opened Text
  import opened Loops
  import opened Lines
  import opened Counting
  import opened RoundRobin
  import opened RoundRobinProps

  // ---------------------------------------------------------------------------
  // Variable names
  // ---------------------------------------------------------------------------

  /** `per_var(w, m)`: the period of match `m` in week `w`. */
  function PerVar(w: nat, m: nat): string {
    "per_" + (NatToString(w) + ("_" + NatToString(m)))
  }

  /** `home_var(w, m)`: whether the first team of match `m` in week `w` plays at home. */
  function HomeVar(w: nat, m: nat): string {
    "home_" + (NatToString(w) + ("_" + NatToString(m)))
  }

  /** A declared variable. */
  datatype Var = Per(w: nat, m: nat) | Home(w: nat, m: nat)

  function VarName(v: Var): string {
    match v
    case Per(w, m) => PerVar(w, m)
    case Home(w, m) => HomeVar(w, m)
  }

  function VarNames(vs: seq<Var>): seq<string> {
    seq(|vs|, k requires 0 <= k < |vs| => VarName(vs[k]))
  }

  /** `{w}_{m}` and nothing after it. */
  function ReadIndices(s: string): Option<(nat, nat)> {
    match ReadNat(s)
    case None => None
    case Some((w, r1)) =>
      match AfterPrefix(r1, "_")
      case None => None
      case Some(r2) =>
        match ReadNat(r2)
        case None => None
        case Some((m, r3)) => if r3 == [] then Some((w, m)) else None
  }

  /** The variable a name stands for, read back from the text. */
  function ReadVar(s: string): Option<Var> {
    match AfterPrefix(s, "per_")
    case Some(r) =>
      (match ReadIndices(r)
       case Some((w, m)) => Some(Per(w, m))
       case None => None)
    case None =>
      match AfterPrefix(s, "home_")
      case Some(r) =>
        (match ReadIndices(r)
         case Some((w, m)) => Some(Home(w, m))
         case None => None)
      case None => None
  }

  lemma ReadIndicesOf(w: nat, m: nat)
    ensures ReadIndices(NatToString(w) + ("_" + NatToString(m))) == Some((w, m))
  {
    ReadNatOfNatToString(w, "_" + NatToString(m));
    AfterPrefixOf("_", NatToString(m));
    assert NatToString(m) + [] == NatToString(m);
    ReadNatOfNatToString(m, []);
  }

  /** Every name reads back as the variable it was printed from. */
  lemma ReadVarOfName(v: Var)
    ensures ReadVar(VarName(v)) == Some(v)
  {
    var rest := NatToString(v.w) + ("_" + NatToString(v.m));
    ReadIndicesOf(v.w, v.m);
    if v.Per? {
      AfterPrefixOf("per_", rest);
    } else {
      var s := "home_" + rest;
      assert s[0] == 'h';
      assert AfterPrefix(s, "per_") == None;
      AfterPrefixOf("home_", rest);
    }
  }

  /** Distinct variables get distinct names. */
  lemma VarNameInjective(v1: Var, v2: Var)
    requires VarName(v1) == VarName(v2)
    ensures v1 == v2
  {
    ReadVarOfName(v1);
    ReadVarOfName(v2);
  }

  // ---------------------------------------------------------------------------
  // Summands and lines
  // ---------------------------------------------------------------------------

  /**
   * A summand: `(ite (= per_w_m p) 1 0)`, or `(ite home_w_m 1 0)` when
   * `whenHome` and `(ite home_w_m 0 1)` otherwise.
   */
  datatype Term = PerIs(w: nat, m: nat, p: nat) | HomeIs(w: nat, m: nat, whenHome: bool)

  /** One line of the file. */
  datatype Command =
    | SetLogic
    | ProduceModels
    | Declare(v: Var)
    | InDomain(w: nat, m: nat, periods: int)
    | Distinct(w: nat, periods: int)
    | AtMost(sum: seq<Term>, bound: int)
    | AtLeast(sum: seq<Term>, bound: int)
    | OneSingle(sums: seq<seq<Term>>)
    | Total(sums: seq<seq<Term>>, total: int)
    | Pin(w: nat, m: nat, p: int)
    | AssertHome(w: nat, m: nat)
    | FairUpper(sum: seq<Term>, weeks: int, maxDiff: int)
    | FairLower(sum: seq<Term>, weeks: int, maxDiff: int)
    | CheckSat
    | GetValue(vars: seq<Var>)
    | Exit

  function TermText(x: Term): string {
    match x
    case PerIs(w, m, p) => "(ite (= " + PerVar(w, m) + " " + NatToString(p) + ") 1 0)"
    case HomeIs(w, m, whenHome) => "(ite " + HomeVar(w, m) + (if whenHome then " 1 0)" else " 0 1)")
  }

  /** `sum_expr`: `(+ ...)` over the summands. */
  function SumText(ts: seq<Term>): string {
    "(+ " + JoinSpace(seq(|ts|, k requires 0 <= k < |ts| => TermText(ts[k]))) + ")"
  }

  function SumTexts(sums: seq<seq<Term>>): seq<string> {
    seq(|sums|, k requires 0 <= k < |sums| => SumText(sums[k]))
  }

  function IsOneTexts(sums: seq<seq<Term>>): seq<string> {
    seq(|sums|, k requires 0 <= k < |sums| => "(ite (= " + SumText(sums[k]) + " 1) 1 0)")
  }

  /** `per_w_0 ... per_w_{count - 1}`. */
  function PerNames(w: nat, count: int): seq<string> {
    seq(if count < 0 then 0 else count, m requires 0 <= m => PerVar(w, m))
  }

  /** The text of one line, without its newline. */
  function CommandText(c: Command): string {
    match c
    case SetLogic => "(set-logic QF_LIA)"
    case ProduceModels => "(set-option :produce-models true)"
    case Declare(v) => "(declare-fun " + VarName(v) + (if v.Per? then " () Int)" else " () Bool)")
    case InDomain(w, m, k) =>
      "(assert (and (<= 0 " + PerVar(w, m) + ") (< " + PerVar(w, m) + " " + IntToString(k) + ")))"
    case Distinct(w, k) => "(assert (distinct " + JoinSpace(PerNames(w, k)) + "))"
    case AtMost(ts, k) => "(assert (<= " + SumText(ts) + " " + IntToString(k) + "))"
    case AtLeast(ts, k) => "(assert (>= " + SumText(ts) + " " + IntToString(k) + "))"
    case OneSingle(sums) => "(assert (= (+ " + JoinSpace(IsOneTexts(sums)) + ") 1))"
    case Total(sums, k) => "(assert (= (+ " + JoinSpace(SumTexts(sums)) + ") " + IntToString(k) + "))"
    case Pin(w, m, p) => "(assert (= " + PerVar(w, m) + " " + IntToString(p) + "))"
    case AssertHome(w, m) => "(assert " + HomeVar(w, m) + ")"
    case FairUpper(ts, weeks, d) =>
      "(assert (<= (- (* 2 " + SumText(ts) + ") " + IntToString(weeks) + ") " + IntToString(d) + "))"
    case FairLower(ts, weeks, d) =>
      "(assert (<= (- " + IntToString(weeks) + " (* 2 " + SumText(ts) + ")) " + IntToString(d) + "))"
    case CheckSat => "(check-sat)"
    case GetValue(vs) => "(get-value (" + JoinSpace(VarNames(vs)) + "))"
    case Exit => "(exit)"
  }

  /** The text of one line, with its newline. */
  function Line(c: Command): string {
    CommandText(c) + "\n"
  }

  /** The file: every command on a line of its own. */
  function FileText(cs: seq<Command>): string {
    Unlines(cs, Line)
  }

  /** The keyword arguments of `write_smt2_file`. */
  datatype Options = Options(
    useSym: bool,
    withHome: bool,
    maxDiff: Option<int>,
    impliedCounts: bool,
    team1Pins: int,
    fixHomeSym: bool)

  /** What `write_smt2_file` produces: the lines of the file, the weeks, `W` and `P`. */
  datatype Export = Export(lines: seq<Command>, weeks: seq<seq<Pair>>, numWeeks: int, periods: int)

  // ---------------------------------------------------------------------------
  // match_of
  // ---------------------------------------------------------------------------

  /** Index of the last pair of `week` that involves `t`: the entry `match_of[w][t]` ends with. */
  function LastMatch(week: seq<Pair>, t: int): (r: Option<nat>)
    ensures r.Some? ==> r.value < |week| && Plays(week[r.value], t)
    decreases |week|
  {
    if week == [] then None
    else if Plays(week[|week| - 1], t) then Some(|week| - 1)
    else LastMatch(week[..|week| - 1], t)
  }

  /** The entry stays `None` exactly when no pair of the week involves `t`. */
  lemma {:induction false} LastMatchNone(week: seq<Pair>, t: int)
    ensures LastMatch(week, t).None? <==> forall k :: 0 <= k < |week| ==> !Plays(week[k], t)
    decreases |week|
  {
    if week != [] {
      var init := week[..|week| - 1];
      LastMatchNone(init, t);
      assert forall k :: 0 <= k < |init| ==> init[k] == week[k];
    }
  }

  /** The index of team `t`'s match in week `w` of the circle method (0 outside the schedule). */
  function MatchOf(n: int, w: int, t: int): (m: nat)
    ensures n >= 2 && n % 2 == 0 && 0 <= w < n - 1 && 1 <= t <= n ==> m < n / 2 && Plays(Slot(n, w, m), t)
  {
    if n >= 2 && n % 2 == 0 && 0 <= w < n - 1 && 1 <= t <= n then SlotOfTeam(n, w, t) else 0
  }

  /** In the circle method's weeks the search finds `MatchOf`: a team plays one match a week. */
  lemma LastMatchOfSchedule(n: int, w: nat, t: int)
    requires n >= 2 && n % 2 == 0 && w < n - 1 && 1 <= t <= n
    ensures LastMatch(Schedule(n)[w], t) == Some(MatchOf(n, w, t))
  {
    var i := SlotOfTeam(n, w, t);
    ScheduleAt(n, w, i);
    var week := Schedule(n)[w];
    LastMatchNone(week, t);
    var m := LastMatch(week, t).value;
    ScheduleAt(n, w, m);
    SlotsDisjoint(n, w, m, i, t);
  }

  /** `n - 1` weeks whose pairs name teams in `0..n`: the indices `match_of` may be written at. */
  predicate TeamsWithin(n: int, weeks: seq<seq<Pair>>) {
    |weeks| == n - 1 &&
    forall w, k :: 0 <= w < |weeks| && 0 <= k < |weeks[w]| ==> 0 <= weeks[w][k].0 <= n && 0 <= weeks[w][k].1 <= n
  }

  lemma ScheduleTeamsWithin(n: int)
    requires n >= 2 && n % 2 == 0
    ensures TeamsWithin(n, Schedule(n))
  {
    forall w, k | 0 <= w < n - 1 && 0 <= k < |Schedule(n)[w]|
      ensures 0 <= Schedule(n)[w][k].0 <= n && 0 <= Schedule(n)[w][k].1 <= n
    {
      ScheduleAt(n, w, 0);
      ScheduleAt(n, w, k);
      SlotValid(n, w, k);
    }
  }

  /** `match_of` once the filling loops are done: row `w` holds `LastMatch` of week `w` for every index. */
  predicate FilledFrom(n: int, weeks: seq<seq<Pair>>, matchOf: seq<seq<Option<nat>>>) {
    |weeks| == n - 1 && |matchOf| == n - 1 &&
    forall w :: 0 <= w < n - 1 ==>
      |matchOf[w]| == n + 1 && forall t :: 0 <= t <= n ==> matchOf[w][t] == LastMatch(weeks[w], t)
  }

  /** `match_of` as the writer reads it: entry `t` of row `w` names `t`'s match for every team. */
  predicate IsMatchTable(n: int, matchOf: seq<seq<Option<nat>>>) {
    n >= 2 && n % 2 == 0 && |matchOf| == n - 1 &&
    forall w :: 0 <= w < n - 1 ==>
      |matchOf[w]| == n + 1 && forall t :: 1 <= t <= n ==> matchOf[w][t] == Some(MatchOf(n, w, t))
  }

  /** Filled from the circle method, the table names every team's match. */
  lemma MatchOfFilled(n: int, matchOf: seq<seq<Option<nat>>>)
    requires n >= 2 && n % 2 == 0 && FilledFrom(n, Schedule(n), matchOf)
    ensures IsMatchTable(n, matchOf)
  {
    forall w, t | 0 <= w < n - 1 && 1 <= t <= n
      ensures matchOf[w][t] == Some(MatchOf(n, w, t))
    {
      LastMatchOfSchedule(n, w, t);
    }
  }

  /** The `for m, (a, b) in enumerate(weeks[w])` loop: both teams of pair `m` get entry `m`. */
  method FillWeek(row: seq<Option<nat>>, week: seq<Pair>) returns (out: seq<Option<nat>>)
    requires forall t :: 0 <= t < |row| ==> row[t] == None
    requires forall k :: 0 <= k < |week| ==> 0 <= week[k].0 < |row| && 0 <= week[k].1 < |row|
    ensures |out| == |row|
    ensures forall t :: 0 <= t < |row| ==> out[t] == LastMatch(week, t)
  {
    out := row;
    var m := 0;
    while m < |week|
      invariant 0 <= m <= |week| && |out| == |row|
      invariant forall t :: 0 <= t < |row| ==> out[t] == LastMatch(week[..m], t)
    {
      var (a, b) := week[m];
      out := out[a := Some(m)];
      out := out[b := Some(m)];
      assert week[..m + 1][..m] == week[..m];
      m := m + 1;
    }
    assert week[..|week|] == week;
  }

  /** The filling loop over the weeks, on a table of `None`s. */
  method FillMatchOf(n: int, weeks: seq<seq<Pair>>) returns (matchOf: seq<seq<Option<nat>>>)
    requires n >= 1 && TeamsWithin(n, weeks)
    ensures FilledFrom(n, weeks, matchOf)
  {
    matchOf := seq(n - 1, _ => seq(n + 1, _ => None));
    var w := 0;
    while w < n - 1
      invariant 0 <= w <= n - 1 && |matchOf| == n - 1
      invariant forall v :: 0 <= v < n - 1 ==> |matchOf[v]| == n + 1
      invariant forall v :: w <= v < n - 1 ==> forall t :: 0 <= t <= n ==> matchOf[v][t] == None
      invariant forall v :: 0 <= v < w ==> forall t :: 0 <= t <= n ==> matchOf[v][t] == LastMatch(weeks[v], t)
    {
      var row := FillWeek(matchOf[w], weeks[w]);
      matchOf := matchOf[w := row];
      w := w + 1;
    }
  }

  /** The check over one week: the first team of `1..n` without a match, reported as missing. */
  method CheckWeek(n: int, w: nat, row: seq<Option<nat>>) returns (missing: Option<Error>)
    requires |row| == n + 1
    ensures missing.None? <==> forall t :: 1 <= t <= n ==> row[t].Some?
    ensures missing.Some? ==> exists t :: 1 <= t <= n && row[t].None? && missing.value == TeamMissing(w, t)
  {
    var t := 1;
    while t < n + 1
      invariant 1 <= t <= Upto(1, n + 1)
      invariant forall u :: 1 <= u < t ==> row[u].Some?
    {
      if row[t].None? {
        return Some(TeamMissing(w, t));
      }
      t := t + 1;
    }
    return None;
  }

  /** The `RuntimeError` check: some team of some week without a match, if any. */
  method CheckMatchOf(n: int, matchOf: seq<seq<Option<nat>>>) returns (missing: Option<Error>)
    requires |matchOf| == n - 1 && forall w :: 0 <= w < n - 1 ==> |matchOf[w]| == n + 1
    ensures missing.None? <==> forall w, t :: 0 <= w < n - 1 && 1 <= t <= n ==> matchOf[w][t].Some?
    ensures missing.Some? ==>
      exists w, t :: 0 <= w < n - 1 && 1 <= t <= n && matchOf[w][t].None? && missing.value == TeamMissing(w, t)
  {
    var w := 0;
    while w < n - 1
      invariant 0 <= w <= Upto(0, n - 1)
      invariant forall v, t :: 0 <= v < w && 1 <= t <= n ==> matchOf[v][t].Some?
    {
      missing := CheckWeek(n, w, matchOf[w]);
      if missing.Some? {
        return;
      }
      w := w + 1;
    }
    return None;
  }

  // ---------------------------------------------------------------------------
  // The blocks of the file
  // ---------------------------------------------------------------------------

  function Header(): seq<Command> {
    [SetLogic, ProduceModels]
  }

  /** Declarations: `per_w_m`, followed by `home_w_m` when home games are modelled. */
  function DeclCells(withHome: bool, w: nat): nat -> seq<Command> {
    (m: nat) => [Declare(Per(w, m))] + (if withHome then [Declare(Home(w, m))] else [])
  }

  function DeclWeeks(n: int, withHome: bool): nat -> seq<Command> {
    (w: nat) => Loop(0, n / 2, DeclCells(withHome, w))
  }

  function Declarations(n: int, withHome: bool): seq<Command> {
    Loop(0, n - 1, DeclWeeks(n, withHome))
  }

  /** Every `per_w_m` lies in `0..P - 1`. */
  function DomainCell(n: int, w: nat): nat -> Command {
    (m: nat) => InDomain(w, m, n / 2)
  }

  function DomainWeeks(n: int): nat -> seq<Command> {
    (w: nat) => Loop(0, n / 2, Singles(DomainCell(n, w)))
  }

  function Domains(n: int): seq<Command> {
    Loop(0, n - 1, DomainWeeks(n))
  }

  /** The matches of a week get distinct periods. */
  function DistinctWeek(n: int): nat -> Command {
    (w: nat) => Distinct(w, n / 2)
  }

  function Distincts(n: int): seq<Command> {
    Loop(0, n - 1, Singles(DistinctWeek(n)))
  }

  /** The summand "team `t`'s match of week `w` is in period `p`". */
  function PeriodTerm(n: int, t: nat, p: nat): nat -> Term {
    (w: nat) => PerIs(w, MatchOf(n, w, t), p)
  }

  /** `sum_expr` of team `t` and period `p`: one summand per week. */
  function PeriodSum(n: int, t: nat, p: nat): seq<Term> {
    Loop(0, n - 1, Singles(PeriodTerm(n, t, p)))
  }

  function PeriodSums(n: int, t: nat): nat -> seq<Term> {
    (p: nat) => PeriodSum(n, t, p)
  }

  /** `sum_exprs` of team `t`: its period sums in period order. */
  function TeamSums(n: int, t: nat): seq<seq<Term>> {
    Loop(0, n / 2, Singles(PeriodSums(n, t)))
  }

  function PeriodCells(n: int, t: nat, implied: bool): nat -> seq<Command> {
    (p: nat) => [AtMost(PeriodSum(n, t, p), 2)] + (if implied then [AtLeast(PeriodSum(n, t, p), 1)] else [])
  }

  /** The count lines of team `t`; with the implied counts, one period with count 1 and the total `W`. */
  function TeamCounts(n: int, t: nat, implied: bool): seq<Command> {
    Loop(0, n / 2, PeriodCells(n, t, implied))
      + (if implied then [OneSingle(TeamSums(n, t)), Total(TeamSums(n, t), n - 1)] else [])
  }

  function CountRows(n: int, implied: bool): nat -> seq<Command> {
    (t: nat) => TeamCounts(n, t, implied)
  }

  function Counts(n: int, implied: bool): seq<Command> {
    Loop(1, n + 1, CountRows(n, implied))
  }

  /** `use_sym`: match `m` of week 0 is played in period `m`. */
  function DiagonalPin(): nat -> Command {
    (m: nat) => Pin(0, m, m)
  }

  function SymPins(n: int, useSym: bool): seq<Command> {
    if useSym then Loop(0, n / 2, Singles(DiagonalPin())) else []
  }

  /** `add_team1_pins`: team 1's match of week `w` is played in period 0. */
  function Team1Pin(n: int): nat -> Command {
    (w: nat) => Pin(w, MatchOf(n, w, 1), 0)
  }

  function Min(a: int, b: int): int {
    if a < b then a else b
  }

  function Team1Pins(n: int, k: int): seq<Command> {
    if k > 0 then Loop(0, Min(k, n - 1), Singles(Team1Pin(n))) else []
  }

  /** The summand "team `t` is at home in week `w`": `home` when `t` is first in its pair, `not home` otherwise. */
  function HomeTermOf(n: int, t: nat): nat -> Term {
    (w: nat) => HomeIs(w, MatchOf(n, w, t), Slot(n, w, MatchOf(n, w, t)).0 == t)
  }

  function HomeSum(n: int, t: nat): seq<Term> {
    Loop(0, n - 1, Singles(HomeTermOf(n, t)))
  }

  function FairCells(n: int, d: int): nat -> seq<Command> {
    (t: nat) => [FairUpper(HomeSum(n, t), n - 1, d), FairLower(HomeSum(n, t), n - 1, d)]
  }

  function HomeSymmetry(fixHomeSym: bool): seq<Command> {
    if fixHomeSym then [AssertHome(0, 0)] else []
  }

  function Fairness(n: int, maxDiff: Option<int>, fixHomeSym: bool): seq<Command> {
    if maxDiff.Some? then HomeSymmetry(fixHomeSym) + Loop(1, n + 1, FairCells(n, maxDiff.value)) else []
  }

  /** The variables of the `get-value` line, week by week and match by match. */
  function GridCell(home: bool, w: nat): nat -> Var {
    (m: nat) => if home then Home(w, m) else Per(w, m)
  }

  function GridRows(n: int, home: bool): nat -> seq<Var> {
    (w: nat) => Loop(0, n / 2, Singles(GridCell(home, w)))
  }

  function Grid(n: int, home: bool): seq<Var> {
    Loop(0, n - 1, GridRows(n, home))
  }

  function AllVars(n: int, withHome: bool): seq<Var> {
    Grid(n, false) + (if withHome then Grid(n, true) else [])
  }

  function Footer(n: int, withHome: bool): seq<Command> {
    [CheckSat, GetValue(AllVars(n, withHome)), Exit]
  }

  /** The whole file, block by block. */
  function Script(n: int, o: Options): seq<Command> {
    Header() + Declarations(n, o.withHome) + Domains(n) + Distincts(n) + Counts(n, o.impliedCounts)
      + SymPins(n, o.useSym) + Team1Pins(n, o.team1Pins) + Fairness(n, o.maxDiff, o.fixHomeSym)
      + Footer(n, o.withHome)
  }

  // ---------------------------------------------------------------------------
  // The writer
  // ---------------------------------------------------------------------------

  /**
   * `write_smt2_file(n, out_path, ...)`: the lines it writes together with
   * the weeks, `W` and `P` it returns, or the exception it raises.
   */
  method WriteSmt2File(n: int, o: Options) returns (r: Result<Export>)
    requires n % 2 != 0 || n > 0
    ensures n % 2 != 0 ==> r == Err(OddTeamCount)
    ensures n % 2 == 0 && o.maxDiff.Some? && !o.withHome ==> r == Err(MaxDiffWithoutHome)
    ensures n % 2 == 0 && (o.maxDiff.None? || o.withHome) ==>
      r == Ok(Export(Script(n, o), Schedule(n), n - 1, n / 2))
  {
    if n % 2 != 0 {
      return Err(OddTeamCount);
    }
    var periods := n / 2;
    var numWeeks := n - 1;
    var weeksOrError := CircleMethodPairs(n);
    var weeks := weeksOrError.value;
    ScheduleTeamsWithin(n);
    var matchOf := FillMatchOf(n, weeks);
    MatchOfFilled(n, matchOf);
    var missing := CheckMatchOf(n, matchOf);
    if missing.Some? {
      // the RuntimeError is never raised: every team has a match in every week
      assert false;
    }
    var script := [SetLogic, ProduceModels];
    script := EmitDeclarations(n, o.withHome, script);
    script := EmitDomains(n, script);
    script := EmitDistincts(n, script);
    script := EmitCounts(n, matchOf, o.impliedCounts, script);
    script := EmitSymPins(n, o.useSym, script);
    script := EmitTeam1Pins(n, matchOf, o.team1Pins, script);
    if o.maxDiff.Some? && !o.withHome {
      return Err(MaxDiffWithoutHome);
    }
    script := EmitFairness(n, weeks, matchOf, o.maxDiff, o.fixHomeSym, script);
    script := script + [CheckSat, GetValue(AllVars(n, o.withHome)), Exit];
    return Ok(Export(script, weeks, numWeeks, periods));
  }

  /** The declarations: the `w` loop. */
  method EmitDeclarations(n: int, withHome: bool, script: seq<Command>) returns (out: seq<Command>)
    ensures out == script + Declarations(n, withHome)
  {
    out := script;
    var w := 0;
    while w < n - 1
      invariant 0 <= w <= Upto(0, n - 1)
      invariant out == script + Loop(0, w, DeclWeeks(n, withHome))
    {
      out := EmitDeclWeek(n, withHome, w, out);
      LoopAppend(script, 0, w, DeclWeeks(n, withHome));
      w := w + 1;
    }
    LoopDone(0, w, n - 1, DeclWeeks(n, withHome));
  }

  /** The declarations: the `m` loop. */
  method EmitDeclWeek(n: int, withHome: bool, w: nat, script: seq<Command>) returns (out: seq<Command>)
    ensures out == script + DeclWeeks(n, withHome)(w)
  {
    out := script;
    var m := 0;
    while m < n / 2
      invariant 0 <= m <= Upto(0, n / 2)
      invariant out == script + Loop(0, m, DeclCells(withHome, w))
    {
      ghost var before := out;
      out := out + [Declare(Per(w, m))];
      if withHome {
        out := out + [Declare(Home(w, m))];
      }
      assert out == before + DeclCells(withHome, w)(m);
      LoopAppend(script, 0, m, DeclCells(withHome, w));
      m := m + 1;
    }
    LoopDone(0, m, n / 2, DeclCells(withHome, w));
  }

  /** The domains: the `w` loop. */
  method EmitDomains(n: int, script: seq<Command>) returns (out: seq<Command>)
    ensures out == script + Domains(n)
  {
    out := script;
    var w := 0;
    while w < n - 1
      invariant 0 <= w <= Upto(0, n - 1)
      invariant out == script + Loop(0, w, DomainWeeks(n))
    {
      out := EmitDomainWeek(n, w, out);
      LoopAppend(script, 0, w, DomainWeeks(n));
      w := w + 1;
    }
    LoopDone(0, w, n - 1, DomainWeeks(n));
  }

  /** The domains: the `m` loop. */
  method EmitDomainWeek(n: int, w: nat, script: seq<Command>) returns (out: seq<Command>)
    ensures out == script + DomainWeeks(n)(w)
  {
    out := script;
    var m := 0;
    while m < n / 2
      invariant 0 <= m <= Upto(0, n / 2)
      invariant out == script + Loop(0, m, Singles(DomainCell(n, w)))
    {
      out := out + [InDomain(w, m, n / 2)];
      LoopAppend(script, 0, m, Singles(DomainCell(n, w)));
      m := m + 1;
    }
    LoopDone(0, m, n / 2, Singles(DomainCell(n, w)));
  }

  /** One `distinct` line per week. */
  method EmitDistincts(n: int, script: seq<Command>) returns (out: seq<Command>)
    ensures out == script + Distincts(n)
  {
    out := script;
    var w := 0;
    while w < n - 1
      invariant 0 <= w <= Upto(0, n - 1)
      invariant out == script + Loop(0, w, Singles(DistinctWeek(n)))
    {
      out := out + [Distinct(w, n / 2)];
      LoopAppend(script, 0, w, Singles(DistinctWeek(n)));
      w := w + 1;
    }
    LoopDone(0, w, n - 1, Singles(DistinctWeek(n)));
  }

  /** The team-period counts: the `t` loop. */
  method EmitCounts(n: int, matchOf: seq<seq<Option<nat>>>, implied: bool, script: seq<Command>)
    returns (out: seq<Command>)
    requires IsMatchTable(n, matchOf)
    ensures out == script + Counts(n, implied)
  {
    out := script;
    var t := 1;
    while t < n + 1
      invariant 1 <= t <= n + 1
      invariant out == script + Loop(1, t, CountRows(n, implied))
    {
      out := EmitTeamCounts(n, matchOf, t, implied, out);
      LoopAppend(script, 1, t, CountRows(n, implied));
      t := t + 1;
    }
  }

  /** The team-period counts: the `p` loop of team `t`, then its implied lines. */
  method EmitTeamCounts(n: int, matchOf: seq<seq<Option<nat>>>, t: nat, implied: bool, script: seq<Command>)
    returns (out: seq<Command>)
    requires IsMatchTable(n, matchOf) && 1 <= t <= n
    ensures out == script + CountRows(n, implied)(t)
  {
    out := script;
    var sums: seq<seq<Term>> := [];
    var p := 0;
    while p < n / 2
      invariant 0 <= p <= n / 2
      invariant out == script + Loop(0, p, PeriodCells(n, t, implied))
      invariant sums == Loop(0, p, Singles(PeriodSums(n, t)))
    {
      ghost var before := out;
      var terms := PeriodTerms(n, matchOf, t, p);
      sums := sums + [terms];
      out := out + [AtMost(terms, 2)];
      if implied {
        out := out + [AtLeast(terms, 1)];
      }
      assert out == before + PeriodCells(n, t, implied)(p);
      LoopAppend(script, 0, p, PeriodCells(n, t, implied));
      LoopSnoc(0, p, Singles(PeriodSums(n, t)));
      p := p + 1;
    }
    ghost var cells := out;
    if implied {
      out := out + [OneSingle(sums)];
      out := out + [Total(sums, n - 1)];
    }
    assert out == cells + (if implied then [OneSingle(TeamSums(n, t)), Total(TeamSums(n, t), n - 1)] else []);
  }

  /** `terms` of team `t` and period `p`: the `w` loop. */
  method PeriodTerms(n: int, matchOf: seq<seq<Option<nat>>>, t: nat, p: nat) returns (terms: seq<Term>)
    requires IsMatchTable(n, matchOf) && 1 <= t <= n
    ensures terms == PeriodSum(n, t, p)
  {
    terms := [];
    var w := 0;
    while w < n - 1
      invariant 0 <= w <= n - 1
      invariant terms == Loop(0, w, Singles(PeriodTerm(n, t, p)))
    {
      var m := matchOf[w][t].value;
      terms := terms + [PerIs(w, m, p)];
      LoopSnoc(0, w, Singles(PeriodTerm(n, t, p)));
      w := w + 1;
    }
  }

  /** `use_sym`: the diagonal of week 0. */
  method EmitSymPins(n: int, useSym: bool, script: seq<Command>) returns (out: seq<Command>)
    ensures out == script + SymPins(n, useSym)
  {
    out := script;
    if useSym {
      var m := 0;
      while m < n / 2
        invariant 0 <= m <= Upto(0, n / 2)
        invariant out == script + Loop(0, m, Singles(DiagonalPin()))
      {
        out := out + [Pin(0, m, m)];
        LoopAppend(script, 0, m, Singles(DiagonalPin()));
        m := m + 1;
      }
      LoopDone(0, m, n / 2, Singles(DiagonalPin()));
    } else {
      assert script + [] == script;
    }
  }

  /** `add_team1_pins`: team 1 in period 0 for the first `min(k, W)` weeks. */
  method EmitTeam1Pins(n: int, matchOf: seq<seq<Option<nat>>>, k: int, script: seq<Command>)
    returns (out: seq<Command>)
    requires IsMatchTable(n, matchOf)
    ensures out == script + Team1Pins(n, k)
  {
    out := script;
    if k > 0 {
      var last := Min(k, n - 1);
      var w := 0;
      while w < last
        invariant 0 <= w <= last
        invariant out == script + Loop(0, w, Singles(Team1Pin(n)))
      {
        var m := matchOf[w][1].value;
        out := out + [Pin(w, m, 0)];
        LoopAppend(script, 0, w, Singles(Team1Pin(n)));
        w := w + 1;
      }
    } else {
      assert script + [] == script;
    }
  }

  /** Fairness: the home symmetry break, then two bounds per team. */
  method EmitFairness(n: int, weeks: seq<seq<Pair>>, matchOf: seq<seq<Option<nat>>>, maxDiff: Option<int>,
                      fixHomeSym: bool, script: seq<Command>) returns (out: seq<Command>)
    requires IsMatchTable(n, matchOf) && weeks == Schedule(n)
    ensures out == script + Fairness(n, maxDiff, fixHomeSym)
  {
    out := script;
    if maxDiff.Some? {
      if fixHomeSym {
        out := out + [AssertHome(0, 0)];
      }
      assert out == script + HomeSymmetry(fixHomeSym);
      out := EmitFairTeams(n, weeks, matchOf, maxDiff.value, out);
    } else {
      assert script + [] == script;
    }
  }

  /** Fairness: the `t` loop. */
  method EmitFairTeams(n: int, weeks: seq<seq<Pair>>, matchOf: seq<seq<Option<nat>>>, d: int, script: seq<Command>)
    returns (out: seq<Command>)
    requires IsMatchTable(n, matchOf) && weeks == Schedule(n)
    ensures out == script + Loop(1, n + 1, FairCells(n, d))
  {
    out := script;
    var t := 1;
    while t < n + 1
      invariant 1 <= t <= n + 1
      invariant out == script + Loop(1, t, FairCells(n, d))
    {
      ghost var before := out;
      var terms := HomeTerms(n, weeks, matchOf, t);
      out := out + [FairUpper(terms, n - 1, d)];
      out := out + [FairLower(terms, n - 1, d)];
      assert out == before + FairCells(n, d)(t);
      LoopAppend(script, 1, t, FairCells(n, d));
      t := t + 1;
    }
  }

  /** Fairness: the home summands of team `t`, the `w` loop. */
  method HomeTerms(n: int, weeks: seq<seq<Pair>>, matchOf: seq<seq<Option<nat>>>, t: nat) returns (terms: seq<Term>)
    requires IsMatchTable(n, matchOf) && weeks == Schedule(n) && 1 <= t <= n
    ensures terms == HomeSum(n, t)
  {
    terms := [];
    var w := 0;
    while w < n - 1
      invariant 0 <= w <= n - 1
      invariant terms == Loop(0, w, Singles(HomeTermOf(n, t)))
    {
      var m := matchOf[w][t].value;
      ScheduleAt(n, w, m);
      var (a, b) := weeks[w][m];
      if t == a {
        terms := terms + [HomeIs(w, m, true)];
      } else {
        terms := terms + [HomeIs(w, m, false)];
      }
      LoopSnoc(0, w, Singles(HomeTermOf(n, t)));
      w := w + 1;
    }
  }
}
