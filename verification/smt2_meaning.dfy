/**
 * What the SMT2 file written by `Smt2Export` asks of a solver's model: an
 * assignment of the `per` and `home` variables satisfies the file exactly when
 * the periods form a valid period assignment of the circle method's weeks (at
 * most two games per team per period, the optional pins) and, with a
 * `max_diff`, every team's home games are balanced within it
 * (`ScriptMeaning`). The implied count lines exclude no model
 * (`ImpliedCountsExcludeNothing`).
 */
module Smt2Meaning {
  import opened Wrappers
  import opened Loops
  import opened Counting
  import opened RoundRobinProps
  import opened Smt2Export

  /** Values for the variables: a period for every `per_w_m`, a truth value for every `home_w_m`. */
  datatype Assignment = Assignment(per: (nat, nat) -> int, home: (nat, nat) -> bool)

  /** The value of an `ite` summand. */
  function TermValue(a: Assignment, x: Term): int {
    match x
    case PerIs(w, m, p) => if a.per(w, m) == p then 1 else 0
    case HomeIs(w, m, whenHome) => if a.home(w, m) == whenHome then 1 else 0
  }

  /** The value of a `(+ ...)` sum. */
  function Sum(a: Assignment, ts: seq<Term>): int
    decreases |ts|
  {
    if ts == [] then 0 else Sum(a, ts[..|ts| - 1]) + TermValue(a, ts[|ts| - 1])
  }

  /** The values of a list of sums, as a function of the position. */
  function SumValues(a: Assignment, sums: seq<seq<Term>>): nat -> int {
    (k: nat) => if k < |sums| then Sum(a, sums[k]) else 0
  }

  /** What an assertion line demands; declarations and the solver commands demand nothing. */
  predicate Holds(a: Assignment, c: Command) {
    match c
    case InDomain(w, m, k) => 0 <= a.per(w, m) < k
    case Distinct(w, k) => forall m1: nat, m2: nat :: m1 < m2 < k ==> a.per(w, m1) != a.per(w, m2)
    case AtMost(ts, k) => Sum(a, ts) <= k
    case AtLeast(ts, k) => Sum(a, ts) >= k
    case OneSingle(sums) => CountBelow(SumValues(a, sums), 1, |sums|) == 1
    case Total(sums, k) => SumBelow(SumValues(a, sums), |sums|) == k
    case Pin(w, m, p) => a.per(w, m) == p
    case AssertHome(w, m) => a.home(w, m)
    case FairUpper(ts, weeks, d) => 2 * Sum(a, ts) - weeks <= d
    case FairLower(ts, weeks, d) => weeks - 2 * Sum(a, ts) <= d
    case _ => true
  }

  predicate Satisfies(a: Assignment, cs: seq<Command>) {
    forall c :: c in cs ==> Holds(a, c)
  }

  // ---------------------------------------------------------------------------
  // The schedule-level reading
  // ---------------------------------------------------------------------------

  /** The period `a` gives team `t`'s match, week by week. */
  function PeriodsOf(a: Assignment, n: int, t: nat): nat -> int {
    (w: nat) => a.per(w, MatchOf(n, w, t))
  }

  /** The number of weeks in which team `t` plays in period `p`. */
  function PeriodCount(a: Assignment, n: int, t: nat, p: nat): nat {
    CountBelow(PeriodsOf(a, n, t), p, n - 1)
  }

  function PeriodCounts(a: Assignment, n: int, t: nat): nat -> int {
    (p: nat) => PeriodCount(a, n, t, p)
  }

  /** The home team of match `m` in week `w`: the first of the pair exactly when `home_w_m` holds. */
  function HomeTeamOf(a: Assignment, n: int, w: nat, m: nat): int {
    if a.home(w, m) then Slot(n, w, m).0 else Slot(n, w, m).1
  }

  function HomeTeams(a: Assignment, n: int, t: nat): nat -> int {
    (w: nat) => HomeTeamOf(a, n, w, MatchOf(n, w, t))
  }

  /** The number of weeks in which team `t` plays at home. */
  function HomeGames(a: Assignment, n: int, t: nat): nat {
    CountBelow(HomeTeams(a, n, t), t, n - 1)
  }

  /** Every match of every week is given one of the `P` periods. */
  predicate PeriodsInRange(a: Assignment, n: int) {
    forall w: nat, m: nat :: w < n - 1 && m < n / 2 ==> 0 <= a.per(w, m) < n / 2
  }

  /** No two matches of a week share a period. */
  predicate WeeksDistinct(a: Assignment, n: int) {
    forall w: nat, m1: nat, m2: nat :: w < n - 1 && m1 < m2 < n / 2 ==> a.per(w, m1) != a.per(w, m2)
  }

  /** Team `t` plays at most twice in every period; with the implied lines, at least once, once in exactly one period, `W` in all. */
  predicate CountsOk(a: Assignment, n: int, t: nat, implied: bool) {
    (forall p: nat :: p < n / 2 ==> PeriodCount(a, n, t, p) <= 2)
    && (implied ==>
          (forall p: nat :: p < n / 2 ==> PeriodCount(a, n, t, p) >= 1)
          && CountBelow(PeriodCounts(a, n, t), 1, n / 2) == 1
          && SumBelow(PeriodCounts(a, n, t), n / 2) == n - 1)
  }

  predicate AllCountsOk(a: Assignment, n: int, implied: bool) {
    forall t: nat :: 1 <= t <= n ==> CountsOk(a, n, t, implied)
  }

  /** Match `m` of week 0 is played in period `m`. */
  predicate SymPinned(a: Assignment, n: int) {
    forall m: nat :: m < n / 2 ==> a.per(0, m) == m
  }

  /** Team 1 plays in period 0 in each of the first `k` weeks. */
  predicate Team1Pinned(a: Assignment, n: int, k: int) {
    forall w: nat :: w < Min(k, n - 1) ==> a.per(w, MatchOf(n, w, 1)) == 0
  }

  /** Every team's home games and away games differ by at most `d`. */
  predicate Balanced(a: Assignment, n: int, d: int) {
    forall t: nat :: 1 <= t <= n ==> -d <= 2 * HomeGames(a, n, t) - (n - 1) <= d
  }

  // ---------------------------------------------------------------------------
  // Blocks
  // ---------------------------------------------------------------------------

  lemma SatisfiesAppend(a: Assignment, xs: seq<Command>, ys: seq<Command>)
    ensures Satisfies(a, xs + ys) <==> Satisfies(a, xs) && Satisfies(a, ys)
  {
  }

  /** A loop's lines are satisfied exactly when every step's lines are. */
  lemma {:induction false} LoopSatisfies(a: Assignment, lo: nat, hi: int, body: nat -> seq<Command>)
    ensures Satisfies(a, Loop(lo, hi, body)) <==> forall k: nat :: lo <= k < hi ==> Satisfies(a, body(k))
    decreases hi - lo
  {
    if hi > lo {
      LoopSatisfies(a, lo, hi - 1, body);
      SatisfiesAppend(a, Loop(lo, hi - 1, body), body(hi - 1));
    }
  }

  /** A loop of one-line steps is satisfied exactly when every step's line holds. */
  lemma LoopSinglesSatisfies(a: Assignment, lo: nat, hi: int, f: nat -> Command)
    ensures Satisfies(a, Loop(lo, hi, Singles(f))) <==> forall k: nat :: lo <= k < hi ==> Holds(a, f(k))
  {
    LoopSatisfies(a, lo, hi, Singles(f));
    forall k: nat | lo <= k < hi
      ensures Satisfies(a, Singles(f)(k)) <==> Holds(a, f(k))
    {
      assert Singles(f)(k) == [f(k)];
    }
  }

  lemma SatisfiesOne(a: Assignment, c: Command)
    ensures Satisfies(a, [c]) <==> Holds(a, c)
  {
  }

  lemma SumSnoc(a: Assignment, ts: seq<Term>, x: Term)
    ensures Sum(a, ts + [x]) == Sum(a, ts) + TermValue(a, x)
  {
    assert (ts + [x])[..|ts|] == ts;
  }

  /** A sum of 0/1 indicator summands counts the weeks whose value is `x`. */
  lemma {:induction false} SumCounts(a: Assignment, f: nat -> Term, v: nat -> int, x: int, k: int)
    requires forall w: nat :: w < k ==> TermValue(a, f(w)) == if v(w) == x then 1 else 0
    ensures Sum(a, Loop(0, k, Singles(f))) == CountBelow(v, x, k)
    decreases k
  {
    if k > 0 {
      SumCounts(a, f, v, x, k - 1);
      SumSnoc(a, Loop(0, k - 1, Singles(f)), f(k - 1));
    }
  }

  /** Exactly the variables of the `W x P` grid are declared; `home` ones only with home games. */
  lemma DeclarationsMeaning(n: int, withHome: bool, v: Var)
    ensures Declare(v) in Declarations(n, withHome) <==> v.w < n - 1 && v.m < n / 2 && (v.Per? || withHome)
  {
    var c := Declare(v);
    LoopMember(0, n - 1, DeclWeeks(n, withHome), c);
    if c in Declarations(n, withHome) {
      var w: nat :| w < n - 1 && c in DeclWeeks(n, withHome)(w);
      LoopMember(0, n / 2, DeclCells(withHome, w), c);
    }
    if v.w < n - 1 && v.m < n / 2 && (v.Per? || withHome) {
      assert c in DeclCells(withHome, v.w)(v.m);
      LoopHas(0, n / 2, DeclCells(withHome, v.w), v.m, c);
      LoopHas(0, n - 1, DeclWeeks(n, withHome), v.w, c);
    }
  }

  /** Declarations constrain nothing. */
  lemma DeclarationsHold(a: Assignment, n: int, withHome: bool)
    ensures Satisfies(a, Declarations(n, withHome))
  {
    LoopSatisfies(a, 0, n - 1, DeclWeeks(n, withHome));
    forall w: nat | w < n - 1
      ensures Satisfies(a, DeclWeeks(n, withHome)(w))
    {
      LoopSatisfies(a, 0, n / 2, DeclCells(withHome, w));
    }
  }

  /** The domain lines: every period lies in `0..P - 1`. */
  lemma DomainsSatisfied(a: Assignment, n: int)
    ensures Satisfies(a, Domains(n)) <==> PeriodsInRange(a, n)
  {
    LoopSatisfies(a, 0, n - 1, DomainWeeks(n));
    if Satisfies(a, Domains(n)) {
      forall w: nat, m: nat | w < n - 1 && m < n / 2
        ensures 0 <= a.per(w, m) < n / 2
      {
        assert Satisfies(a, DomainWeeks(n)(w));
        LoopSinglesSatisfies(a, 0, n / 2, DomainCell(n, w));
        assert Holds(a, DomainCell(n, w)(m));
      }
    }
    if PeriodsInRange(a, n) {
      forall w: nat | w < n - 1
        ensures Satisfies(a, DomainWeeks(n)(w))
      {
        LoopSinglesSatisfies(a, 0, n / 2, DomainCell(n, w));
      }
    }
  }

  /** The `distinct` lines: the matches of a week are in different periods. */
  lemma DistinctsSatisfied(a: Assignment, n: int)
    ensures Satisfies(a, Distincts(n)) <==> WeeksDistinct(a, n)
  {
    LoopSinglesSatisfies(a, 0, n - 1, DistinctWeek(n));
    if Satisfies(a, Distincts(n)) {
      forall w: nat, m1: nat, m2: nat | w < n - 1 && m1 < m2 < n / 2
        ensures a.per(w, m1) != a.per(w, m2)
      {
        assert Holds(a, DistinctWeek(n)(w));
      }
    }
  }

  /** `sum_expr` of team `t` and period `p` counts the weeks `t` plays in `p`. */
  lemma PeriodSumMeaning(a: Assignment, n: int, t: nat, p: nat)
    ensures Sum(a, PeriodSum(n, t, p)) == PeriodCount(a, n, t, p)
  {
    SumCounts(a, PeriodTerm(n, t, p), PeriodsOf(a, n, t), p, n - 1);
  }

  /** The sums of `sum_exprs`, period by period, are the period counts. */
  lemma TeamSumsValues(a: Assignment, n: int, t: nat)
    requires n >= 2
    ensures |TeamSums(n, t)| == n / 2
    ensures CountBelow(SumValues(a, TeamSums(n, t)), 1, n / 2) == CountBelow(PeriodCounts(a, n, t), 1, n / 2)
    ensures SumBelow(SumValues(a, TeamSums(n, t)), n / 2) == SumBelow(PeriodCounts(a, n, t), n / 2)
  {
    LoopLength(0, n / 2, Singles(PeriodSums(n, t)), 1);
    forall p: nat | p < n / 2
      ensures SumValues(a, TeamSums(n, t))(p) == PeriodCounts(a, n, t)(p)
    {
      SinglesAt(0, n / 2, PeriodSums(n, t), p);
      PeriodSumMeaning(a, n, t, p);
    }
    CountAgree(SumValues(a, TeamSums(n, t)), PeriodCounts(a, n, t), 1, n / 2);
    SumAgree(SumValues(a, TeamSums(n, t)), PeriodCounts(a, n, t), n / 2);
  }

  /** The lines of one team and period: at most 2 and, with the implied lines, at least 1. */
  lemma PeriodCellsSatisfied(a: Assignment, n: int, t: nat, implied: bool, p: nat)
    ensures Satisfies(a, PeriodCells(n, t, implied)(p)) <==>
      PeriodCount(a, n, t, p) <= 2 && (implied ==> PeriodCount(a, n, t, p) >= 1)
  {
    var sum := PeriodSum(n, t, p);
    var rest: seq<Command> := if implied then [AtLeast(sum, 1)] else [];
    assert PeriodCells(n, t, implied)(p) == [AtMost(sum, 2)] + rest;
    SatisfiesAppend(a, [AtMost(sum, 2)], rest);
    SatisfiesOne(a, AtMost(sum, 2));
    SatisfiesOne(a, AtLeast(sum, 1));
    PeriodSumMeaning(a, n, t, p);
  }

  /** Both bounds of every period of team `t`. */
  predicate PeriodsBounded(a: Assignment, n: int, t: nat, implied: bool) {
    forall p: nat :: p < n / 2 ==> PeriodCount(a, n, t, p) <= 2 && (implied ==> PeriodCount(a, n, t, p) >= 1)
  }

  /** The `p` loop of team `t`: its per-period lines. */
  lemma PeriodLinesSatisfied(a: Assignment, n: int, t: nat, implied: bool)
    ensures Satisfies(a, Loop(0, n / 2, PeriodCells(n, t, implied))) <==> PeriodsBounded(a, n, t, implied)
  {
    LoopSatisfies(a, 0, n / 2, PeriodCells(n, t, implied));
    if Satisfies(a, Loop(0, n / 2, PeriodCells(n, t, implied))) {
      forall p: nat | p < n / 2
        ensures PeriodCount(a, n, t, p) <= 2 && (implied ==> PeriodCount(a, n, t, p) >= 1)
      {
        assert Satisfies(a, PeriodCells(n, t, implied)(p));
        PeriodCellsSatisfied(a, n, t, implied, p);
      }
    }
    if PeriodsBounded(a, n, t, implied) {
      forall p: nat | p < n / 2
        ensures Satisfies(a, PeriodCells(n, t, implied)(p))
      {
        PeriodCellsSatisfied(a, n, t, implied, p);
      }
    }
  }

  /** The implied lines of team `t`: one period with count 1, counts adding up to `W`. */
  lemma ImpliedLinesSatisfied(a: Assignment, n: int, t: nat)
    requires n >= 2
    ensures Satisfies(a, [OneSingle(TeamSums(n, t)), Total(TeamSums(n, t), n - 1)]) <==>
      CountBelow(PeriodCounts(a, n, t), 1, n / 2) == 1 && SumBelow(PeriodCounts(a, n, t), n / 2) == n - 1
  {
    var sums := TeamSums(n, t);
    assert [OneSingle(sums), Total(sums, n - 1)] == [OneSingle(sums)] + [Total(sums, n - 1)];
    SatisfiesAppend(a, [OneSingle(sums)], [Total(sums, n - 1)]);
    SatisfiesOne(a, OneSingle(sums));
    SatisfiesOne(a, Total(sums, n - 1));
    TeamSumsValues(a, n, t);
  }

  /** The count lines of one team. */
  lemma TeamCountsSatisfied(a: Assignment, n: int, t: nat, implied: bool)
    requires n >= 2
    ensures Satisfies(a, TeamCounts(n, t, implied)) <==> CountsOk(a, n, t, implied)
  {
    var sums := TeamSums(n, t);
    var tail: seq<Command> := if implied then [OneSingle(sums), Total(sums, n - 1)] else [];
    SatisfiesAppend(a, Loop(0, n / 2, PeriodCells(n, t, implied)), tail);
    PeriodLinesSatisfied(a, n, t, implied);
    ImpliedLinesSatisfied(a, n, t);
  }

  /** The count lines: every team's period counts. */
  lemma CountsSatisfied(a: Assignment, n: int, implied: bool)
    requires n >= 2
    ensures Satisfies(a, Counts(n, implied)) <==> AllCountsOk(a, n, implied)
  {
    LoopSatisfies(a, 1, n + 1, CountRows(n, implied));
    if Satisfies(a, Counts(n, implied)) {
      forall t: nat | 1 <= t <= n
        ensures CountsOk(a, n, t, implied)
      {
        assert Satisfies(a, CountRows(n, implied)(t));
        TeamCountsSatisfied(a, n, t, implied);
      }
    }
    if AllCountsOk(a, n, implied) {
      forall t: nat | 1 <= t <= n
        ensures Satisfies(a, CountRows(n, implied)(t))
      {
        TeamCountsSatisfied(a, n, t, implied);
      }
    }
  }

  /**
   * With periods in range, at most two games per period already gives the
   * implied counts: `W = 2P - 1` games spread over `P` periods.
   */
  lemma ImpliedCountsRedundant(a: Assignment, n: int, t: nat)
    requires n >= 2 && n % 2 == 0 && 1 <= t <= n
    requires PeriodsInRange(a, n) && CountsOk(a, n, t, false)
    ensures CountsOk(a, n, t, true)
  {
    var v := PeriodsOf(a, n, t);
    var c := PeriodCounts(a, n, t);
    forall w: nat | w < n - 1
      ensures 0 <= v(w) < n / 2
    {
      var m := MatchOf(n, w, t);
      assert 0 <= a.per(w, m) < n / 2;
    }
    TallyTotal(v, n - 1, n / 2);
    forall p: nat | p < n / 2
      ensures c(p) == Tally(v, n - 1)(p) && 0 <= c(p) <= 2
    {
      assert PeriodCount(a, n, t, p) <= 2;
    }
    SumAgree(c, Tally(v, n - 1), n / 2);
    ExactCounts(c, n / 2);
    forall p: nat | p < n / 2
      ensures PeriodCount(a, n, t, p) >= 1
    {
      assert c(p) >= 1;
    }
  }

  /** Under the domain lines, adding the implied count lines does not change the models. */
  lemma ImpliedCountsExcludeNothing(a: Assignment, n: int)
    requires n >= 2 && n % 2 == 0 && PeriodsInRange(a, n)
    ensures Satisfies(a, Counts(n, true)) <==> Satisfies(a, Counts(n, false))
  {
    CountsSatisfied(a, n, true);
    CountsSatisfied(a, n, false);
    if AllCountsOk(a, n, false) {
      forall t: nat | 1 <= t <= n
        ensures CountsOk(a, n, t, true)
      {
        ImpliedCountsRedundant(a, n, t);
      }
    }
    if AllCountsOk(a, n, true) {
      forall t: nat | 1 <= t <= n
        ensures CountsOk(a, n, t, false)
      {
        assert CountsOk(a, n, t, true);
      }
    }
  }

  /** `use_sym` pins the diagonal of week 0. */
  lemma SymPinsSatisfied(a: Assignment, n: int, useSym: bool)
    ensures Satisfies(a, SymPins(n, useSym)) <==> (useSym ==> SymPinned(a, n))
  {
    LoopSinglesSatisfies(a, 0, n / 2, DiagonalPin());
    if useSym && Satisfies(a, SymPins(n, useSym)) {
      forall m: nat | m < n / 2
        ensures a.per(0, m) == m
      {
        assert Holds(a, DiagonalPin()(m));
      }
    }
  }

  /** `add_team1_pins = k` puts team 1 in period 0 in weeks `0..min(k, W) - 1`. */
  lemma Team1PinsSatisfied(a: Assignment, n: int, k: int)
    ensures Satisfies(a, Team1Pins(n, k)) <==> Team1Pinned(a, n, k)
  {
    LoopSinglesSatisfies(a, 0, Min(k, n - 1), Team1Pin(n));
    if Satisfies(a, Team1Pins(n, k)) {
      forall w: nat | w < Min(k, n - 1)
        ensures a.per(w, MatchOf(n, w, 1)) == 0
      {
        assert Holds(a, Team1Pin(n)(w));
      }
    }
  }

  /** The home summands of team `t` count its home games. */
  lemma HomeSumMeaning(a: Assignment, n: int, t: nat)
    requires n >= 2 && n % 2 == 0 && 1 <= t <= n
    ensures Sum(a, HomeSum(n, t)) == HomeGames(a, n, t)
  {
    forall w: nat | w < n - 1
      ensures TermValue(a, HomeTermOf(n, t)(w)) == if HomeTeams(a, n, t)(w) == t then 1 else 0
    {
      SlotValid(n, w, MatchOf(n, w, t));
    }
    SumCounts(a, HomeTermOf(n, t), HomeTeams(a, n, t), t, n - 1);
  }

  /** The two bounds of team `t`. */
  lemma FairCellsSatisfied(a: Assignment, n: int, d: int, t: nat)
    requires n >= 2 && n % 2 == 0 && 1 <= t <= n
    ensures Satisfies(a, FairCells(n, d)(t)) <==> -d <= 2 * HomeGames(a, n, t) - (n - 1) <= d
  {
    var sum := HomeSum(n, t);
    assert FairCells(n, d)(t) == [FairUpper(sum, n - 1, d)] + [FairLower(sum, n - 1, d)];
    SatisfiesAppend(a, [FairUpper(sum, n - 1, d)], [FairLower(sum, n - 1, d)]);
    SatisfiesOne(a, FairUpper(sum, n - 1, d));
    SatisfiesOne(a, FairLower(sum, n - 1, d));
    HomeSumMeaning(a, n, t);
  }

  /** The bounds of every team: home games balanced within `d`. */
  lemma FairTeamsSatisfied(a: Assignment, n: int, d: int)
    requires n >= 2 && n % 2 == 0
    ensures Satisfies(a, Loop(1, n + 1, FairCells(n, d))) <==> Balanced(a, n, d)
  {
    LoopSatisfies(a, 1, n + 1, FairCells(n, d));
    if Satisfies(a, Loop(1, n + 1, FairCells(n, d))) {
      forall t: nat | 1 <= t <= n
        ensures -d <= 2 * HomeGames(a, n, t) - (n - 1) <= d
      {
        assert Satisfies(a, FairCells(n, d)(t));
        FairCellsSatisfied(a, n, d, t);
      }
    }
    if Balanced(a, n, d) {
      forall t: nat | 1 <= t <= n
        ensures Satisfies(a, FairCells(n, d)(t))
      {
        FairCellsSatisfied(a, n, d, t);
      }
    }
  }

  /** With a `max_diff`: the optional `home_0_0` and the two bounds per team. */
  lemma FairnessSatisfied(a: Assignment, n: int, d: int, fixHomeSym: bool)
    requires n >= 2 && n % 2 == 0
    ensures Satisfies(a, Fairness(n, Some(d), fixHomeSym)) <==>
      (fixHomeSym ==> a.home(0, 0)) && Balanced(a, n, d)
  {
    var teams := Loop(1, n + 1, FairCells(n, d));
    assert Fairness(n, Some(d), fixHomeSym) == HomeSymmetry(fixHomeSym) + teams;
    SatisfiesAppend(a, HomeSymmetry(fixHomeSym), teams);
    SatisfiesOne(a, AssertHome(0, 0));
    FairTeamsSatisfied(a, n, d);
  }

  // ---------------------------------------------------------------------------
  // The whole file
  // ---------------------------------------------------------------------------

  /** Nine blocks one after the other are satisfied when each is. */
  lemma SatisfiesBlocks(a: Assignment, b1: seq<Command>, b2: seq<Command>, b3: seq<Command>,
                        b4: seq<Command>, b5: seq<Command>, b6: seq<Command>, b7: seq<Command>,
                        b8: seq<Command>, b9: seq<Command>)
    ensures Satisfies(a, b1 + b2 + b3 + b4 + b5 + b6 + b7 + b8 + b9) <==>
      Satisfies(a, b1) && Satisfies(a, b2) && Satisfies(a, b3) && Satisfies(a, b4) && Satisfies(a, b5)
      && Satisfies(a, b6) && Satisfies(a, b7) && Satisfies(a, b8) && Satisfies(a, b9)
  {
    SatisfiesAppend(a, b1, b2);
    SatisfiesAppend(a, b1 + b2, b3);
    SatisfiesAppend(a, b1 + b2 + b3, b4);
    SatisfiesAppend(a, b1 + b2 + b3 + b4, b5);
    SatisfiesAppend(a, b1 + b2 + b3 + b4 + b5, b6);
    SatisfiesAppend(a, b1 + b2 + b3 + b4 + b5 + b6, b7);
    SatisfiesAppend(a, b1 + b2 + b3 + b4 + b5 + b6 + b7, b8);
    SatisfiesAppend(a, b1 + b2 + b3 + b4 + b5 + b6 + b7 + b8, b9);
  }

  /** The file's constraints, block by block; the header, declarations and footer add none. */
  lemma ScriptBlocks(a: Assignment, n: int, o: Options)
    ensures Satisfies(a, Script(n, o)) <==>
      Satisfies(a, Domains(n)) && Satisfies(a, Distincts(n)) && Satisfies(a, Counts(n, o.impliedCounts))
      && Satisfies(a, SymPins(n, o.useSym)) && Satisfies(a, Team1Pins(n, o.team1Pins))
      && Satisfies(a, Fairness(n, o.maxDiff, o.fixHomeSym))
  {
    DeclarationsHold(a, n, o.withHome);
    assert Satisfies(a, Header());
    assert Satisfies(a, Footer(n, o.withHome));
    SatisfiesBlocks(a, Header(), Declarations(n, o.withHome), Domains(n), Distincts(n),
      Counts(n, o.impliedCounts), SymPins(n, o.useSym), Team1Pins(n, o.team1Pins),
      Fairness(n, o.maxDiff, o.fixHomeSym), Footer(n, o.withHome));
  }

  /**
   * A model of the file is a period assignment of the circle method's weeks:
   * each match in one of `P` periods, distinct within a week, at most two
   * games per team per period, the pins asked for and, with a `max_diff`,
   * home games balanced within it. Whether the implied count lines are
   * written makes no difference.
   */
  lemma ScriptMeaning(a: Assignment, n: int, o: Options)
    requires n >= 2 && n % 2 == 0
    ensures Satisfies(a, Script(n, o)) <==>
      PeriodsInRange(a, n) && WeeksDistinct(a, n) && AllCountsOk(a, n, false)
      && (o.useSym ==> SymPinned(a, n)) && Team1Pinned(a, n, o.team1Pins)
      && (o.maxDiff.Some? ==> (o.fixHomeSym ==> a.home(0, 0)) && Balanced(a, n, o.maxDiff.value))
  {
    ScriptBlocks(a, n, o);
    DomainsSatisfied(a, n);
    DistinctsSatisfied(a, n);
    CountsSatisfied(a, n, false);
    CountsSatisfied(a, n, o.impliedCounts);
    if PeriodsInRange(a, n) {
      ImpliedCountsExcludeNothing(a, n);
    }
    SymPinsSatisfied(a, n, o.useSym);
    Team1PinsSatisfied(a, n, o.team1Pins);
    if o.maxDiff.Some? {
      FairnessSatisfied(a, n, o.maxDiff.value, o.fixHomeSym);
    } else {
      assert Fairness(n, o.maxDiff, o.fixHomeSym) == [];
    }
  }

  /** Rows of `c` elements laid end to end: element `m` of row `w` sits at `w * c + m`. */
  lemma RowMajor(hi: int, c: nat, rows: nat -> seq<Var>, w: nat, m: nat)
    requires forall k: nat :: k < hi ==> |rows(k)| == c
    requires w < hi && m < c
    ensures |Loop(0, hi, rows)| == hi * c
    ensures w * c + m < hi * c
    ensures Loop(0, hi, rows)[w * c + m] == rows(w)[m]
  {
    LoopLength(0, hi, rows, c);
    LoopAt(0, hi, rows, c, w, m);
    OffsetBelow(w, m, c, hi);
  }

  /** The variables of the `get-value` line in week-major order: variable `(w, m)` at `w * P + m`. */
  lemma GridAt(n: int, home: bool, w: nat, m: nat)
    requires n >= 2 && w < n - 1 && m < n / 2
    ensures |Grid(n, home)| == (n - 1) * (n / 2)
    ensures w * (n / 2) + m < (n - 1) * (n / 2)
    ensures Grid(n, home)[w * (n / 2) + m] == if home then Home(w, m) else Per(w, m)
  {
    var c: nat := n / 2;
    var rows := GridRows(n, home);
    forall k: nat | k < n - 1
      ensures |rows(k)| == c
    {
      SinglesAt(0, c, GridCell(home, k), 0);
    }
    RowMajor(n - 1, c, rows, w, m);
    SinglesAt(0, c, GridCell(home, w), m);
  }

  /** `get-value` asks for every `per` variable, then, with home games, every `home` variable, in the same order. */
  lemma GetValueOrder(n: int, withHome: bool, w: nat, m: nat)
    requires n >= 2 && w < n - 1 && m < n / 2
    ensures |AllVars(n, withHome)| == if withHome then 2 * ((n - 1) * (n / 2)) else (n - 1) * (n / 2)
    ensures w * (n / 2) + m < (n - 1) * (n / 2)
    ensures AllVars(n, withHome)[w * (n / 2) + m] == Per(w, m)
    ensures withHome ==> AllVars(n, withHome)[(n - 1) * (n / 2) + w * (n / 2) + m] == Home(w, m)
  {
    GridAt(n, false, w, m);
    GridAt(n, true, w, m);
  }
}
