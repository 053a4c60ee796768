/**
 * The fixed pairings of source/SAT/sat_dimacs.py: `circle_method_pairings`,
 * which keeps the circle method's pairs unsorted (team `n` may come first),
 * and the search `build_dimacs` runs for the match of a team in a week.
 */
module SatPairings {
  import opened Wrappers
  import opened RoundRobin
  import opened RoundRobinProps

  // ---------------------------------------------------------------------------
  // circle_method_pairings: the circle method without sorting the pairs
  // ---------------------------------------------------------------------------

  /** `list(zip(left, right))`; zip stops at the shorter list. */
  function Zip(left: seq<int>, right: seq<int>): (ps: seq<Pair>)
    ensures |ps| == if |left| < |right| then |left| else |right|
  {
    seq(if |left| < |right| then |left| else |right|,
        i requires 0 <= i < |left| && i < |right| => (left[i], right[i]))
  }

  /** One week of `circle_method_pairings`: `left` zipped with `right`, as built. */
  function PairingWeek(n: int, rot: seq<int>): seq<Pair>
    requires n >= 2 && |rot| == n - 1
  {
    Zip(Left(n, rot), Right(n, rot))
  }

  /** What `circle_method_pairings(n)` returns for an even `n >= 2`. */
  function Pairings(n: int): (weeks: seq<seq<Pair>>)
    requires n >= 2
    ensures |weeks| == n - 1
  {
    seq(n - 1, w requires 0 <= w < n - 1 => PairingWeek(n, Rotation(n, w)))
  }

  /**
   * The unsorted pairing of slot `i` in week `w` is the canonical one of
   * RoundRobin.Schedule, possibly the other way round (team `n` may come first).
   */
  lemma PairingsAt(n: int, w: int, i: int)
    requires n >= 2 && n % 2 == 0 && 0 <= w < n - 1 && 0 <= i < n / 2
    ensures |Pairings(n)[w]| == n / 2
    ensures Canon(Pairings(n)[w][i].0, Pairings(n)[w][i].1) == Slot(n, w, i)
  {
    var rot := Rotation(n, w);
    CircleWeekAt(n, rot, i);
    ScheduleAt(n, w, i);
    assert Pairings(n)[w] == Zip(Left(n, rot), Right(n, rot));
  }

  /** Every week of the pairings is a perfect matching of the teams 1..n. */
  lemma PairingsPlays(n: int, w: int, i: int, t: int)
    requires n >= 2 && n % 2 == 0 && 0 <= w < n - 1 && 0 <= i < n / 2
    ensures |Pairings(n)[w]| == n / 2
    ensures Plays(Pairings(n)[w][i], t) <==> Plays(Slot(n, w, i), t)
  {
    PairingsAt(n, w, i);
  }

  /** The week loop of `circle_method_pairings`. */
  method PairingsLoop(n: int, fixed: int, rot0: seq<int>) returns (out: seq<seq<Pair>>)
    requires n >= 2 && fixed == n && rot0 == Rotation(n, 0)
    ensures out == Pairings(n)
  {
    var rot := rot0;
    var W := n - 1;
    out := [];
    var w := 0;
    while w < W
      invariant 0 <= w <= W
      invariant rot == Rotation(n, w)
      invariant out == Pairings(n)[..w]
    {
      var week, next := PairingsWeek(n, fixed, rot, w);
      PrefixSnoc(Pairings(n), w);
      out := out + [week];
      rot := next;
      w := w + 1;
    }
    assert Pairings(n)[..W] == Pairings(n);
  }

  /** One pass of the week loop: week `w`'s pairs, then `rot` rotated right by one. */
  method PairingsWeek(n: int, fixed: int, rot: seq<int>, ghost w: int) returns (week: seq<Pair>, next: seq<int>)
    requires n >= 2 && fixed == n && 0 <= w < n - 1 && rot == Rotation(n, w)
    ensures week == Pairings(n)[w] && next == Rotation(n, w + 1)
  {
    var half := n / 2;
    assert 1 <= half <= n - 1;
    var left := rot[..half - 1] + [fixed];
    var right := Reverse(rot[half - 1..]);
    assert left == Left(n, rot) && right == Right(n, rot);
    week := Zip(left, right);
    assert week == PairingWeek(n, rot) == Pairings(n)[w];
    next := [rot[|rot| - 1]] + rot[..|rot| - 1];
    assert next == RotateRight(rot);
  }

  /**
   * `circle_method_pairings(n)` of the SAT encoder: an odd `n` raises
   * ValueError; an even `n <= 0` fails in the source on `teams[-1]`.
   */
  method CircleMethodPairings(n: int) returns (r: Result<seq<seq<Pair>>>)
    requires n % 2 != 0 || n > 0
    ensures n % 2 != 0 <==> r == Err(OddTeamCount)
    ensures n % 2 == 0 ==> r == Ok(Pairings(n))
  {
    if n % 2 != 0 {
      return Err(OddTeamCount);
    }
    var teams := Teams(n);
    TeamsSplit(n);
    var out := PairingsLoop(n, teams[|teams| - 1], teams[..|teams| - 1]);
    return Ok(out);
  }

  /** Index of the first pair of `week` involving team `t`; `|week|` when none does. */
  function FirstMatch(week: seq<Pair>, t: int): (m: nat)
    ensures m <= |week| && (m < |week| ==> Plays(week[m], t))
  {
    if week == [] then 0 else if Plays(week[0], t) then 0 else 1 + FirstMatch(week[1..], t)
  }

  lemma {:induction false} FirstMatchFirst(week: seq<Pair>, t: int, k: int)
    requires 0 <= k < |week| && Plays(week[k], t)
    ensures FirstMatch(week, t) <= k
  {
    if k > 0 && !Plays(week[0], t) {
      assert week[1..][k - 1] == week[k];
      FirstMatchFirst(week[1..], t, k - 1);
    }
  }

  /** The `mtw` search loop: the first match of `week` that involves `t`, if any. */
  method FindMatch(week: seq<Pair>, t: int) returns (mtw: Option<nat>)
    ensures mtw == if FirstMatch(week, t) < |week| then Some(FirstMatch(week, t)) else None
  {
    mtw := None;
    var m := 0;
    while m < |week|
      invariant 0 <= m <= |week|
      invariant forall k :: 0 <= k < m ==> !Plays(week[k], t)
    {
      var (a, b) := week[m];
      if a == t || b == t {
        mtw := Some(m);
        FirstMatchFirst(week, t, m);
        return;
      }
      m := m + 1;
    }
  }

  /** The match index of team `t` in week `w`: the slot where the circle method puts it. */
  function MatchOfTeam(n: int, w: int, t: int): (m: int)
    requires n >= 2 && 0 <= w < n - 1
  {
    FirstMatch(Pairings(n)[w], t)
  }

  /** Every team of 1..n is found, in the slot RoundRobinProps.SlotOfTeam names. */
  lemma MatchOfTeamFound(n: int, w: int, t: int)
    requires n >= 2 && n % 2 == 0 && 0 <= w < n - 1 && 1 <= t <= n
    ensures MatchOfTeam(n, w, t) == SlotOfTeam(n, w, t) < n / 2
  {
    var i := SlotOfTeam(n, w, t);
    var week := Pairings(n)[w];
    PairingsPlays(n, w, i, t);
    FirstMatchFirst(week, t, i);
    var m := FirstMatch(week, t);
    PairingsPlays(n, w, m, t);
    SlotsDisjoint(n, w, i, m, t);
  }

}
