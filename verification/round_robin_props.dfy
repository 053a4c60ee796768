/**
 * What the circle method guarantees, proved about RoundRobin.Schedule: each
 * week is a perfect matching of teams 1..n, no pair is played twice, and every
 * pair is played, so the n-1 weeks hold exactly the n(n-1)/2 pairs. These are
 * the facts the self-check of source/SMT/smt_period_core_bool.py:54-70 and the
 * `match_of` scan of source/SMT/smt2_export.py:50-58 test at run time.
 *
 * The proofs go through a closed form: after `w` turns (0 <= w < n-1) the turned
 * list holds at position k the team `Team(n, w, k)`.
 */
module RoundRobinProps {
  import opened RoundRobin

  /** Position `k` of the list after `w` right turns of [1..n-1]. */
  function Team(n: int, w: int, k: int): int {
    if k >= w then k - w + 1 else k - w + n
  }

  lemma {:induction false} TeamsAt(k: nat, i: nat)
    requires i < k
    ensures Teams(k)[i] == i + 1
  {
    if i < k - 1 {
      TeamsAt(k - 1, i);
    }
  }

  /** Closed form of the turned list. */
  lemma {:induction false} RotationAt(n: int, w: nat, k: nat)
    requires n >= 2 && w < n - 1 && k < n - 1
    ensures Rotation(n, w)[k] == Team(n, w, k)
  {
    if w == 0 {
      TeamsAt(n - 1, k);
    } else {
      var prev := Rotation(n, w - 1);
      assert Rotation(n, w) == [prev[n - 2]] + prev[..n - 2];
      if k == 0 {
        RotationAt(n, w - 1, n - 2);
      } else {
        RotationAt(n, w - 1, k - 1);
      }
    }
  }

  /** The pair in slot `i` of week `w`, in closed form. */
  function Slot(n: int, w: int, i: int): Pair {
    Canon(if i < n / 2 - 1 then Team(n, w, i) else n, Team(n, w, n - 2 - i))
  }

  /** Slot `i` of the week whose turned list is `rot`. */
  lemma CircleWeekAt(n: int, rot: seq<int>, i: nat)
    requires n >= 2 && n % 2 == 0 && |rot| == n - 1 && i < n / 2
    ensures |CircleWeek(n, rot)| == n / 2
    ensures CircleWeek(n, rot)[i] == Canon(if i < n / 2 - 1 then rot[i] else n, rot[n - 2 - i])
  {
    var h := n / 2;
    assert n == 2 * h;
    var left, right := Left(n, rot), Right(n, rot);
    assert |left| == h && |right| == h;
    assert right[i] == rot[n - 2 - i];
    if i < h - 1 {
      assert left[i] == rot[i];
    } else {
      assert left[i] == n;
    }
  }

  /** `circle_method_pairs(n)[w][i]` is `Slot(n, w, i)`; there are n-1 weeks of n/2 pairs. */
  lemma ScheduleAt(n: int, w: nat, i: nat)
    requires n >= 2 && n % 2 == 0 && w < n - 1 && i < n / 2
    ensures |Schedule(n)| == n - 1 && |Schedule(n)[w]| == n / 2
    ensures Schedule(n)[w][i] == Slot(n, w, i)
  {
    var rot := Rotation(n, w);
    assert Schedule(n)[w] == CircleWeek(n, rot);
    CircleWeekAt(n, rot, i);
    RotationAt(n, w, n - 2 - i);
    if i < n / 2 - 1 {
      RotationAt(n, w, i);
    }
  }

  // ---------------------------------------------------------------------------
  // Arithmetic on the closed form
  // ---------------------------------------------------------------------------

  lemma TeamRange(n: int, w: int, k: int)
    requires n >= 2 && 0 <= w < n - 1 && 0 <= k < n - 1
    ensures 1 <= Team(n, w, k) <= n - 1
  {
  }

  /** Within one week, different positions hold different teams. */
  lemma TeamInjective(n: int, w: int, k1: int, k2: int)
    requires n >= 2 && 0 <= w < n - 1 && 0 <= k1 < n - 1 && 0 <= k2 < n - 1
    requires Team(n, w, k1) == Team(n, w, k2)
    ensures k1 == k2
  {
  }

  /** The position at which team `t` (1 <= t <= n-1) stands after `w` turns. */
  function PositionOf(n: int, w: int, t: int): (k: int)
    requires n >= 2 && 0 <= w < n - 1 && 1 <= t <= n - 1
    ensures 0 <= k < n - 1 && Team(n, w, k) == t
  {
    if t - 1 + w < n - 1 then t - 1 + w else t - 1 + w - (n - 1)
  }

  /** The slot whose pair uses position `k` of the turned list. */
  function SlotOfPosition(n: int, k: int): (i: int)
    requires n >= 2 && n % 2 == 0 && 0 <= k < n - 1
    ensures 0 <= i < n / 2
    ensures k == n - 2 - i || (i < n / 2 - 1 && k == i)
  {
    if k < n / 2 - 1 then k else n - 2 - k
  }

  /** Each slot holds two different teams of 1..n, smaller first. */
  lemma SlotValid(n: int, w: int, i: int)
    requires n >= 2 && n % 2 == 0 && 0 <= w < n - 1 && 0 <= i < n / 2
    ensures 1 <= Slot(n, w, i).0 < Slot(n, w, i).1 <= n
  {
    var h := n / 2;
    assert n == 2 * h;
    TeamRange(n, w, n - 2 - i);
    if i < h - 1 {
      TeamRange(n, w, i);
      if Team(n, w, i) == Team(n, w, n - 2 - i) {
        TeamInjective(n, w, i, n - 2 - i);
      }
    }
  }

  /** Team `t` is one of the two teams of `Slot(n, w, i)`. */
  predicate Plays(p: Pair, t: int) { p.0 == t || p.1 == t }

  /** A team plays in at most one slot of a week. */
  lemma SlotsDisjoint(n: int, w: int, i1: int, i2: int, t: int)
    requires n >= 2 && n % 2 == 0 && 0 <= w < n - 1
    requires 0 <= i1 < n / 2 && 0 <= i2 < n / 2
    requires Plays(Slot(n, w, i1), t) && Plays(Slot(n, w, i2), t)
    ensures i1 == i2
  {
    var h := n / 2;
    assert n == 2 * h;
    TeamRange(n, w, n - 2 - i1);
    TeamRange(n, w, n - 2 - i2);
    if i1 < h - 1 { TeamRange(n, w, i1); }
    if i2 < h - 1 { TeamRange(n, w, i2); }
    if t != n {
      var k1 := if i1 < h - 1 && Team(n, w, i1) == t then i1 else n - 2 - i1;
      var k2 := if i2 < h - 1 && Team(n, w, i2) == t then i2 else n - 2 - i2;
      TeamInjective(n, w, k1, k2);
    }
  }

  /** Every team of 1..n plays in some slot of every week. */
  function SlotOfTeam(n: int, w: int, t: int): (i: int)
    requires n >= 2 && n % 2 == 0 && 0 <= w < n - 1 && 1 <= t <= n
    ensures 0 <= i < n / 2 && Plays(Slot(n, w, i), t)
  {
    if t == n then n / 2 - 1 else SlotOfPosition(n, PositionOf(n, w, t))
  }

  /** The sum of the two turned teams of slot `i < n/2-1` identifies the week. */
  lemma SlotSum(n: int, w: int, i: int)
    requires n >= 2 && n % 2 == 0 && 0 <= w < n - 1 && 0 <= i < n / 2 - 1
    ensures Team(n, w, i) + Team(n, w, n - 2 - i) == n - 2 * w ||
            Team(n, w, i) + Team(n, w, n - 2 - i) == n - 2 * w + (n - 1) ||
            Team(n, w, i) + Team(n, w, n - 2 - i) == n - 2 * w + 2 * (n - 1)
  {
  }

  /**
   * In week `w` the two turned teams of every slot but the last sum to
   * `n - 2w`, modulo `n - 1`; this is that sum, lifted into the range of `a + b`.
   */
  function SumTarget(n: int, s: int): int {
    if s % 2 == 1 then 2 * n - 1 else if s <= n then n else 3 * n - 2
  }

  /** The week in which the circle method schedules the pair `(a, b)`. */
  function WeekOfPair(n: int, a: int, b: int): (w: int)
    requires n >= 2 && n % 2 == 0 && 1 <= a < b <= n
    ensures 0 <= w < n - 1
  {
    if b == n then
      (if a <= n / 2 then n / 2 - a else n / 2 + n - 1 - a)
    else
      (SumTarget(n, a + b) - (a + b)) / 2
  }

  /** The slot of that week holding `(a, b)`. */
  function SlotOfPair(n: int, a: int, b: int): (i: int)
    requires n >= 2 && n % 2 == 0 && 1 <= a < b <= n
    ensures 0 <= i < n / 2
  {
    if b == n then n / 2 - 1
    else
      var w := WeekOfPair(n, a, b);
      var ka, kb := PositionOf(n, w, a), PositionOf(n, w, b);
      if ka < kb then SlotOfPosition(n, ka) else SlotOfPosition(n, kb)
  }

  /** In the week given above, two teams below `n` stand at positions summing to `n - 2`. */
  lemma PositionsOfPair(n: int, a: int, b: int)
    requires n >= 2 && n % 2 == 0 && 1 <= a < b < n
    ensures PositionOf(n, WeekOfPair(n, a, b), a) + PositionOf(n, WeekOfPair(n, a, b), b) == n - 2
  {
    WeekOfPairTwice(n, a, b);
  }

  lemma WeekOfPairTwice(n: int, a: int, b: int)
    requires n >= 2 && n % 2 == 0 && 1 <= a < b < n
    ensures 2 * WeekOfPair(n, a, b) == SumTarget(n, a + b) - (a + b)
  {
  }

  /** Every pair of distinct teams is scheduled, at the slot given above. */
  lemma SlotOfPairCorrect(n: int, a: int, b: int)
    requires n >= 2 && n % 2 == 0 && 1 <= a < b <= n
    ensures Slot(n, WeekOfPair(n, a, b), SlotOfPair(n, a, b)) == (a, b)
  {
    if b != n {
      PositionsOfPair(n, a, b);
    }
  }

  /** A pair below `n` whose sum is that of week `w` belongs to week `w`. */
  lemma WeekOfSum(n: int, w: int, a: int, b: int)
    requires n >= 2 && n % 2 == 0 && 0 <= w < n - 1 && 1 <= a < b < n
    requires a + b == n - 2 * w || a + b == n - 2 * w + (n - 1) || a + b == n - 2 * w + 2 * (n - 1)
    ensures WeekOfPair(n, a, b) == w
  {
    WeekOfPairTwice(n, a, b);
  }

  lemma PositionOfTeam(n: int, w: int, k: int)
    requires n >= 2 && 0 <= w < n - 1 && 0 <= k < n - 1
    ensures 1 <= Team(n, w, k) <= n - 1 && PositionOf(n, w, Team(n, w, k)) == k
  {
    TeamRange(n, w, k);
    TeamInjective(n, w, PositionOf(n, w, Team(n, w, k)), k);
  }

  /** `WeekOfPair` and `SlotOfPair` invert `Slot`: they recover the week and slot of every match. */
  lemma SlotRoundTrip(n: int, w: int, i: int)
    requires n >= 2 && n % 2 == 0 && 0 <= w < n - 1 && 0 <= i < n / 2
    ensures 1 <= Slot(n, w, i).0 < Slot(n, w, i).1 <= n
    ensures WeekOfPair(n, Slot(n, w, i).0, Slot(n, w, i).1) == w
    ensures SlotOfPair(n, Slot(n, w, i).0, Slot(n, w, i).1) == i
  {
    SlotValid(n, w, i);
    if i < n / 2 - 1 {
      var p := Slot(n, w, i);
      assert p == Canon(Team(n, w, i), Team(n, w, n - 2 - i));
      SlotSum(n, w, i);
      WeekOfSum(n, w, p.0, p.1);
      PositionOfTeam(n, w, i);
      PositionOfTeam(n, w, n - 2 - i);
    }
  }

  /** A pair occupies at most one slot of the whole schedule. */
  lemma SlotInjective(n: int, w1: int, i1: int, w2: int, i2: int)
    requires n >= 2 && n % 2 == 0
    requires 0 <= w1 < n - 1 && 0 <= i1 < n / 2 && 0 <= w2 < n - 1 && 0 <= i2 < n / 2
    requires Slot(n, w1, i1) == Slot(n, w2, i2)
    ensures w1 == w2 && i1 == i2
  {
    SlotRoundTrip(n, w1, i1);
    SlotRoundTrip(n, w2, i2);
  }

  // ---------------------------------------------------------------------------
  // The same facts stated on the schedule itself
  // ---------------------------------------------------------------------------

  /** Every pair of `circle_method_pairs(n)` is two different teams of 1..n, smaller first. */
  lemma ScheduleValid(n: int, w: nat, i: nat)
    requires n >= 2 && n % 2 == 0 && w < |Schedule(n)| && i < |Schedule(n)[w]|
    ensures 1 <= Schedule(n)[w][i].0 < Schedule(n)[w][i].1 <= n
  {
    ScheduleAt(n, w, 0);
    ScheduleAt(n, w, i);
    SlotValid(n, w, i);
  }

  /** Each week is a perfect matching: every team of 1..n is in exactly one pair. */
  lemma ScheduleWeekMatching(n: int, w: nat, t: int)
    requires n >= 2 && n % 2 == 0 && w < n - 1 && 1 <= t <= n
    ensures |Schedule(n)[w]| == n / 2
    ensures exists i :: 0 <= i < n / 2 && Plays(Schedule(n)[w][i], t)
    ensures forall i1, i2 ::
      (0 <= i1 < n / 2 && 0 <= i2 < n / 2 &&
       Plays(Schedule(n)[w][i1], t) && Plays(Schedule(n)[w][i2], t)) ==> i1 == i2
  {
    var i := SlotOfTeam(n, w, t);
    ScheduleAt(n, w, i);
    forall i1, i2 | 0 <= i1 < n / 2 && 0 <= i2 < n / 2 &&
      Plays(Schedule(n)[w][i1], t) && Plays(Schedule(n)[w][i2], t)
      ensures i1 == i2
    {
      ScheduleAt(n, w, i1);
      ScheduleAt(n, w, i2);
      SlotsDisjoint(n, w, i1, i2, t);
    }
  }

  /** Every pair of distinct teams meets in some week. */
  lemma ScheduleCovers(n: int, a: int, b: int)
    requires n >= 2 && n % 2 == 0 && 1 <= a < b <= n
    ensures exists w, i ::
      0 <= w < |Schedule(n)| && 0 <= i < |Schedule(n)[w]| && Schedule(n)[w][i] == (a, b)
  {
    var w, i := WeekOfPair(n, a, b), SlotOfPair(n, a, b);
    ScheduleAt(n, w, i);
    SlotOfPairCorrect(n, a, b);
  }

  /** No pair meets twice: equal entries of the schedule are the same entry. */
  lemma ScheduleNoRepeat(n: int, w1: nat, i1: nat, w2: nat, i2: nat)
    requires n >= 2 && n % 2 == 0
    requires w1 < |Schedule(n)| && i1 < |Schedule(n)[w1]|
    requires w2 < |Schedule(n)| && i2 < |Schedule(n)[w2]|
    requires Schedule(n)[w1][i1] == Schedule(n)[w2][i2]
    ensures w1 == w2 && i1 == i2
  {
    ScheduleAt(n, w1, 0);
    ScheduleAt(n, w2, 0);
    ScheduleAt(n, w1, i1);
    ScheduleAt(n, w2, i2);
    SlotInjective(n, w1, i1, w2, i2);
  }

  /** There are n-1 weeks of n/2 matches: n(n-1)/2 matches in all. */
  lemma ScheduleShape(n: int)
    requires n >= 2 && n % 2 == 0
    ensures |Schedule(n)| == n - 1
    ensures forall w :: 0 <= w < n - 1 ==> |Schedule(n)[w]| == n / 2
    ensures (n - 1) * (n / 2) == n * (n - 1) / 2
  {
    forall w | 0 <= w < n - 1
      ensures |Schedule(n)[w]| == n / 2
    {
      ScheduleAt(n, w, 0);
    }
    var h := n / 2;
    assert n == 2 * h;
    assert n * (n - 1) == 2 * ((n - 1) * h);
  }

  /** Team `n` meets `n/2 - w` (or `n/2 - w + n - 1` once that falls below 1) in the last slot of week `w`. */
  lemma FixedTeamOpponent(n: int, w: nat)
    requires n >= 2 && n % 2 == 0 && w < n - 1
    ensures |Schedule(n)[w]| == n / 2
    ensures Schedule(n)[w][n / 2 - 1] ==
      (if w <= n / 2 - 1 then n / 2 - w else n / 2 - w + n - 1, n)
  {
    ScheduleAt(n, w, n / 2 - 1);
    var h := n / 2;
    assert n == 2 * h;
    TeamRange(n, w, h - 1);
  }
}
