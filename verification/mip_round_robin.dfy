/**
 * `generate_round_robin` of source/MIP/run.py: the match list handed to the
 * MIP models. It turns the same list as the circle method of RoundRobin, but
 * puts the fixed team at the front of `left`, numbers the weeks from 1 and
 * yields one flat list of (team, team, week) triples, either as paired or,
 * when `unordered` is set, smaller team first.
 *
 * The main fact proved: for even `n` its week `w` is circle-method week
 * `w + n/2` (mod n-1) with the slots in reverse order, so it inherits every
 * property proved in RoundRobinProps.
 */
module MipRoundRobin {
  import opened RoundRobin
  import opened RoundRobinProps

  type Match = (int, int, int)

  /** One appended triple: `(min(i, j), max(i, j), w)` or `(i, j, w)`. */
  function MatchOf(a: int, b: int, week: int, unordered: bool): (m: Match)
    ensures m.2 == week
    ensures unordered ==> m.0 <= m.1 && ((m.0 == a && m.1 == b) || (m.0 == b && m.1 == a))
    ensures !unordered ==> m.0 == a && m.1 == b
  {
    if unordered then (if a <= b then (a, b, week) else (b, a, week)) else (a, b, week)
  }

  /** `left` of one week: the fixed team, then the first `n/2-1` turned teams. */
  function MipLeft(n: int, rot: seq<int>): seq<int>
    requires n >= 2 && |rot| == n - 1
  {
    [n] + rot[..n / 2 - 1]
  }

  /** `zip(left, right)` as triples of week `week`; `zip` stops at the shorter side. */
  function ZipMatches(left: seq<int>, right: seq<int>, week: int, unordered: bool): (ms: seq<Match>)
    ensures |ms| == if |left| < |right| then |left| else |right|
  {
    seq(if |left| < |right| then |left| else |right|,
        i requires 0 <= i < |left| && i < |right| => MatchOf(left[i], right[i], week, unordered))
  }

  /**
   * Slot `i` of week `w + 1` in closed form: the fixed team `n` meets the team
   * at the last position of the turned list, and position `i - 1` meets
   * position `n - 2 - i`.
   */
  function MipSlot(n: int, unordered: bool, w: int, i: int): Match {
    MatchOf(if i == 0 then n else Team(n, w, i - 1), Team(n, w, n - 2 - i), w + 1, unordered)
  }

  /** The `n/2` triples of week `w + 1`. */
  function MipWeek(n: int, unordered: bool, w: nat): (ms: seq<Match>)
    requires n >= 2 && w < n - 1
    ensures |ms| == n / 2
  {
    seq(n / 2, i requires 0 <= i < n / 2 => MipSlot(n, unordered, w, i))
  }

  /** The triples of the first `k` weeks. */
  function MipPrefix(n: int, unordered: bool, k: nat): seq<Match>
    requires n >= 1 && k <= n - 1
  {
    if k == 0 then [] else MipPrefix(n, unordered, k - 1) + MipWeek(n, unordered, k - 1)
  }

  /** What `generate_round_robin(n, unordered)` returns. */
  function MipMatches(n: int, unordered: bool): seq<Match>
    requires n >= 1
  {
    MipPrefix(n, unordered, n - 1)
  }

  /**
   * `generate_round_robin(n, unordered)`. An `n <= 0` fails in the source on
   * `teams[-1]` of an empty list.
   */
  method GenerateRoundRobin(n: int, unordered: bool) returns (matches: seq<Match>)
    requires n >= 1
    ensures matches == MipMatches(n, unordered)
  {
    var teams := Teams(n);
    var fixed := teams[|teams| - 1];
    var rotating := teams[..|teams| - 1];
    if n >= 2 {
      TeamsSplit(n);
    }
    matches := MipWeeksLoop(n, unordered, fixed, rotating);
  }

  /** The weekly loop of `generate_round_robin`, from the unturned list on. */
  method MipWeeksLoop(n: int, unordered: bool, fixed: int, rotating0: seq<int>) returns (matches: seq<Match>)
    requires n >= 1 && |rotating0| == n - 1
    requires n >= 2 ==> fixed == n && rotating0 == Rotation(n, 0)
    ensures matches == MipMatches(n, unordered)
  {
    var rotating := rotating0;
    var half := n / 2;
    matches := [];
    var w := 1;
    while w < n
      invariant 1 <= w <= n && |rotating| == n - 1
      invariant n >= 2 ==> fixed == n && rotating == Rotation(n, w - 1)
      invariant matches == MipPrefix(n, unordered, w - 1)
    {
      var week := OneMipWeek(n, unordered, w, half, fixed, rotating);
      matches := matches + week;
      rotating := RotateRight(rotating);
      w := w + 1;
    }
  }

  /** The body of one turn of the weekly loop: the triples of week `w`. */
  method OneMipWeek(n: int, unordered: bool, w: int, half: int, fixed: int, rotating: seq<int>)
    returns (week: seq<Match>)
    requires 2 <= n && 1 <= w < n && half == n / 2
    requires fixed == n && rotating == Rotation(n, w - 1)
    ensures week == MipWeek(n, unordered, w - 1)
  {
    assert 1 <= half <= n - 1;
    var left := [fixed] + rotating[..half - 1];
    var right := Reverse(rotating[half - 1..]);
    week := ZipWeek(left, right, w, unordered);
    assert left == MipLeft(n, rotating) && right == Right(n, rotating);
    MipWeekIsZip(n, unordered, w - 1);
  }

  /** The inner loop of one week: one triple per pair of `zip(left, right)`. */
  method ZipWeek(left: seq<int>, right: seq<int>, week: int, unordered: bool) returns (ms: seq<Match>)
    ensures ms == ZipMatches(left, right, week, unordered)
  {
    ms := [];
    var i := 0;
    while i < |left| && i < |right|
      invariant 0 <= i <= |left| && i <= |right|
      invariant ms == ZipMatches(left, right, week, unordered)[..i]
    {
      var a, b := left[i], right[i];
      if unordered {
        ms := ms + [(if a <= b then a else b, if a <= b then b else a, week)];
      } else {
        ms := ms + [(a, b, week)];
      }
      i := i + 1;
    }
  }

  // ---------------------------------------------------------------------------
  // Shape of the list
  // ---------------------------------------------------------------------------

  lemma MulStep(k: int, h: int)
    ensures (k + 1) * h == k * h + h
  {
  }

  lemma {:induction false} MipPrefixLength(n: int, unordered: bool, k: nat)
    requires n >= 1 && k <= n - 1
    ensures |MipPrefix(n, unordered, k)| == k * (n / 2)
  {
    if k > 0 {
      MipPrefixLength(n, unordered, k - 1);
      MulStep(k - 1, n / 2);
    }
  }

  /** `generate_round_robin` yields `n/2` triples for each of the `n-1` weeks. */
  lemma MipShape(n: int, unordered: bool)
    requires n >= 1
    ensures |MipMatches(n, unordered)| == (n - 1) * (n / 2)
  {
    MipPrefixLength(n, unordered, n - 1);
  }

  /** Week `w + 1` fills the `n/2` entries from `|MipPrefix(n, unordered, w)|` on. */
  lemma {:induction false} MipPrefixAt(n: int, unordered: bool, k: nat, w: nat, i: nat)
    requires n >= 2 && k <= n - 1 && w < k && i < n / 2
    ensures |MipPrefix(n, unordered, w)| + i < |MipPrefix(n, unordered, k)|
    ensures MipPrefix(n, unordered, k)[|MipPrefix(n, unordered, w)| + i] == MipSlot(n, unordered, w, i)
  {
    var before := MipPrefix(n, unordered, k - 1);
    assert MipPrefix(n, unordered, k) == before + MipWeek(n, unordered, k - 1);
    if w < k - 1 {
      MipPrefixAt(n, unordered, k - 1, w, i);
    }
  }

  /** Both modes produce lists of the same length. */
  lemma {:induction false} MipPrefixModes(n: int, k: nat)
    requires n >= 1 && k <= n - 1
    ensures |MipPrefix(n, true, k)| == |MipPrefix(n, false, k)|
  {
    if k > 0 {
      MipPrefixModes(n, k - 1);
    }
  }

  /** The week (counting from 0) that entry `j` of the first `k` weeks belongs to. */
  function WeekIn(n: int, unordered: bool, k: nat, j: nat): (w: nat)
    requires n >= 2 && k <= n - 1 && j < |MipPrefix(n, unordered, k)|
    ensures w < k
    ensures |MipPrefix(n, unordered, w)| <= j < |MipPrefix(n, unordered, w)| + n / 2
  {
    if j >= |MipPrefix(n, unordered, k - 1)| then k - 1 else WeekIn(n, unordered, k - 1, j)
  }

  /** The week (counting from 0) of entry `j` of `generate_round_robin(n, unordered)`. */
  function EntryWeek(n: int, unordered: bool, j: nat): (w: nat)
    requires n >= 2 && j < |MipMatches(n, unordered)|
    ensures w < n - 1
  {
    WeekIn(n, unordered, n - 1, j)
  }

  /** The slot of entry `j` within its week. */
  function EntrySlot(n: int, unordered: bool, j: nat): (i: nat)
    requires n >= 2 && j < |MipMatches(n, unordered)|
    ensures i < n / 2
  {
    j - |MipPrefix(n, unordered, EntryWeek(n, unordered, j))|
  }

  /** Entry `j` of `generate_round_robin(n, unordered)` in closed form. */
  lemma MipEntry(n: int, unordered: bool, j: nat)
    requires n >= 2 && j < |MipMatches(n, unordered)|
    ensures MipMatches(n, unordered)[j] ==
      MipSlot(n, unordered, EntryWeek(n, unordered, j), EntrySlot(n, unordered, j))
  {
    MipPrefixAt(n, unordered, n - 1, EntryWeek(n, unordered, j), EntrySlot(n, unordered, j));
  }

  /** Entry `j` sits in week `j / (n/2)` at slot `j % (n/2)`. */
  lemma EntryPosition(n: int, unordered: bool, j: nat)
    requires n >= 2 && j < |MipMatches(n, unordered)|
    ensures j == EntryWeek(n, unordered, j) * (n / 2) + EntrySlot(n, unordered, j)
  {
    MipPrefixLength(n, unordered, EntryWeek(n, unordered, j));
  }

  /** What the loop zips in week `w + 1` is `MipWeek(n, unordered, w)`, for odd `n` too. */
  lemma MipWeekIsZip(n: int, unordered: bool, w: nat)
    requires n >= 2 && w < n - 1
    ensures ZipMatches(MipLeft(n, Rotation(n, w)), Right(n, Rotation(n, w)), w + 1, unordered) ==
      MipWeek(n, unordered, w)
  {
    var rot := Rotation(n, w);
    var zipped := ZipMatches(MipLeft(n, rot), Right(n, rot), w + 1, unordered);
    forall i | 0 <= i < n / 2
      ensures zipped[i] == MipSlot(n, unordered, w, i)
    {
      assert Right(n, rot)[i] == rot[n - 2 - i];
      RotationAt(n, w, n - 2 - i);
      if i > 0 {
        assert MipLeft(n, rot)[i] == rot[i - 1];
        RotationAt(n, w, i - 1);
      }
    }
  }

  // ---------------------------------------------------------------------------
  // The same schedule as the circle method
  // ---------------------------------------------------------------------------

  /** The teams of a triple as an unordered pair, smaller first. */
  function PairOf(m: Match): (p: Pair)
    ensures p == Canon(m.0, m.1)
  {
    Canon(m.0, m.1)
  }

  /** The circle-method week that MIP week `w + 1` reproduces. */
  function CircleWeekOf(n: int, w: int): (w': int)
    requires n >= 2 && n % 2 == 0 && 0 <= w < n - 1
    ensures 0 <= w' < n - 1
  {
    if w + n / 2 < n - 1 then w + n / 2 else w + n / 2 - (n - 1)
  }

  lemma CircleWeekOfInjective(n: int, w1: int, w2: int)
    requires n >= 2 && n % 2 == 0 && 0 <= w1 < n - 1 && 0 <= w2 < n - 1
    requires CircleWeekOf(n, w1) == CircleWeekOf(n, w2)
    ensures w1 == w2
  {
  }

  /** The position that holds, after `CircleWeekOf(n, w)` turns, what position `k` holds after `w`. */
  function ShiftedPosition(n: int, k: int): int {
    if k + n / 2 < n - 1 then k + n / 2 else k + n / 2 - (n - 1)
  }

  lemma TeamShift(n: int, w: int, k: int)
    requires n >= 2 && n % 2 == 0 && 0 <= w < n - 1 && 0 <= k < n - 1
    ensures 0 <= ShiftedPosition(n, k) < n - 1
    ensures Team(n, CircleWeekOf(n, w), ShiftedPosition(n, k)) == Team(n, w, k)
  {
    var h := n / 2;
    assert n == 2 * h;
  }

  /**
   * For even `n`, slot `i` of MIP week `w + 1`, smaller team first, is slot
   * `n/2 - 1 - i` of circle-method week `CircleWeekOf(n, w)`.
   */
  lemma MipIsCircle(n: int, unordered: bool, w: nat, i: nat)
    requires n >= 2 && n % 2 == 0 && w < n - 1 && i < n / 2
    ensures PairOf(MipSlot(n, unordered, w, i)) == Slot(n, CircleWeekOf(n, w), n / 2 - 1 - i)
    ensures MipSlot(n, unordered, w, i).2 == w + 1
  {
    var h := n / 2;
    assert n == 2 * h;
    TeamShift(n, w, n - 2 - i);
    if i > 0 {
      TeamShift(n, w, i - 1);
    }
    TeamRange(n, w, n - 2 - i);
  }

  /** Both modes list the same matches; `unordered` only puts the smaller team first. */
  lemma MipModes(n: int, j: nat)
    requires n >= 1 && j < |MipMatches(n, false)|
    ensures |MipMatches(n, true)| == |MipMatches(n, false)|
    ensures PairOf(MipMatches(n, false)[j]) == (MipMatches(n, true)[j].0, MipMatches(n, true)[j].1)
    ensures MipMatches(n, true)[j].2 == MipMatches(n, false)[j].2
  {
    MipPrefixModes(n, n - 1);
    if n >= 2 {
      var w, i := EntryWeek(n, false, j), EntrySlot(n, false, j);
      assert MipMatches(n, false)[j] == MipSlot(n, false, w, i) by {
        MipEntry(n, false, j);
      }
      assert MipMatches(n, true)[j] == MipSlot(n, true, w, i) by {
        MipPrefixModes(n, w);
        MipPrefixAt(n, true, n - 1, w, i);
      }
    }
  }

  /** Without `unordered`, every week opens with the fixed team `n`. */
  lemma MipFixedFirst(n: int, w: nat)
    requires n >= 2 && w < n - 1
    ensures w * (n / 2) < |MipMatches(n, false)|
    ensures MipMatches(n, false)[w * (n / 2)] == (n, Team(n, w, n - 2), w + 1)
  {
    MipPrefixAt(n, false, n - 1, w, 0);
    MipPrefixLength(n, false, w);
  }

  /** Every triple holds two different teams of 1..n, and a week of 1..n-1. */
  lemma MipValid(n: int, unordered: bool, j: nat)
    requires n >= 2 && n % 2 == 0 && j < |MipMatches(n, unordered)|
    ensures 1 <= PairOf(MipMatches(n, unordered)[j]).0 < PairOf(MipMatches(n, unordered)[j]).1 <= n
    ensures 1 <= MipMatches(n, unordered)[j].2 <= n - 1
    ensures unordered ==> MipMatches(n, unordered)[j].0 < MipMatches(n, unordered)[j].1
  {
    var w, i := EntryWeek(n, unordered, j), EntrySlot(n, unordered, j);
    var m := MipSlot(n, unordered, w, i);
    assert MipMatches(n, unordered)[j] == m by {
      MipEntry(n, unordered, j);
    }
    assert 1 <= PairOf(m).0 < PairOf(m).1 <= n && m.2 == w + 1 by {
      MipIsCircle(n, unordered, w, i);
      SlotValid(n, CircleWeekOf(n, w), n / 2 - 1 - i);
    }
  }

  /** The MIP week (counted from 0) in which the pair `(a, b)` meets. */
  function MipWeekOfPair(n: int, a: int, b: int): (w: int)
    requires n >= 2 && n % 2 == 0 && 1 <= a < b <= n
    ensures 0 <= w < n - 1
  {
    var c := WeekOfPair(n, a, b);
    if c >= n / 2 then c - n / 2 else c + n / 2 - 1
  }

  /** The slot of that week holding the pair `(a, b)`. */
  function MipSlotOfPair(n: int, a: int, b: int): (i: int)
    requires n >= 2 && n % 2 == 0 && 1 <= a < b <= n
    ensures 0 <= i < n / 2
  {
    n / 2 - 1 - SlotOfPair(n, a, b)
  }

  /** `MipWeekOfPair` undoes `CircleWeekOf`. */
  lemma CircleWeekOfInverse(n: int, w: int, a: int, b: int)
    requires n >= 2 && n % 2 == 0 && 0 <= w < n - 1 && 1 <= a < b <= n
    requires WeekOfPair(n, a, b) == CircleWeekOf(n, w)
    ensures MipWeekOfPair(n, a, b) == w
  {
  }

  /** The week and slot of every triple are recovered from its two teams. */
  lemma MipSlotRoundTrip(n: int, unordered: bool, w: nat, i: nat)
    requires n >= 2 && n % 2 == 0 && w < n - 1 && i < n / 2
    ensures 1 <= PairOf(MipSlot(n, unordered, w, i)).0 < PairOf(MipSlot(n, unordered, w, i)).1 <= n
    ensures MipWeekOfPair(n, PairOf(MipSlot(n, unordered, w, i)).0, PairOf(MipSlot(n, unordered, w, i)).1) == w
    ensures MipSlotOfPair(n, PairOf(MipSlot(n, unordered, w, i)).0, PairOf(MipSlot(n, unordered, w, i)).1) == i
  {
    var c, s := CircleWeekOf(n, w), n / 2 - 1 - i;
    var p := PairOf(MipSlot(n, unordered, w, i));
    assert p == Slot(n, c, s) by {
      MipIsCircle(n, unordered, w, i);
    }
    SlotRoundTrip(n, c, s);
    CircleWeekOfInverse(n, w, p.0, p.1);
  }

  /** Every pair of distinct teams is the triple at the week and slot computed above. */
  lemma MipSlotOfPairCorrect(n: int, unordered: bool, a: int, b: int)
    requires n >= 2 && n % 2 == 0 && 1 <= a < b <= n
    ensures PairOf(MipSlot(n, unordered, MipWeekOfPair(n, a, b), MipSlotOfPair(n, a, b))) == (a, b)
  {
    var w, i := MipWeekOfPair(n, a, b), MipSlotOfPair(n, a, b);
    assert CircleWeekOf(n, w) == WeekOfPair(n, a, b) && n / 2 - 1 - i == SlotOfPair(n, a, b) by {
      var h := n / 2;
      assert n == 2 * h;
    }
    SlotOfPairCorrect(n, a, b);
    MipIsCircle(n, unordered, w, i);
  }

  /** Every pair of distinct teams meets in some triple. */
  lemma MipCovers(n: int, unordered: bool, a: int, b: int)
    requires n >= 2 && n % 2 == 0 && 1 <= a < b <= n
    ensures exists j ::
      0 <= j < |MipMatches(n, unordered)| && PairOf(MipMatches(n, unordered)[j]) == (a, b)
  {
    var w, i := MipWeekOfPair(n, a, b), MipSlotOfPair(n, a, b);
    MipSlotOfPairCorrect(n, unordered, a, b);
    var j := |MipPrefix(n, unordered, w)| + i;
    assert 0 <= j < |MipMatches(n, unordered)| && MipMatches(n, unordered)[j] == MipSlot(n, unordered, w, i) by {
      MipPrefixAt(n, unordered, n - 1, w, i);
    }
  }

  /** The week and slot of every entry are recovered from its two teams. */
  lemma MipEntryRoundTrip(n: int, unordered: bool, j: nat)
    requires n >= 2 && n % 2 == 0 && j < |MipMatches(n, unordered)|
    ensures 1 <= PairOf(MipMatches(n, unordered)[j]).0 < PairOf(MipMatches(n, unordered)[j]).1 <= n
    ensures MipWeekOfPair(n, PairOf(MipMatches(n, unordered)[j]).0, PairOf(MipMatches(n, unordered)[j]).1)
            == EntryWeek(n, unordered, j)
    ensures MipSlotOfPair(n, PairOf(MipMatches(n, unordered)[j]).0, PairOf(MipMatches(n, unordered)[j]).1)
            == EntrySlot(n, unordered, j)
  {
    var w, i := EntryWeek(n, unordered, j), EntrySlot(n, unordered, j);
    assert MipMatches(n, unordered)[j] == MipSlot(n, unordered, w, i) by {
      MipEntry(n, unordered, j);
    }
    MipSlotRoundTrip(n, unordered, w, i);
  }

  /** No pair meets twice: two triples with the same teams are the same triple. */
  lemma MipNoRepeat(n: int, unordered: bool, j1: nat, j2: nat)
    requires n >= 2 && n % 2 == 0
    requires j1 < |MipMatches(n, unordered)| && j2 < |MipMatches(n, unordered)|
    requires PairOf(MipMatches(n, unordered)[j1]) == PairOf(MipMatches(n, unordered)[j2])
    ensures j1 == j2
  {
    MipEntryRoundTrip(n, unordered, j1);
    MipEntryRoundTrip(n, unordered, j2);
    EntryPosition(n, unordered, j1);
    EntryPosition(n, unordered, j2);
  }
}
