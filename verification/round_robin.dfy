/**
 * The circle method of source/SMT/round_robin.py: team `n` stays put while the
 * other `n-1` teams turn one place to the right each week. Week `w` pairs the
 * first `n/2-1` teams of the turned list, followed by team `n`, with the other
 * `n/2` teams read backwards, and stores every pair as (smaller, larger).
 */
module RoundRobin {
  import opened Wrappers

  type Pair = (int, int)

  /** `list(range(1, k + 1))`. */
  function Teams(k: nat): (s: seq<int>)
    ensures |s| == k
  {
    if k == 0 then [] else Teams(k - 1) + [k]
  }

  /** `teams[-1]` is team `n` and `teams[:-1]` is the unturned list. */
  lemma TeamsSplit(n: int)
    requires n >= 2
    ensures Teams(n)[n - 1] == n && Teams(n)[..n - 1] == Rotation(n, 0)
  {
    assert Teams(n) == Teams(n - 1) + [n];
  }

  /** `[s[-1]] + s[:-1]`. */
  function RotateRight(s: seq<int>): (r: seq<int>)
    requires |s| > 0
    ensures |r| == |s|
  {
    [s[|s| - 1]] + s[..|s| - 1]
  }

  /** `s[::-1]`. */
  function Reverse(s: seq<int>): (r: seq<int>)
    ensures |r| == |s|
  {
    seq(|s|, i requires 0 <= i < |s| => s[|s| - 1 - i])
  }

  /** `(a, b) if a < b else (b, a)`. */
  function Canon(a: int, b: int): (p: Pair)
    ensures p.0 <= p.1 && ((p.0 == a && p.1 == b) || (p.0 == b && p.1 == a))
  {
    if a < b then (a, b) else (b, a)
  }

  /** `[canon(a, b) for a, b in zip(left, right)]`; zip stops at the shorter list. */
  function CanonZip(left: seq<int>, right: seq<int>): (ps: seq<Pair>)
    ensures |ps| == if |left| < |right| then |left| else |right|
  {
    seq(if |left| < |right| then |left| else |right|,
        i requires 0 <= i < |left| && i < |right| => Canon(left[i], right[i]))
  }

  /** The list of non-fixed teams after `w` weekly turns. */
  function Rotation(n: int, w: nat): (rot: seq<int>)
    requires n >= 2
    ensures |rot| == n - 1
  {
    if w == 0 then Teams(n - 1) else RotateRight(Rotation(n, w - 1))
  }

  /** `left` of one week: the first `n/2-1` turned teams, then the fixed team. */
  function Left(n: int, rot: seq<int>): (l: seq<int>)
    requires n >= 2 && |rot| == n - 1
  {
    rot[..n / 2 - 1] + [n]
  }

  /** `right` of one week: the remaining turned teams, last first. */
  function Right(n: int, rot: seq<int>): (r: seq<int>)
    requires n >= 2 && |rot| == n - 1
  {
    Reverse(rot[n / 2 - 1..])
  }

  /** The canonical pairs of the week whose turned list is `rot`. */
  function CircleWeek(n: int, rot: seq<int>): seq<Pair>
    requires n >= 2 && |rot| == n - 1
  {
    CanonZip(Left(n, rot), Right(n, rot))
  }

  /** What `circle_method_pairs(n)` returns for an even `n >= 2`. */
  function Schedule(n: int): (weeks: seq<seq<Pair>>)
    requires n >= 2
  {
    seq(n - 1, w requires 0 <= w < n - 1 => CircleWeek(n, Rotation(n, w)))
  }

  lemma PrefixSnoc<T>(s: seq<T>, i: nat)
    requires i < |s|
    ensures s[..i + 1] == s[..i] + [s[i]]
  {
  }

  /** The inner loop of one week: zip `left` with `right`, smaller team first. */
  method ZipCanonical(left: seq<int>, right: seq<int>) returns (pairs: seq<Pair>)
    ensures pairs == CanonZip(left, right)
  {
    pairs := [];
    var i := 0;
    while i < |left| && i < |right|
      invariant 0 <= i <= |left| && i <= |right|
      invariant pairs == CanonZip(left, right)[..i]
    {
      var a, b := left[i], right[i];
      if a < b {
        pairs := pairs + [(a, b)];
      } else {
        pairs := pairs + [(b, a)];
      }
      i := i + 1;
    }
  }

  /**
   * `circle_method_pairs(n)` (alias `circle_method_pairings`). An odd `n` raises
   * ValueError; an even `n <= 0` fails in the source on `teams[-1]` of an empty list.
   */
  method CircleMethodPairs(n: int) returns (r: Result<seq<seq<Pair>>>)
    requires n % 2 != 0 || n > 0
    ensures n % 2 != 0 <==> r == Err(OddTeamCount)
    ensures n % 2 == 0 ==> r == Ok(Schedule(n))
  {
    if n % 2 != 0 {
      return Err(OddTeamCount);
    }
    var teams := Teams(n);
    TeamsSplit(n);
    var fixed := teams[|teams| - 1];
    var rot := teams[..|teams| - 1];
    var weeks := WeeksLoop(n, fixed, rot);
    return Ok(weeks);
  }

  /** The weekly loop of `circle_method_pairs`, from the unturned list on. */
  method WeeksLoop(n: int, fixed: int, rot0: seq<int>) returns (weeks: seq<seq<Pair>>)
    requires n >= 2
    requires fixed == n && rot0 == Rotation(n, 0)
    ensures weeks == Schedule(n)
  {
    var rot := rot0;
    var W := n - 1;
    var half := n / 2;
    assert 1 <= half <= n - 1;
    ghost var all := Schedule(n);
    weeks := [];
    var w := 0;
    while w < W
      invariant 0 <= w <= W
      invariant rot == Rotation(n, w)
      invariant weeks == all[..w]
    {
      var left := rot[..half - 1] + [fixed];
      var right := Reverse(rot[half - 1..]);
      var pairs := ZipCanonical(left, right);
      assert pairs == all[w] by {
        assert left == Left(n, rot) && right == Right(n, rot);
      }
      PrefixSnoc(all, w);
      weeks := weeks + [pairs];
      rot := [rot[|rot| - 1]] + rot[..|rot| - 1];
      assert rot == Rotation(n, w + 1);
      w := w + 1;
    }
    assert all[..W] == all;
  }
}
