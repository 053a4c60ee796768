/**
 * Files written one line per element: `Unlines(xs, line)` is the text of
 * `xs` when element `x` is written as `line(x)`, newline included.
 */
module Lines {

  /** The concatenated `line(x)` of every `x` in `xs`. */
  function Unlines<T>(xs: seq<T>, line: T -> string): string {
    if xs == [] then "" else Unlines(xs[..|xs| - 1], line) + line(xs[|xs| - 1])
  }

  /** The text of a sequence of lines is the text of its parts. */
  lemma {:induction false} UnlinesAppend<T>(xs: seq<T>, ys: seq<T>, line: T -> string)
    ensures Unlines(xs + ys, line) == Unlines(xs, line) + Unlines(ys, line)
    decreases |ys|
  {
    if ys == [] {
      assert xs + ys == xs;
    } else {
      var init, last := ys[..|ys| - 1], ys[|ys| - 1];
      assert (xs + ys)[..|xs + ys| - 1] == xs + init;
      assert (xs + ys)[|xs + ys| - 1] == last;
      UnlinesAppend(xs, init, line);
    }
  }

  /** The text of at least four lines: the first two, the middle, the last two. */
  lemma UnlinesFramed<T>(s: seq<T>, line: T -> string)
    requires |s| >= 4
    ensures Unlines(s, line) ==
      line(s[0]) + line(s[1]) + Unlines(s[2..|s| - 2], line) + line(s[|s| - 2]) + line(s[|s| - 1])
  {
    var init, pre, head, mid := s[..|s| - 1], s[..|s| - 2], s[..2], s[2..|s| - 2];
    assert init[..|init| - 1] == pre;
    assert Unlines(init, line) == Unlines(pre, line) + line(s[|s| - 2]);
    assert pre == head + mid;
    UnlinesAppend(head, mid, line);
    assert Unlines([s[0]], line) == line(s[0]) by {
      assert [s[0]][..0] == [];
      assert Unlines([s[0]], line) == "" + line(s[0]);
    }
    assert head[..1] == [s[0]] && head[1] == s[1];
    assert Unlines(head, line) == Unlines([s[0]], line) + line(s[1]);
  }
}
