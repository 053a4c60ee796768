/**
 * The DIMACS CNF text that `write_dimacs` (source/SAT/sat_dimacs.py) writes:
 * a header line `p cnf V C`, then one line per clause, its literals separated
 * by single spaces and closed by ` 0`. A reader for that format is stated
 * beside it, and the text is proved to read back as the variable count and
 * the clause list it was written from.
 */
module DimacsText {
  import opened Wrappers
  import opened Text
  import opened Cardinality

  // ---------------------------------------------------------------------------
  // Writing
  // ---------------------------------------------------------------------------

  /** `str(x) for x in cl`. */
  function LitWords(cl: Clause): (ws: seq<string>)
    ensures |ws| == |cl|
  {
    seq(|cl|, i requires 0 <= i < |cl| => IntToString(cl[i]))
  }

  /** `" ".join(str(x) for x in cl) + " 0"`, without its line break. */
  function ClauseLine(cl: Clause): string {
    JoinSpace(LitWords(cl)) + " 0"
  }

  /** `f"p cnf {vars} {count}"`, without its line break. */
  function HeaderLine(vars: int, count: int): string {
    "p cnf " + IntToString(vars) + " " + IntToString(count)
  }

  /** The clause lines of `cs`, each followed by `\n`. */
  function ClauseText(cs: seq<Clause>): string {
    if cs == [] then "" else ClauseText(cs[..|cs| - 1]) + ClauseLine(cs[|cs| - 1]) + "\n"
  }

  /** One more clause writes one more line. */
  lemma ClauseTextSnoc(cs: seq<Clause>, i: int)
    requires 0 <= i < |cs|
    ensures ClauseText(cs[..i + 1]) == ClauseText(cs[..i]) + ClauseLine(cs[i]) + "\n"
  {
    assert cs[..i + 1][..i] == cs[..i];
  }

  /** The whole file for `next_var - 1 == vars` and the clause list `cs`. */
  function DimacsFile(vars: int, cs: seq<Clause>): string {
    HeaderLine(vars, |cs|) + "\n" + ClauseText(cs)
  }

  /** The writing loop of `write_dimacs`: the header, then one line per clause (collected in `body`). */
  method WriteCnf(vars: int, cs: seq<Clause>) returns (text: string)
    ensures text == DimacsFile(vars, cs)
  {
    var head, body := HeaderLine(vars, |cs|) + "\n", "";
    for i := 0 to |cs|
      invariant body == ClauseText(cs[..i])
    {
      ClauseTextSnoc(cs, i);
      body := body + ClauseLine(cs[i]) + "\n";
    }
    assert cs[..|cs|] == cs;
    text := head + body;
  }

  // ---------------------------------------------------------------------------
  // Reading
  // ---------------------------------------------------------------------------

  /** The literals of a clause line: integers, none of them 0 (0 ends a clause). */
  function ReadLits(ws: seq<string>): (r: Option<Clause>)
    ensures r.Some? ==> |r.value| == |ws|
  {
    if ws == [] then Some([])
    else
      match ParsePyInt(ws[0])
      case None => None
      case Some(l) =>
        if l == 0 then None
        else
          match ReadLits(ws[1..])
          case None => None
          case Some(rest) => Some([l] + rest)
  }

  /** A clause line: its literals, then the terminating `0` as the last token. */
  function ReadClauseLine(line: string): Option<Clause> {
    var ws := Words(line);
    if |ws| >= 1 && ws[|ws| - 1] == "0" then ReadLits(ws[..|ws| - 1]) else None
  }

  function ReadClauseLines(lines: seq<string>): (r: Option<seq<Clause>>)
    ensures r.Some? ==> |r.value| == |lines|
  {
    if lines == [] then Some([])
    else
      match ReadClauseLine(lines[0])
      case None => None
      case Some(cl) =>
        match ReadClauseLines(lines[1..])
        case None => None
        case Some(rest) => Some([cl] + rest)
  }

  /** The header `p cnf V C`: the variable count and the clause count. */
  function ReadHeader(line: string): Option<(int, int)> {
    var ws := Words(line);
    if |ws| == 4 && ws[0] == "p" && ws[1] == "cnf" then
      match (ParsePyInt(ws[2]), ParsePyInt(ws[3]))
      case (Some(v), Some(c)) => Some((v, c))
      case _ => None
    else None
  }

  /** A DIMACS file: the header, then exactly as many clause lines as it announces. */
  function ReadDimacs(text: string): Option<(int, seq<Clause>)> {
    var lines := SplitLines(text);
    if lines == [] then None
    else
      match ReadHeader(lines[0])
      case None => None
      case Some((v, c)) =>
        match ReadClauseLines(lines[1..])
        case None => None
        case Some(cs) => if |cs| == c then Some((v, cs)) else None
  }

  // ---------------------------------------------------------------------------
  // Round trip
  // ---------------------------------------------------------------------------

  /** No whitespace and no line boundary: a single token on a single line. */
  predicate Plain(s: string) {
    forall i :: 0 <= i < |s| ==> !IsSpace(s[i]) && !IsLineBreak(s[i])
  }

  predicate NoBreak(s: string) {
    forall i :: 0 <= i < |s| ==> !IsLineBreak(s[i])
  }

  predicate NonzeroClauses(cs: seq<Clause>) {
    forall i, j :: 0 <= i < |cs| && 0 <= j < |cs[i]| ==> cs[i][j] != 0
  }

  lemma IntToStringPlain(i: int)
    ensures Plain(IntToString(i))
  {
    var d := NatToString(if i < 0 then -i else i);
    assert AllDigits(d);
    if i < 0 {
      assert IntToString(i) == "-" + d;
    }
  }

  lemma {:induction false} JoinSpaceNoBreak(ws: seq<string>)
    requires forall i :: 0 <= i < |ws| ==> Plain(ws[i])
    ensures NoBreak(JoinSpace(ws))
  {
    if |ws| > 1 {
      JoinSpaceNoBreak(ws[1..]);
      var s := JoinSpace(ws);
      assert s == ws[0] + " " + JoinSpace(ws[1..]);
      assert Plain(ws[0]);
    }
  }

  lemma {:induction false} JoinSpaceSnoc(ws: seq<string>, w: string)
    requires ws != []
    ensures JoinSpace(ws + [w]) == JoinSpace(ws) + " " + w
  {
    if |ws| > 1 {
      assert (ws + [w])[1..] == ws[1..] + [w];
      JoinSpaceSnoc(ws[1..], w);
    }
  }

  /** Every printed literal is one non-empty token. */
  lemma LitWordsPlain(cl: Clause)
    ensures forall i :: 0 <= i < |cl| ==> |LitWords(cl)[i]| > 0 && Plain(LitWords(cl)[i])
  {
    forall i | 0 <= i < |cl|
      ensures Plain(LitWords(cl)[i])
    {
      IntToStringPlain(cl[i]);
    }
  }

  /** A clause line is the printed literals and the closing `0`, joined by spaces. */
  lemma ClauseLineJoin(cl: Clause)
    requires cl != []
    ensures ClauseLine(cl) == JoinSpace(LitWords(cl) + ["0"])
  {
    JoinSpaceSnoc(LitWords(cl), "0");
    assert JoinSpace(LitWords(cl)) + " " + "0" == JoinSpace(LitWords(cl)) + " 0";
  }

  /** Space-joined tokens split back into those tokens, on one line. */
  lemma PlainJoin(ws: seq<string>)
    requires forall i :: 0 <= i < |ws| ==> |ws[i]| > 0 && Plain(ws[i])
    ensures Words(JoinSpace(ws)) == ws && NoBreak(JoinSpace(ws))
  {
    WordsOfJoinSpace(ws);
    JoinSpaceNoBreak(ws);
  }

  /** The line of the empty clause is the lone `0`. */
  lemma EmptyClauseLine()
    ensures Words(ClauseLine([])) == ["0"] && NoBreak(ClauseLine([]))
  {
    assert ClauseLine([]) == " 0";
    assert Words(" 0") == Words("0");
    assert Plain("0");
    PlainJoin(["0"]);
  }

  /** The printed literals and the closing `0` are each one token. */
  lemma ClauseTokensPlain(cl: Clause)
    ensures var all := LitWords(cl) + ["0"];
      forall i :: 0 <= i < |all| ==> |all[i]| > 0 && Plain(all[i])
  {
    LitWordsPlain(cl);
    assert Plain("0");
  }

  /** A clause line splits into the printed literals and the closing `0`. */
  lemma ClauseLineWords(cl: Clause)
    ensures Words(ClauseLine(cl)) == LitWords(cl) + ["0"]
    ensures NoBreak(ClauseLine(cl))
  {
    if cl == [] {
      EmptyClauseLine();
    } else {
      ClauseTokensPlain(cl);
      ClauseLineJoin(cl);
      PlainJoin(LitWords(cl) + ["0"]);
    }
  }

  /** Tokens that each parse as a nonzero literal read back as those literals. */
  lemma {:induction false} ReadLitsAll(ws: seq<string>, cl: Clause)
    requires |ws| == |cl|
    requires forall j :: 0 <= j < |cl| ==> ParsePyInt(ws[j]) == Some(cl[j]) && cl[j] != 0
    ensures ReadLits(ws) == Some(cl)
    decreases |cl|
  {
    if cl != [] {
      ReadLitsAll(ws[1..], cl[1..]);
      assert [cl[0]] + cl[1..] == cl;
    }
  }

  lemma ReadLitsOfWords(cl: Clause)
    requires forall j :: 0 <= j < |cl| ==> cl[j] != 0
    ensures ReadLits(LitWords(cl)) == Some(cl)
  {
    forall j | 0 <= j < |cl|
      ensures ParsePyInt(LitWords(cl)[j]) == Some(cl[j])
    {
      ParsePyIntOfIntToString(cl[j]);
    }
    ReadLitsAll(LitWords(cl), cl);
  }

  /** A clause with no zero literal reads back from its line. */
  lemma ReadClauseLineOf(cl: Clause)
    requires forall j :: 0 <= j < |cl| ==> cl[j] != 0
    ensures ReadClauseLine(ClauseLine(cl)) == Some(cl)
  {
    ClauseLineWords(cl);
    var ws := LitWords(cl) + ["0"];
    assert ws[..|ws| - 1] == LitWords(cl);
    ReadLitsOfWords(cl);
  }

  /** The clause lines, one per clause. */
  function ClauseLines(cs: seq<Clause>): (ls: seq<string>)
    ensures |ls| == |cs|
  {
    seq(|cs|, i requires 0 <= i < |cs| => ClauseLine(cs[i]))
  }

  /** Lines joined with `\n` after each (`"\n".join(ls) + "\n"` for a non-empty list). */
  function JoinLines(ls: seq<string>): string {
    if ls == [] then "" else ls[0] + "\n" + JoinLines(ls[1..])
  }

  lemma {:induction false} JoinLinesSnoc(ls: seq<string>, l: string)
    ensures JoinLines(ls + [l]) == JoinLines(ls) + l + "\n"
  {
    if ls != [] {
      assert (ls + [l])[1..] == ls[1..] + [l];
      JoinLinesSnoc(ls[1..], l);
    }
  }

  lemma {:induction false} ClauseTextLines(cs: seq<Clause>)
    ensures ClauseText(cs) == JoinLines(ClauseLines(cs))
  {
    if cs != [] {
      var init := cs[..|cs| - 1];
      ClauseTextLines(init);
      assert ClauseLines(cs) == ClauseLines(init) + [ClauseLine(cs[|cs| - 1])];
      JoinLinesSnoc(ClauseLines(init), ClauseLine(cs[|cs| - 1]));
    }
  }

  /** `splitlines` undoes joining lines that contain no line boundary. */
  lemma {:induction false} SplitJoinLines(ls: seq<string>)
    requires forall i :: 0 <= i < |ls| ==> NoBreak(ls[i])
    ensures SplitLines(JoinLines(ls)) == ls
  {
    if ls != [] {
      var rest := JoinLines(ls[1..]);
      assert JoinLines(ls) == ls[0] + "\n" + rest;
      LineEndOfLine(ls[0], rest);
      var s := JoinLines(ls);
      assert s[..|ls[0]|] == ls[0];
      assert s[|ls[0]| + 1..] == rest;
      SplitJoinLines(ls[1..]);
      assert [ls[0]] + ls[1..] == ls;
    }
  }

  /** Lines that each read as a clause read back as the list of those clauses. */
  lemma {:induction false} ReadClauseLinesAll(lines: seq<string>, cs: seq<Clause>)
    requires |lines| == |cs|
    requires forall i :: 0 <= i < |cs| ==> ReadClauseLine(lines[i]) == Some(cs[i])
    ensures ReadClauseLines(lines) == Some(cs)
    decreases |cs|
  {
    if cs != [] {
      ReadClauseLinesAll(lines[1..], cs[1..]);
      assert [cs[0]] + cs[1..] == cs;
    }
  }

  lemma ReadClauseLinesOf(cs: seq<Clause>)
    requires NonzeroClauses(cs)
    ensures ReadClauseLines(ClauseLines(cs)) == Some(cs)
  {
    forall i | 0 <= i < |cs|
      ensures ReadClauseLine(ClauseLines(cs)[i]) == Some(cs[i])
    {
      ReadClauseLineOf(cs[i]);
    }
    ReadClauseLinesAll(ClauseLines(cs), cs);
  }

  /** `" ".join(["p", "cnf", a, b])` is the header text. */
  lemma HeaderJoin(a: string, b: string)
    ensures JoinSpace(["p", "cnf", a, b]) == "p cnf " + a + " " + b
  {
    var ws := ["p", "cnf", a, b];
    assert ws[1..] == ["cnf", a, b] && ws[1..][1..] == [a, b] && [a, b][1..] == [b];
    assert JoinSpace([a, b]) == a + " " + b;
    assert JoinSpace(ws) == "p" + " " + ("cnf" + " " + (a + " " + b));
  }

  lemma HeaderLineWords(vars: int, count: int)
    ensures Words(HeaderLine(vars, count)) == ["p", "cnf", IntToString(vars), IntToString(count)]
    ensures NoBreak(HeaderLine(vars, count))
  {
    var a, b := IntToString(vars), IntToString(count);
    IntToStringPlain(vars);
    IntToStringPlain(count);
    assert Plain("p") && Plain("cnf");
    HeaderJoin(a, b);
    PlainJoin(["p", "cnf", a, b]);
  }

  /** A line whose tokens are `p cnf a b`, with `a` and `b` numbers, reads as those numbers. */
  lemma ReadHeaderOfWords(line: string, a: string, b: string, vars: int, count: int)
    requires Words(line) == ["p", "cnf", a, b]
    requires ParsePyInt(a) == Some(vars) && ParsePyInt(b) == Some(count)
    ensures ReadHeader(line) == Some((vars, count))
  {
  }

  /** The header reads back as the two numbers it was written from. */
  lemma ReadHeaderLine(vars: int, count: int)
    ensures ReadHeader(HeaderLine(vars, count)) == Some((vars, count))
  {
    HeaderLineWords(vars, count);
    ParsePyIntOfIntToString(vars);
    ParsePyIntOfIntToString(count);
    ReadHeaderOfWords(HeaderLine(vars, count), IntToString(vars), IntToString(count), vars, count);
  }

  /** The written file splits into the header line and one line per clause. */
  lemma WrittenLines(vars: int, cs: seq<Clause>)
    ensures SplitLines(DimacsFile(vars, cs)) == [HeaderLine(vars, |cs|)] + ClauseLines(cs)
  {
    var ls := [HeaderLine(vars, |cs|)] + ClauseLines(cs);
    ClauseTextLines(cs);
    assert DimacsFile(vars, cs) == JoinLines(ls);
    HeaderLineWords(vars, |cs|);
    forall i | 0 <= i < |ls|
      ensures NoBreak(ls[i])
    {
      if i > 0 {
        ClauseLineWords(cs[i - 1]);
      }
    }
    SplitJoinLines(ls);
  }

  /**
   * Reading the written file gives back the variable count and the clauses,
   * as long as no clause holds the literal 0 (which would end it early).
   */
  lemma ReadWritten(vars: int, cs: seq<Clause>)
    requires NonzeroClauses(cs)
    ensures ReadDimacs(DimacsFile(vars, cs)) == Some((vars, cs))
  {
    var ls := [HeaderLine(vars, |cs|)] + ClauseLines(cs);
    WrittenLines(vars, cs);
    ReadHeaderLine(vars, |cs|);
    assert ls[1..] == ClauseLines(cs);
    ReadClauseLinesOf(cs);
  }
}
