/**
 * `parse_glucose_solution` (source/SAT/sat_decode.py): the solver's answer is
 * read line by line. A line that, once stripped, starts with `v` contributes
 * its whitespace-separated tokens after the first one. The token `0` is
 * skipped; any other token is read with `int()` (raising a ValueError when it
 * is not an integer) and sets `assignments[abs(lit)]` to whether the literal
 * is positive, a later token overriding an earlier one.
 */
module GlucoseParse {
  import opened Wrappers
  import opened Text
  import opened Dict
  import opened Cardinality
  import opened DimacsText
  import opened SatPairings
  import opened SatEncoding
  import opened SatDecode

  /** The `{var_id: True/False}` dictionary, in insertion order. */
  type Model = Dict<int, bool>

  function Abs(l: int): nat { if l < 0 then -l else l }

  /** `xs[1:]`. */
  function Tail<T>(xs: seq<T>): seq<T> { if xs == [] then [] else xs[1..] }

  // ---------------------------------------------------------------------------
  // The reading, as functions
  // ---------------------------------------------------------------------------

  /** One pass of the inner loop: `0` is skipped, an integer sets its variable. */
  function TokenStep(d: Model, tok: string): Result<Model> {
    if tok == "0" then Ok(d)
    else
      match ParsePyInt(tok)
      case None => Err(NotAnInteger(tok))
      case Some(l) => Ok(Put(d, Abs(l), l > 0))
  }

  /** The tokens of one line, read into `d` from left to right; the first error ends the reading. */
  function ReadTokens(d: Model, toks: seq<string>): Result<Model>
    decreases |toks|
  {
    if toks == [] then Ok(d)
    else
      match TokenStep(d, toks[0])
      case Err(e) => Err(e)
      case Ok(d1) => ReadTokens(d1, toks[1..])
  }

  /** The tokens a line contributes: those after the first, on a `v` line only. */
  function LineTokens(line: string): seq<string> {
    var t := Strip(line);
    if StartsWith(t, "v") then Tail(Words(t)) else []
  }

  /** Continue with `lines` after a line was read into `r`. */
  function ThenLines(r: Result<Model>, lines: seq<string>): Result<Model>
    decreases |lines|, 2
  {
    match r
    case Err(e) => Err(e)
    case Ok(d) => ReadLines(d, lines)
  }

  /** The lines, read into `d` one after another. */
  function ReadLines(d: Model, lines: seq<string>): Result<Model>
    decreases |lines|, 1
  {
    if lines == [] then Ok(d)
    else ThenLines(ReadTokens(d, LineTokens(lines[0])), lines[1..])
  }

  /** What `parse_glucose_solution(output)` returns, or the error it raises. */
  function ParseGlucose(output: string): Result<Model> {
    ReadLines([], SplitLines(output))
  }

  // ---------------------------------------------------------------------------
  // parse_glucose_solution, the loops
  // ---------------------------------------------------------------------------

  method ParseGlucoseSolution(output: string) returns (r: Result<Model>)
    ensures r == ParseGlucose(output)
  {
    var lines := SplitLines(output);
    var assignments: Model := [];
    for i := 0 to |lines|
      invariant ReadLines([], lines) == ReadLines(assignments, lines[i..])
    {
      assert lines[i..][1..] == lines[i + 1..];
      var line := Strip(lines[i]);
      if !StartsWith(line, "v") {
        continue;
      }
      var toks := Tail(Words(line));
      assert toks[0..] == toks;
      for j := 0 to |toks|
        invariant ReadLines([], lines) == ThenLines(ReadTokens(assignments, toks[j..]), lines[i + 1..])
      {
        assert toks[j..][1..] == toks[j + 1..];
        var tok := toks[j];
        if tok == "0" {
          continue;
        }
        var lit := ParsePyInt(tok);
        if lit.None? {
          return Err(NotAnInteger(tok));
        }
        assignments := Put(assignments, Abs(lit.value), lit.value > 0);
      }
    }
    return Ok(assignments);
  }

  // ---------------------------------------------------------------------------
  // All lines read as one token stream
  // ---------------------------------------------------------------------------

  /** The tokens of every `v` line, in order. */
  function AllTokens(lines: seq<string>): seq<string> {
    if lines == [] then [] else LineTokens(lines[0]) + AllTokens(lines[1..])
  }

  /** The tokens `parse_glucose_solution` reads from `output`. */
  function GlucoseTokens(output: string): seq<string> {
    AllTokens(SplitLines(output))
  }

  /** Reading `a + b` is reading `a`, then `b` from where `a` left off. */
  lemma {:induction false} ReadTokensAppend(d: Model, a: seq<string>, b: seq<string>)
    ensures ReadTokens(d, a + b) == match ReadTokens(d, a)
      case Err(e) => Err(e)
      case Ok(d1) => ReadTokens(d1, b)
    decreases |a|
  {
    if a == [] {
      assert a + b == b;
    } else {
      assert (a + b)[0] == a[0] && (a + b)[1..] == a[1..] + b;
      match TokenStep(d, a[0])
      case Err(_) =>
      case Ok(d1) => ReadTokensAppend(d1, a[1..], b);
    }
  }

  /** Reading line by line is reading the concatenated token stream. */
  lemma {:induction false} ReadLinesFlat(d: Model, lines: seq<string>)
    ensures ReadLines(d, lines) == ReadTokens(d, AllTokens(lines))
    decreases |lines|
  {
    if lines != [] {
      ReadTokensAppend(d, LineTokens(lines[0]), AllTokens(lines[1..]));
      match ReadTokens(d, LineTokens(lines[0]))
      case Err(_) =>
      case Ok(d1) => ReadLinesFlat(d1, lines[1..]);
    }
  }

  lemma ParseGlucoseTokens(output: string)
    ensures ParseGlucose(output) == ReadTokens([], GlucoseTokens(output))
  {
    ReadLinesFlat([], SplitLines(output));
  }

  // ---------------------------------------------------------------------------
  // What the reading computes
  // ---------------------------------------------------------------------------

  /** A token that makes `int()` raise. */
  predicate Bad(tok: string) {
    tok != "0" && ParsePyInt(tok).None?
  }

  /** A token that sets variable `k`. */
  predicate Writes(tok: string, k: int) {
    tok != "0" && ParsePyInt(tok).Some? && Abs(ParsePyInt(tok).value) == k
  }

  /** The reading fails exactly when some token is not an integer. */
  lemma {:induction false} ReadTokensOk(d: Model, toks: seq<string>)
    ensures (forall i :: 0 <= i < |toks| ==> !Bad(toks[i])) ==> ReadTokens(d, toks).Ok?
    ensures ReadTokens(d, toks).Ok? ==> forall i :: 0 <= i < |toks| ==> !Bad(toks[i])
    decreases |toks|
  {
    if toks != [] {
      match TokenStep(d, toks[0])
      case Err(_) =>
      case Ok(d1) =>
        ReadTokensOk(d1, toks[1..]);
        assert forall i :: 1 <= i < |toks| ==> toks[i] == toks[1..][i - 1];
    }
  }

  /** The error names the first token that is not an integer. */
  lemma {:induction false} ReadTokensErr(d: Model, toks: seq<string>, i: nat)
    requires i < |toks| && Bad(toks[i])
    requires forall j :: 0 <= j < i ==> !Bad(toks[j])
    ensures ReadTokens(d, toks) == Err(NotAnInteger(toks[i]))
    decreases i
  {
    if i > 0 {
      var d1 := TokenStep(d, toks[0]).value;
      ReadTokensErr(d1, toks[1..], i - 1);
    }
  }

  /** With distinct keys to start from, the keys stay distinct. */
  lemma {:induction false} ReadTokensDistinct(d: Model, toks: seq<string>)
    requires DistinctKeys(d) && ReadTokens(d, toks).Ok?
    ensures DistinctKeys(ReadTokens(d, toks).value)
    decreases |toks|
  {
    if toks != [] {
      var d1 := TokenStep(d, toks[0]).value;
      if toks[0] != "0" {
        PutDistinct(d, Abs(ParsePyInt(toks[0]).value), ParsePyInt(toks[0]).value > 0);
      }
      ReadTokensDistinct(d1, toks[1..]);
    }
  }

  /** A variable no token sets keeps the value it had. */
  lemma {:induction false} ReadTokensUntouched(d: Model, toks: seq<string>, k: int)
    requires ReadTokens(d, toks).Ok?
    requires forall i :: 0 <= i < |toks| ==> !Writes(toks[i], k)
    ensures Get(ReadTokens(d, toks).value, k) == Get(d, k)
    decreases |toks|
  {
    if toks != [] {
      var d1 := TokenStep(d, toks[0]).value;
      if toks[0] != "0" {
        GetPut(d, Abs(ParsePyInt(toks[0]).value), ParsePyInt(toks[0]).value > 0, k);
      }
      assert forall i :: 0 <= i < |toks[1..]| ==> toks[1..][i] == toks[i + 1];
      ReadTokensUntouched(d1, toks[1..], k);
    }
  }

  /** The last token that sets a variable decides its value: positive literal, `True`. */
  lemma {:induction false} ReadTokensLast(d: Model, toks: seq<string>, k: int, i: nat)
    requires ReadTokens(d, toks).Ok?
    requires i < |toks| && Writes(toks[i], k)
    requires forall j :: i < j < |toks| ==> !Writes(toks[j], k)
    ensures Get(ReadTokens(d, toks).value, k) == Some(ParsePyInt(toks[i]).value > 0)
    decreases i
  {
    var d1 := TokenStep(d, toks[0]).value;
    assert forall j :: 0 <= j < |toks[1..]| ==> toks[1..][j] == toks[j + 1];
    if i == 0 {
      GetPut(d, k, ParsePyInt(toks[0]).value > 0, k);
      ReadTokensUntouched(d1, toks[1..], k);
    } else {
      ReadTokensLast(d1, toks[1..], k, i - 1);
    }
  }

  /**
   * `parse_glucose_solution` in terms of the token stream: it fails on the
   * first non-integer token; otherwise the keys are distinct, a variable set
   * by no token is absent, and a variable's value is the sign of the last
   * token that sets it.
   */
  lemma GlucoseMeaning(output: string)
    ensures var toks := GlucoseTokens(output);
      forall i :: 0 <= i < |toks| && Bad(toks[i]) && (forall j :: 0 <= j < i ==> !Bad(toks[j])) ==>
        ParseGlucose(output) == Err(NotAnInteger(toks[i]))
    ensures var toks := GlucoseTokens(output);
      (forall i :: 0 <= i < |toks| ==> !Bad(toks[i])) ==> ParseGlucose(output).Ok?
    ensures var toks := GlucoseTokens(output);
      ParseGlucose(output).Ok? ==>
        DistinctKeys(ParseGlucose(output).value)
        && (forall k :: (forall i :: 0 <= i < |toks| ==> !Writes(toks[i], k)) ==>
              Get(ParseGlucose(output).value, k).None?)
        && (forall k, i ::
              (0 <= i < |toks| && Writes(toks[i], k) && (forall j :: i < j < |toks| ==> !Writes(toks[j], k))) ==>
              Get(ParseGlucose(output).value, k) == Some(ParsePyInt(toks[i]).value > 0))
  {
    var toks := GlucoseTokens(output);
    ParseGlucoseTokens(output);
    forall i | 0 <= i < |toks| && Bad(toks[i]) && (forall j :: 0 <= j < i ==> !Bad(toks[j]))
      ensures ParseGlucose(output) == Err(NotAnInteger(toks[i]))
    {
      ReadTokensErr([], toks, i);
    }
    ReadTokensOk([], toks);
    if ParseGlucose(output).Ok? {
      ReadTokensDistinct([], toks);
      forall k | forall i :: 0 <= i < |toks| ==> !Writes(toks[i], k)
        ensures Get(ParseGlucose(output).value, k).None?
      {
        ReadTokensUntouched([], toks, k);
      }
      forall k, i | 0 <= i < |toks| && Writes(toks[i], k) && (forall j :: i < j < |toks| ==> !Writes(toks[j], k))
        ensures Get(ParseGlucose(output).value, k) == Some(ParsePyInt(toks[i]).value > 0)
      {
        ReadTokensLast([], toks, k, i);
      }
    }
  }

  // ---------------------------------------------------------------------------
  // Round trip: reading a printed model
  // ---------------------------------------------------------------------------

  /** The literals of a model of variables `1..|vals|`: `i + 1` when true, `-(i + 1)` when false. */
  function SignedLits(vals: seq<bool>): (ls: seq<int>)
    ensures |ls| == |vals|
  {
    seq(|vals|, i requires 0 <= i < |vals| => if vals[i] then i + 1 else -(i + 1))
  }

  /** The solver's model line: `v`, the literals, then `0`. */
  function ModelLine(vals: seq<bool>): string {
    JoinSpace(["v"] + LitWords(SignedLits(vals)) + ["0"])
  }

  /** A solver answer: the status line, then the model line. */
  function SolverAnswer(vals: seq<bool>): string {
    JoinLines(["s SATISFIABLE", ModelLine(vals)])
  }

  /** The dictionary of variables `1..|vals|`, in increasing order. */
  function Entries(vals: seq<bool>): (d: Model)
    ensures |d| == |vals|
  {
    seq(|vals|, i requires 0 <= i < |vals| => (i + 1, vals[i]))
  }

  /** Setting the next variable appends it. */
  lemma EntriesSnoc(vals: seq<bool>, j: nat)
    requires j < |vals|
    ensures Put(Entries(vals[..j]), j + 1, vals[j]) == Entries(vals[..j + 1])
  {
    var d := Entries(vals[..j]);
    assert DistinctKeys(d) && !HasKey(d, j + 1);
    PutShape(d, j + 1, vals[j]);
  }

  /** A printed literal is not the token `0`, and reads back as itself. */
  lemma LitToken(l: int)
    requires l != 0
    ensures IntToString(l) != "0" && ParsePyInt(IntToString(l)) == Some(l)
  {
    ParsePyIntOfIntToString(l);
    ParsePyIntOfIntToString(0);
    assert IntToString(0) == "0";
  }

  /** The printed literals from position `j` on, then `0`, complete the dictionary. */
  lemma {:induction false} ReadSigned(vals: seq<bool>, j: nat)
    requires j <= |vals|
    ensures ReadTokens(Entries(vals[..j]), LitWords(SignedLits(vals))[j..] + ["0"]) == Ok(Entries(vals))
    decreases |vals| - j
  {
    var toks := LitWords(SignedLits(vals))[j..] + ["0"];
    if j == |vals| {
      assert vals[..j] == vals;
      assert toks == ["0"];
    } else {
      var l := SignedLits(vals)[j];
      LitToken(l);
      assert toks[0] == IntToString(l);
      assert Abs(l) == j + 1 && (l > 0) == vals[j];
      EntriesSnoc(vals, j);
      assert toks[1..] == LitWords(SignedLits(vals))[j + 1..] + ["0"];
      ReadSigned(vals, j + 1);
    }
  }

  /** `v`, the printed literals and `0` are each one token. */
  lemma ModelTokensPlain(vals: seq<bool>)
    ensures var ws := ["v"] + LitWords(SignedLits(vals)) + ["0"];
      forall i :: 0 <= i < |ws| ==> |ws[i]| > 0 && Plain(ws[i])
  {
    LitWordsPlain(SignedLits(vals));
    assert Plain("v") && Plain("0");
  }

  /** A space-joined line starts with its first token and ends with its last. */
  lemma JoinEnds(first: string, mid: seq<string>, last: string)
    requires |first| > 0 && |last| > 0
    ensures var line := JoinSpace([first] + mid + [last]);
      |line| > 0 && line[0] == first[0] && line[|line| - 1] == last[|last| - 1]
  {
    var ws := [first] + mid + [last];
    assert ws[1..] == mid + [last];
    var tail := JoinSpace(mid + [last]);
    assert JoinSpace(ws) == first + " " + tail;
    if mid == [] {
      assert mid + [last] == [last];
    } else {
      JoinSpaceSnoc(mid, last);
    }
  }

  /** The tokens of the model line. */
  lemma ModelLineWords(vals: seq<bool>)
    ensures Words(ModelLine(vals)) == ["v"] + LitWords(SignedLits(vals)) + ["0"]
    ensures NoBreak(ModelLine(vals)) && Strip(ModelLine(vals)) == ModelLine(vals)
    ensures StartsWith(ModelLine(vals), "v")
  {
    var line := ModelLine(vals);
    ModelTokensPlain(vals);
    PlainJoin(["v"] + LitWords(SignedLits(vals)) + ["0"]);
    JoinEnds("v", LitWords(SignedLits(vals)), "0");
    StripNoSpace(line);
    assert line[..1] == "v";
  }

  /** A line that, stripped, does not start with `v` contributes no token. */
  lemma NotVLine(line: string)
    requires |Strip(line)| > 0 && Strip(line)[0] != 'v'
    ensures LineTokens(line) == []
  {
    var t := Strip(line);
    assert t[..1][0] != "v"[0];
  }

  /** The status line contributes no token. */
  lemma StatusLine()
    ensures NoBreak("s SATISFIABLE") && LineTokens("s SATISFIABLE") == []
  {
    var status := "s SATISFIABLE";
    StripNoSpace(status);
    assert status[0] == 's';
    NotVLine(status);
  }

  /** After a line without tokens, reading a second line is reading its tokens. */
  lemma ReadTwoLines(l0: string, l1: string)
    requires LineTokens(l0) == []
    ensures ReadLines([], [l0, l1]) == ReadTokens([], LineTokens(l1))
  {
    var ls := [l0, l1];
    ReadLinesFlat([], ls);
    assert ls[1..] == [l1] && [l1][1..] == [];
    assert AllTokens([l1]) == LineTokens(l1) + [];
    assert AllTokens(ls) == [] + AllTokens([l1]);
    assert AllTokens(ls) == LineTokens(l1);
  }

  /** The model line contributes the printed literals and the closing `0`. */
  lemma ModelLineTokens(vals: seq<bool>)
    ensures LineTokens(ModelLine(vals)) == LitWords(SignedLits(vals)) + ["0"]
  {
    ModelLineWords(vals);
    var ws := ["v"] + LitWords(SignedLits(vals)) + ["0"];
    assert ws[1..] == LitWords(SignedLits(vals)) + ["0"];
  }

  /** A printed solver answer reads back as the model it prints, variables in increasing order. */
  lemma ParseSolverAnswer(vals: seq<bool>)
    ensures ParseGlucose(SolverAnswer(vals)) == Ok(Entries(vals))
  {
    var ls := ["s SATISFIABLE", ModelLine(vals)];
    StatusLine();
    ModelLineWords(vals);
    SplitJoinLines(ls);
    ReadTwoLines(ls[0], ls[1]);
    ModelLineTokens(vals);
    assert vals[..0] == [] && Entries([]) == [];
    ReadSigned(vals, 0);
    assert LitWords(SignedLits(vals))[0..] == LitWords(SignedLits(vals));
  }

  // ---------------------------------------------------------------------------
  // From the solver's answer to the schedule
  // ---------------------------------------------------------------------------

  /** The values `a` gives to variables `1..count`. */
  function ModelOf(a: Assignment, count: nat): (vals: seq<bool>)
    ensures |vals| == count
  {
    seq(count, i requires 0 <= i < count => a(i + 1))
  }

  /** Reading the printed model of `a` records `a` on every X variable. */
  lemma AnswerRecords(a: Assignment, h: nat)
    ensures ParseGlucose(SolverAnswer(ModelOf(a, XCount(h)))).Ok?
    ensures var d := ParseGlucose(SolverAnswer(ModelOf(a, XCount(h)))).value;
      DistinctKeys(d) && Records(d, a, h)
  {
    var vals := ModelOf(a, XCount(h));
    ParseSolverAnswer(vals);
    var d := Entries(vals);
    assert DistinctKeys(d);
    forall id | 1 <= id <= XCount(h)
      ensures Get(d, id) == Some(a(id))
    {
      GetAt(d, id - 1);
    }
  }

  /**
   * The SAT pipeline end to end: for any model of the clauses `build_dimacs`
   * writes, the solver's printed answer is read and decoded into a full
   * schedule that puts, in every cell, the pair of the match the model chose.
   */
  lemma AnswerDecodes(a: Assignment, h: nat, useSym: bool, anchor: int)
    requires h >= 1 && CnfSat(a, DimacsClauses(h, useSym, anchor))
    ensures ParseGlucose(SolverAnswer(ModelOf(a, XCount(h)))).Ok?
    ensures var d := ParseGlucose(SolverAnswer(ModelOf(a, XCount(h)))).value;
      var s := Decode(d, XNames(h, XCount(h)), Pairings(2 * h), 2 * h);
      s.Some? && forall p, w, m :: 0 <= p < h && 0 <= w < Weeks(h) && 0 <= m < h && a(XId(h, w, m, p)) ==>
        s.value[p][w] == Pairings(2 * h)[w][m]
  {
    AnswerRecords(a, h);
    var d := ParseGlucose(SolverAnswer(ModelOf(a, XCount(h)))).value;
    DecodeSolution(d, a, h, useSym, anchor);
  }
}
