/**
 * Reading an SMT-LIB solver's replies (source/SMT/smt2_parse.py):
 * `parse_status` classifies the answer to `(check-sat)` by its letter tokens,
 * and `parse_get_value` reads the `(name value)` pairs of a `(get-value ...)`
 * reply into a dictionary of booleans, integers and raw strings.
 *
 * Both regular expressions are matched by hand. Each part of them is followed
 * by a part that cannot start with a character the first one consumes, so the
 * greedy reading below is the only way the expression can match.
 */
module Smt2Parse {
  import opened Wrappers
  import opened Text
  import opened Dict

  // ---------------------------------------------------------------------------
  // parse_status
  // ---------------------------------------------------------------------------

  /** Length of the leading run of `[a-zA-Z_]`. */
  function RunLength(s: string): (k: nat)
    ensures k <= |s|
  {
    if s == [] || !IsLetterOrUnderscore(s[0]) then 0 else 1 + RunLength(s[1..])
  }

  /** `re.findall(r"[a-zA-Z_]+", s)`: the maximal runs of letters and underscores, in order. */
  function LetterRuns(s: string): seq<string>
    decreases |s|
  {
    if s == [] then []
    else if !IsLetterOrUnderscore(s[0]) then LetterRuns(s[1..])
    else
      var k := RunLength(s);
      [s[..k]] + LetterRuns(s[k..])
  }

  /** `" ".join(stdout.strip().split()).lower()`. */
  function NormalizedStatus(stdout: string): string {
    Lower(JoinSpace(Words(Strip(stdout))))
  }

  /** `parse_status(stdout)`. */
  function ParseStatus(stdout: string): string {
    var toks := LetterRuns(NormalizedStatus(stdout));
    if "unsat" in toks then "unsat"
    else if "sat" in toks then "sat"
    else if "unknown" in toks then "unknown"
    else "unknown"
  }

  /** A word of letters and underscores. */
  predicate RunWord(w: string) {
    |w| > 0 && forall i :: 0 <= i < |w| ==> IsLetterOrUnderscore(w[i])
  }

  /** `w` occurs in `t` at `i` with no letter or underscore right before or right after it. */
  predicate OccursAt(t: string, w: string, i: int) {
    0 <= i && i + |w| <= |t| && t[i..i + |w|] == w
    && (i == 0 || !IsLetterOrUnderscore(t[i - 1]))
    && (i + |w| == |t| || !IsLetterOrUnderscore(t[i + |w|]))
  }

  /** `w` stands on its own somewhere in `t`. */
  ghost predicate Occurs(t: string, w: string) {
    exists i :: OccursAt(t, w, i)
  }

  lemma {:induction false} RunLengthFacts(s: string)
    ensures forall i :: 0 <= i < RunLength(s) ==> IsLetterOrUnderscore(s[i])
    ensures RunLength(s) < |s| ==> !IsLetterOrUnderscore(s[RunLength(s)])
  {
    if s != [] && IsLetterOrUnderscore(s[0]) {
      RunLengthFacts(s[1..]);
      assert forall i :: 1 <= i < RunLength(s) ==> s[i] == s[1..][i - 1];
    }
  }

  /** Occurrences in `s[1..]` are those in `s` shifted by one, when `s` starts with no letter. */
  lemma OccursTail(s: string, w: string)
    requires RunWord(w) && s != [] && !IsLetterOrUnderscore(s[0])
    ensures Occurs(s, w) <==> Occurs(s[1..], w)
  {
    var t := s[1..];
    if Occurs(s, w) {
      var i :| OccursAt(s, w, i);
      assert s[i] == w[0];
      assert t[i - 1..i - 1 + |w|] == s[i..i + |w|];
      assert OccursAt(t, w, i - 1);
    }
    if Occurs(t, w) {
      var j :| OccursAt(t, w, j);
      assert s[j + 1..j + 1 + |w|] == t[j..j + |w|];
      assert OccursAt(s, w, j + 1);
    }
  }

  /** An occurrence in `s` is its leading run `s[..k]` or lies after it. */
  lemma OccursInRun(s: string, w: string, k: nat, i: int)
    requires RunWord(w) && 0 < k == RunLength(s) && OccursAt(s, w, i)
    ensures (i == 0 && w == s[..k]) || (i >= k && OccursAt(s[k..], w, i - k))
  {
    RunLengthFacts(s);
    // the run is maximal, so an occurrence can neither end inside it nor start inside it
    assert forall j :: i <= j < i + |w| ==> s[j] == w[j - i];
    if i == 0 {
      assert w == s[..k];
    } else {
      var t := s[k..];
      assert t[i - k..i - k + |w|] == s[i..i + |w|];
      assert t[i - k - 1] == s[i - 1];
    }
  }

  /** An occurrence after the leading run of `s` is one in `s`. */
  lemma OccursPastRun(s: string, w: string, k: nat, j: int)
    requires RunWord(w) && 0 < k == RunLength(s) && OccursAt(s[k..], w, j)
    ensures OccursAt(s, w, j + k)
  {
    RunLengthFacts(s);
    var t := s[k..];
    if k < |s| {
      assert t[0] == s[k];
    }
    assert t[j] == w[0];
    assert s[j + k..j + k + |w|] == t[j..j + |w|];
    assert s[j + k - 1] == t[j - 1];
  }

  /** Occurrences in `s` after its leading run `r` are those in `s` from `|r|` on. */
  lemma OccursAfterRun(s: string, w: string, k: nat)
    requires RunWord(w) && 0 < k == RunLength(s)
    ensures Occurs(s, w) <==> (w == s[..k] || Occurs(s[k..], w))
  {
    if Occurs(s, w) {
      var i :| OccursAt(s, w, i);
      OccursInRun(s, w, k, i);
    }
    if w == s[..k] {
      RunLengthFacts(s);
      assert OccursAt(s, w, 0);
    }
    if Occurs(s[k..], w) {
      var j :| OccursAt(s[k..], w, j);
      OccursPastRun(s, w, k, j);
    }
  }

  /** A word is one of the letter runs exactly when it stands on its own in the text. */
  lemma {:induction false} RunsOccur(s: string, w: string)
    requires RunWord(w)
    ensures w in LetterRuns(s) <==> Occurs(s, w)
    decreases |s|
  {
    if s == [] {
    } else if !IsLetterOrUnderscore(s[0]) {
      RunsOccur(s[1..], w);
      OccursTail(s, w);
    } else {
      var k := RunLength(s);
      RunsOccur(s[k..], w);
      OccursAfterRun(s, w, k);
    }
  }

  /**
   * The status in terms of the normalised text: `unsat` wins wherever it
   * stands, then `sat`; anything else (including `unknown`) is `unknown`.
   */
  lemma ParseStatusMeaning(stdout: string)
    ensures var t := NormalizedStatus(stdout);
      ParseStatus(stdout) == if Occurs(t, "unsat") then "unsat" else if Occurs(t, "sat") then "sat" else "unknown"
  {
    var t := NormalizedStatus(stdout);
    assert RunWord("unsat") && RunWord("sat");
    RunsOccur(t, "unsat");
    RunsOccur(t, "sat");
  }

  // ---------------------------------------------------------------------------
  // parse_get_value
  // ---------------------------------------------------------------------------

  /** A value of the environment: `True`/`False`, an `int`, or the raw text. */
  datatype Value = BoolValue(b: bool) | IntValue(i: int) | RawValue(s: string)

  /** Length of the leading run of `[^\)\s]`. */
  function ValueLength(s: string): (k: nat)
    ensures k <= |s|
  {
    if s == [] || s[0] == ')' || IsSpace(s[0]) then 0 else 1 + ValueLength(s[1..])
  }

  /**
   * `\(\s*([A-Za-z0-9_]+)\s+([^\)\s]+)\s*\)` at the start of `s`: the two
   * groups and the text after the match. The stages below read the
   * expression from left to right.
   */
  function PairAt(s: string): (r: Option<(string, string, string)>)
    ensures r.Some? ==> |r.value.2| < |s|
  {
    if s == [] || s[0] != '(' then None else NameAt(SkipSpaces(s[1..]))
  }

  /** `([A-Za-z0-9_]+)`, then the rest of the expression. */
  function NameAt(s: string): (r: Option<(string, string, string)>)
    ensures r.Some? ==> |r.value.2| < |s|
  {
    var k := NameLength(s);
    if k == 0 then None else GapAt(s[..k], s[k..])
  }

  /** `\s+`, then the rest of the expression. */
  function GapAt(name: string, s: string): (r: Option<(string, string, string)>)
    ensures r.Some? ==> |r.value.2| < |s|
  {
    var b := LeadingSpaces(s);
    if b == 0 then None else ValueAt(name, s[b..])
  }

  /** `([^\)\s]+)\s*`, then the closing parenthesis. */
  function ValueAt(name: string, s: string): (r: Option<(string, string, string)>)
    ensures r.Some? ==> |r.value.2| < |s|
  {
    var v := ValueLength(s);
    if v == 0 then None else CloseAt(name, s[..v], SkipSpaces(s[v..]))
  }

  /** `\)`. */
  function CloseAt(name: string, val: string, s: string): (r: Option<(string, string, string)>)
    ensures r.Some? ==> |r.value.2| < |s|
  {
    if s == [] || s[0] != ')' then None else Some((name, val, s[1..]))
  }

  /** `re.findall` of that expression: matches do not overlap, and a failed start moves on by one. */
  function FindPairs(s: string): seq<(string, string)>
    decreases |s|
  {
    if s == [] then []
    else
      match PairAt(s)
      case Some((name, val, rest)) => [(name, val)] + FindPairs(rest)
      case None => FindPairs(s[1..])
  }

  /** `true`/`false` in any case, else `int(val)`, else the text itself. */
  function ValueOf(val: string): Value {
    var v := Lower(val);
    if v == "true" then BoolValue(true)
    else if v == "false" then BoolValue(false)
    else
      match ParsePyInt(val)
      case Some(i) => IntValue(i)
      case None => RawValue(val)
  }

  /** The assignments the loop makes, in order. */
  function Assignments(pairs: seq<(string, string)>): (kvs: seq<(string, Value)>)
    ensures |kvs| == |pairs|
  {
    seq(|pairs|, i requires 0 <= i < |pairs| => (pairs[i].0, ValueOf(pairs[i].1)))
  }

  /** The pairs `parse_get_value` finds, after its whitespace normalisation. */
  function ReplyPairs(stdout: string): seq<(string, string)> {
    FindPairs(JoinSpace(Words(stdout)))
  }

  /** What `parse_get_value(stdout)` returns. */
  function ParseGetValue(stdout: string): Dict<string, Value> {
    PutAll([], Assignments(ReplyPairs(stdout)))
  }

  /** The loop of `parse_get_value`. */
  method ParseGetValueLoop(stdout: string) returns (env: Dict<string, Value>)
    ensures env == ParseGetValue(stdout)
  {
    var pairs := FindPairs(JoinSpace(Words(stdout)));
    ghost var kvs := Assignments(pairs);
    env := [];
    for i := 0 to |pairs|
      invariant PutAll(env, kvs[i..]) == ParseGetValue(stdout)
    {
      assert kvs[i..][1..] == kvs[i + 1..];
      var name, val := pairs[i].0, pairs[i].1;
      var v := Lower(val);
      if v == "true" {
        env := Put(env, name, BoolValue(true));
      } else if v == "false" {
        env := Put(env, name, BoolValue(false));
      } else {
        var parsed := ParsePyInt(val);
        if parsed.Some? {
          env := Put(env, name, IntValue(parsed.value));
        } else {
          env := Put(env, name, RawValue(val));
        }
      }
    }
  }

  /**
   * The environment: distinct names; a name no pair mentions is absent; a
   * name's value is read from the last pair that mentions it.
   */
  lemma GetValueMeaning(stdout: string)
    ensures DistinctKeys(ParseGetValue(stdout))
    ensures var pairs := ReplyPairs(stdout);
      forall name :: (forall i :: 0 <= i < |pairs| ==> pairs[i].0 != name) ==>
        Get(ParseGetValue(stdout), name).None?
    ensures var pairs := ReplyPairs(stdout);
      forall i :: 0 <= i < |pairs| && (forall j :: i < j < |pairs| ==> pairs[j].0 != pairs[i].0) ==>
        Get(ParseGetValue(stdout), pairs[i].0) == Some(ValueOf(pairs[i].1))
  {
    var pairs := ReplyPairs(stdout);
    var kvs := Assignments(pairs);
    PutAllDistinct([], kvs);
    forall name | forall i :: 0 <= i < |pairs| ==> pairs[i].0 != name
      ensures Get(ParseGetValue(stdout), name).None?
    {
      PutAllUntouched([], kvs, name);
    }
    forall i | 0 <= i < |pairs| && (forall j :: i < j < |pairs| ==> pairs[j].0 != pairs[i].0)
      ensures Get(ParseGetValue(stdout), pairs[i].0) == Some(ValueOf(pairs[i].1))
    {
      PutAllLast([], kvs, i);
    }
  }

  /** Only the tokens count: replies that differ in their whitespace alone read the same. */
  lemma GetValueLayout(a: string, b: string)
    requires Words(a) == Words(b)
    ensures ParseGetValue(a) == ParseGetValue(b)
  {
  }

  /**
   * `val` is the lower-case word `w` with any of its letters upper-cased:
   * position by position, the same character or the one 32 code points below.
   */
  predicate CaseSpelling(val: string, w: string) {
    |val| == |w| && forall i :: 0 <= i < |w| ==> val[i] == w[i] || val[i] as int == w[i] as int - 32
  }

  /** For a word of lower-case letters, `val.lower() == w` is a spelling of `w` in any case. */
  lemma CaseSpellingLower(val: string, w: string)
    requires forall i :: 0 <= i < |w| ==> 'a' <= w[i] <= 'z'
    ensures CaseSpelling(val, w) <==> Lower(val) == w
  {
    if CaseSpelling(val, w) {
      forall i | 0 <= i < |w|
        ensures Lower(val)[i] == w[i]
      {
        assert Lower(val)[i] == LowerChar(val[i]);
      }
    }
    if Lower(val) == w {
      forall i | 0 <= i < |w|
        ensures val[i] == w[i] || val[i] as int == w[i] as int - 32
      {
        assert LowerChar(val[i]) == w[i];
      }
    }
  }

  /** `true` and `false` in any mix of cases, and only those, become booleans. */
  lemma ValueOfBool(val: string)
    ensures ValueOf(val) == BoolValue(true) <==> CaseSpelling(val, "true")
    ensures ValueOf(val) == BoolValue(false) <==> CaseSpelling(val, "false")
  {
    CaseSpellingLower(val, "true");
    CaseSpellingLower(val, "false");
  }

  /** A value printed by `str(i)` reads back as the integer `i`. */
  lemma ValueOfInt(i: int)
    ensures ValueOf(IntToString(i)) == IntValue(i)
  {
    var s := IntToString(i);
    assert s[0] == '-' || IsDigit(s[0]) by {
      if i < 0 {
        assert s == "-" + NatToString(-i);
      }
    }
    assert Lower(s)[0] == LowerChar(s[0]);
    ParsePyIntOfIntToString(i);
  }

  // ---------------------------------------------------------------------------
  // A printed reply reads back
  // ---------------------------------------------------------------------------

  /** How a solver prints a value: `true`/`false`, or the digits of a non-negative integer. */
  function ValueText(v: Value): string {
    match v
    case BoolValue(b) => if b then "true" else "false"
    case IntValue(i) => if i >= 0 then NatToString(i) else "(- " + NatToString(-i) + ")"
    case RawValue(t) => t
  }

  /** An entry a solver can print and this reader can read back. */
  predicate Printable(e: (string, Value)) {
    |e.0| > 0 && (forall i :: 0 <= i < |e.0| ==> IsWordChar(e.0[i]))
    && (e.1.BoolValue? || (e.1.IntValue? && e.1.i >= 0))
  }

  /** `(name value)`. */
  function EntryText(e: (string, Value)): string {
    "(" + e.0 + " " + ValueText(e.1) + ")"
  }

  /** The entries followed by the closing parenthesis of the reply. */
  function EntriesText(es: seq<(string, Value)>): string {
    if es == [] then ")"
    else if |es| == 1 then EntryText(es[0]) + ")"
    else EntryText(es[0]) + " " + EntriesText(es[1..])
  }

  /** A `(get-value ...)` reply on one line: `((x 1) (y true))`. */
  function Reply(es: seq<(string, Value)>): string {
    "(" + EntriesText(es)
  }

  /** Every whitespace character is a lone `' '` between two other characters. */
  ghost predicate SingleSpaced(s: string) {
    (forall i :: 0 <= i < |s| && IsSpace(s[i]) ==> s[i] == ' ')
    && (|s| > 0 ==> !IsSpace(s[0]) && !IsSpace(s[|s| - 1]))
    && (forall i, j :: 0 <= i < |s| && j == i + 1 && j < |s| ==> !IsSpace(s[i]) || !IsSpace(s[j]))
  }

  /** A single-spaced text is what `" ".join(s.split())` makes of it. */
  lemma {:induction false} SingleSpacedFixed(s: string)
    requires SingleSpaced(s)
    ensures JoinSpace(Words(s)) == s
    decreases |s|
  {
    if s != [] {
      var k := WordLength(s);
      WordLengthFacts(s);
      if k == |s| {
        WordsOfWordThen(s, "");
        assert s + "" == s;
      } else {
        var t := s[k + 1..];
        SingleSpacedSplit(s, k);
        SingleSpacedFixed(t);
        WordsNonEmpty(t);
        assert JoinSpace([s[..k]] + Words(t)) == s[..k] + " " + JoinSpace(Words(t));
      }
    }
  }

  /** A single-spaced text splits at its first space into a word and a single-spaced rest. */
  lemma SingleSpacedSplit(s: string, k: nat)
    requires SingleSpaced(s) && 0 < k < |s| && k == WordLength(s)
    requires NoSpace(s[..k]) && IsSpace(s[k])
    ensures s[k] == ' ' && k + 1 < |s| && SingleSpaced(s[k + 1..]) && !IsSpace(s[k + 1])
    ensures s == s[..k] + " " + s[k + 1..]
    ensures Words(s) == [s[..k]] + Words(s[k + 1..])
  {
    var t := s[k + 1..];
    assert !IsSpace(s[k + 1]);
    assert forall i :: 0 <= i < |t| ==> t[i] == s[k + 1 + i];
    assert SingleSpaced(t) by {
      forall i, j | 0 <= i < |t| && j == i + 1 && j < |t|
        ensures !IsSpace(t[i]) || !IsSpace(t[j])
      {
        assert t[i] == s[k + 1 + i] && t[j] == s[k + 1 + j];
      }
    }
    SplitAround(s, k);
    WordsOfWordThen(s[..k], s[k..]);
    assert s[k..][1..] == t;
  }

  lemma SplitAround(s: string, k: nat)
    requires k < |s|
    ensures s == s[..k] + [s[k]] + s[k + 1..]
    ensures s[..k] + s[k..] == s
  {
  }

  lemma {:induction false} WordLengthFacts(s: string)
    ensures NoSpace(s[..WordLength(s)])
    ensures WordLength(s) < |s| ==> IsSpace(s[WordLength(s)])
    ensures s != [] && !IsSpace(s[0]) ==> WordLength(s) > 0
  {
    if s != [] && !IsSpace(s[0]) {
      WordLengthFacts(s[1..]);
      assert forall i :: 1 <= i < WordLength(s) ==> s[..WordLength(s)][i] == s[1..][..WordLength(s[1..])][i - 1];
    }
  }

  lemma WordsNonEmpty(s: string)
    requires s != [] && !IsSpace(s[0])
    ensures Words(s) != []
  {
  }

  lemma SingleSpacedCat(a: string, b: string)
    requires SingleSpaced(a) && SingleSpaced(b) && a != [] && b != []
    ensures SingleSpaced(a + b)
  {
    var s := a + b;
    assert forall i :: 0 <= i < |a| ==> s[i] == a[i];
    assert forall i :: |a| <= i < |s| ==> s[i] == b[i - |a|];
  }

  lemma SingleSpacedSep(a: string, b: string)
    requires SingleSpaced(a) && SingleSpaced(b) && a != [] && b != [] && !IsSpace(b[0])
    ensures SingleSpaced(a + " " + b)
  {
    var s := a + " " + b;
    assert forall i :: 0 <= i < |a| ==> s[i] == a[i];
    assert s[|a|] == ' ' && s[|a| + 1] == b[0];
    assert forall i :: |a| < i < |s| ==> s[i] == b[i - |a| - 1];
  }

  lemma NoSpaceSingleSpaced(s: string)
    requires NoSpace(s)
    ensures SingleSpaced(s)
  {
  }

  lemma ValueTextFacts(v: Value)
    requires v.BoolValue? || (v.IntValue? && v.i >= 0)
    ensures ValueText(v) != [] && NoSpace(ValueText(v))
    ensures forall i :: 0 <= i < |ValueText(v)| ==> ValueText(v)[i] != ')'
    ensures ValueOf(ValueText(v)) == v
  {
    if v.IntValue? {
      var t := NatToString(v.i);
      ParsePyIntOfNatToString(v.i);
      assert Lower(t)[0] == t[0];
      assert Lower(t) != "true" && Lower(t) != "false";
    } else {
      assert Lower("true") == "true" && Lower("false") == "false";
    }
  }

  lemma EntryTextSpaced(e: (string, Value))
    requires Printable(e)
    ensures SingleSpaced(EntryText(e)) && !IsSpace(EntryText(e)[0])
  {
    ValueTextFacts(e.1);
    var v := ValueText(e.1);
    NoSpaceSingleSpaced("(" + e.0);
    NoSpaceSingleSpaced(v + ")");
    assert (v + ")")[0] == v[0];
    SingleSpacedSep("(" + e.0, v + ")");
    assert EntryText(e) == "(" + e.0 + " " + (v + ")");
  }

  lemma {:induction false} EntriesTextSpaced(es: seq<(string, Value)>)
    requires forall i :: 0 <= i < |es| ==> Printable(es[i])
    ensures SingleSpaced(EntriesText(es)) && EntriesText(es) != []
    ensures !IsSpace(EntriesText(es)[0])
  {
    if es == [] {
    } else if |es| == 1 {
      EntryTextSpaced(es[0]);
      SingleSpacedCat(EntryText(es[0]), ")");
    } else {
      EntryTextSpaced(es[0]);
      EntriesTextSpaced(es[1..]);
      SingleSpacedSep(EntryText(es[0]), EntriesText(es[1..]));
    }
  }

  lemma ReplySpaced(es: seq<(string, Value)>)
    requires forall i :: 0 <= i < |es| ==> Printable(es[i])
    ensures SingleSpaced(Reply(es))
  {
    EntriesTextSpaced(es);
    SingleSpacedCat("(", EntriesText(es));
  }

  lemma {:induction false} ValueLengthOf(v: string, rest: string)
    requires NoSpace(v) && forall i :: 0 <= i < |v| ==> v[i] != ')'
    requires rest == [] || rest[0] == ')'
    ensures ValueLength(v + rest) == |v|
  {
    if v != [] {
      assert (v + rest)[1..] == v[1..] + rest;
      ValueLengthOf(v[1..], rest);
    }
  }

  lemma CloseAtOf(name: string, val: string, rest: string)
    ensures CloseAt(name, val, SkipSpaces(")" + rest)) == Some((name, val, rest))
  {
    assert LeadingSpaces(")" + rest) == 0;
    assert (")" + rest)[1..] == rest;
  }

  lemma ValueAtOf(name: string, v: string, rest: string)
    requires v != [] && NoSpace(v) && forall i :: 0 <= i < |v| ==> v[i] != ')'
    ensures ValueAt(name, v + (")" + rest)) == Some((name, v, rest))
  {
    ValueLengthOf(v, ")" + rest);
    var s := v + (")" + rest);
    assert s[..|v|] == v && s[|v|..] == ")" + rest;
    CloseAtOf(name, v, rest);
  }

  lemma GapAtOf(name: string, x: string)
    requires x != [] && !IsSpace(x[0])
    ensures GapAt(name, " " + x) == ValueAt(name, x)
  {
    assert (" " + x)[1..] == x;
    assert LeadingSpaces(" " + x) == 1;
  }

  lemma NameAtOf(n: string, x: string)
    requires n != [] && forall i :: 0 <= i < |n| ==> IsWordChar(n[i])
    requires x != [] && x[0] == ' '
    ensures NameAt(n + x) == GapAt(n, x)
  {
    NameLengthOf(n, x);
    assert (n + x)[..|n|] == n && (n + x)[|n|..] == x;
  }

  /** `(name value)` matches, leaving the text after it. */
  lemma PairAtEntry(e: (string, Value), rest: string)
    requires Printable(e)
    ensures PairAt(EntryText(e) + rest) == Some((e.0, ValueText(e.1), rest))
  {
    ValueTextFacts(e.1);
    var n, v := e.0, ValueText(e.1);
    var y := v + (")" + rest);
    var x := " " + y;
    var s := "(" + (n + x);
    assert EntryText(e) + rest == s;
    assert s[1..] == n + x;
    assert LeadingSpaces(n + x) == 0 by { assert (n + x)[0] == n[0]; }
    NameAtOf(n, x);
    assert y[0] == v[0];
    GapAtOf(n, y);
    ValueAtOf(n, v, rest);
  }

  /** `findall` after a match goes on after the matched text. */
  lemma FindPairsHit(s: string)
    requires PairAt(s).Some?
    ensures var m := PairAt(s).value; FindPairs(s) == [(m.0, m.1)] + FindPairs(m.2)
  {
  }

  /** `findall` where nothing matches moves on by one character. */
  lemma FindPairsMiss(s: string)
    requires s != [] && PairAt(s).None?
    ensures FindPairs(s) == FindPairs(s[1..])
  {
  }

  /** The printed pairs of entries: name and value text. */
  function Printed(es: seq<(string, Value)>): (ps: seq<(string, string)>)
    ensures |ps| == |es|
  {
    seq(|es|, i requires 0 <= i < |es| => (es[i].0, ValueText(es[i].1)))
  }

  lemma PrintedCons(es: seq<(string, Value)>)
    requires es != []
    ensures Printed(es) == [(es[0].0, ValueText(es[0].1))] + Printed(es[1..])
  {
  }

  lemma FindPairsClose()
    ensures FindPairs(")") == []
  {
    assert PairAt(")") == None;
    FindPairsMiss(")");
    assert ")"[1..] == [];
  }

  /** The pairs of the entries text are the entries, printed. */
  lemma {:induction false} FindPairsEntries(es: seq<(string, Value)>)
    requires forall i :: 0 <= i < |es| ==> Printable(es[i])
    ensures FindPairs(EntriesText(es)) == Printed(es)
  {
    FindPairsClose();
    if |es| == 1 {
      PairAtEntry(es[0], ")");
      FindPairsHit(EntryText(es[0]) + ")");
      PrintedCons(es);
    } else if |es| > 1 {
      var tail := EntriesText(es[1..]);
      assert EntriesText(es) == EntryText(es[0]) + (" " + tail);
      PairAtEntry(es[0], " " + tail);
      FindPairsHit(EntryText(es[0]) + (" " + tail));
      assert PairAt(" " + tail) == None;
      FindPairsMiss(" " + tail);
      assert (" " + tail)[1..] == tail;
      FindPairsEntries(es[1..]);
      PrintedCons(es);
    }
  }

  /**
   * Reading a printed reply gives back its entries: the environment is the
   * entries put in order, so each name holds the value of its last entry.
   */
  lemma GetValueOfReply(es: seq<(string, Value)>)
    requires forall i :: 0 <= i < |es| ==> Printable(es[i])
    ensures ParseGetValue(Reply(es)) == PutAll([], es)
  {
    ReplySpaced(es);
    SingleSpacedFixed(Reply(es));
    ReplyPairsOf(es);
    forall i | 0 <= i < |es|
      ensures ValueOf(ValueText(es[i].1)) == es[i].1
    {
      ValueTextFacts(es[i].1);
    }
    assert Assignments(Printed(es)) == es;
  }

  /** The pairs found in a printed reply. */
  lemma ReplyPairsOf(es: seq<(string, Value)>)
    requires forall i :: 0 <= i < |es| ==> Printable(es[i])
    ensures FindPairs(Reply(es)) == Printed(es)
  {
    FindPairsEntries(es);
    EntriesTextSpaced(es);
    var s := Reply(es);
    assert s[1..] == EntriesText(es);
    assert s[1..][0] != ' ';
    assert PairAt(s) == None by {
      assert SkipSpaces(s[1..]) == s[1..];
      assert NameLength(s[1..]) == 0;
    }
    FindPairsMiss(s);
  }
}
