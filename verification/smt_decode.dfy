/**
 * Decoding an SMT solver's model into a schedule (source/SMT/smt_decode.py):
 * `decode_smt_model` finds the Boolean definitions in Yices' `(define-fun x ()
 * Bool true)` form and in OpenSMT's `(x true)` form, keeps those named
 * `M_i_j_P{p}_W{w}` and `H_i_j_P{p}_W{w}`, and writes each true `M` variable
 * into its cell of the `n // 2` by `n - 1` matrix, home team first.
 *
 * `M_vals` and `H_vals` are Python dicts: a key keeps the place of its first
 * insertion and the value of its last, and the matrix is filled in that
 * order, so both are ordered association lists (module Dict).
 */
module SmtDecode {
  import opened Wrappers
  import opened Text
  import opened Dict
  import opened RoundRobin
  import opened SatDecode
  import opened SmtlibExport

  // ---------------------------------------------------------------------------
  // The two regular expressions
  // ---------------------------------------------------------------------------

  /** Which of the two model layouts a definition is read in. */
  datatype Dialect = Yices | OpenSmt

  /** `(true|false)` read with `val.lower() == "true"`, then the text after it. */
  function BoolWord(s: string): Option<(bool, string)> {
    match AfterPrefixFold(s, "true")
    case Some(t) => Some((true, t))
    case None =>
      match AfterPrefixFold(s, "false")
      case Some(t) => Some((false, t))
      case None => None
  }

  /** `(true|false)\)` (Yices: the parenthesis follows at once). */
  function YicesValue(name: string, s: string): (r: Option<(string, bool, string)>)
    ensures r.Some? ==> |r.value.2| < |s|
  {
    match BoolWord(s)
    case None => None
    case Some((b, t)) => if t != [] && t[0] == ')' then Some((name, b, t[1..])) else None
  }

  /** `\s*Bool\s+(true|false)\)`, once the `()` after the name has matched. */
  function YicesType(name: string, s: string): (r: Option<(string, bool, string)>)
    ensures r.Some? ==> |r.value.2| < |s|
  {
    match AfterPrefixFold(SkipSpaces(s), "bool")
    case None => None
    case Some(t) =>
      var c := LeadingSpaces(t);
      if c == 0 then None else YicesValue(name, t[c..])
  }

  /** `([A-Za-z0-9_]+)\s*\(\)`, then the type and the value. */
  function YicesName(s: string): (r: Option<(string, bool, string)>)
    ensures r.Some? ==> |r.value.2| < |s|
  {
    var k := NameLength(s);
    if k == 0 then None
    else
      match AfterPrefix(SkipSpaces(s[k..]), "()")
      case None => None
      case Some(t) => YicesType(s[..k], t)
  }

  /**
   * `\(define-fun\s+([A-Za-z0-9_]+)\s*\(\)\s*Bool\s+(true|false)\)`, without
   * regard to case, at the start of `s`: the name, the value and the text after
   * the match. Every part is followed by one that cannot start with a character
   * the part consumes, so the greedy reading is the only match.
   */
  function YicesAt(s: string): (r: Option<(string, bool, string)>)
    ensures r.Some? ==> |r.value.2| < |s|
  {
    if s == [] || s[0] != '(' then None
    else
      match AfterPrefixFold(s[1..], "define-fun")
      case None => None
      case Some(t) =>
        var b := LeadingSpaces(t);
        if b == 0 then None else YicesName(t[b..])
  }

  /** `(true|false)\s*\)` (OpenSMT: spaces may come before the parenthesis). */
  function OpenSmtValue(name: string, s: string): (r: Option<(string, bool, string)>)
    ensures r.Some? ==> |r.value.2| < |s|
  {
    match BoolWord(s)
    case None => None
    case Some((b, t)) =>
      var u := SkipSpaces(t);
      if u != [] && u[0] == ')' then Some((name, b, u[1..])) else None
  }

  /** `\(\s*([A-Za-z0-9_]+)\s+(true|false)\s*\)`, without regard to case, at the start of `s`. */
  function OpenSmtAt(s: string): (r: Option<(string, bool, string)>)
    ensures r.Some? ==> |r.value.2| < |s|
  {
    if s == [] || s[0] != '(' then None
    else
      var u := SkipSpaces(s[1..]);
      var k := NameLength(u);
      if k == 0 then None
      else
        var t := u[k..];
        var c := LeadingSpaces(t);
        if c == 0 then None else OpenSmtValue(u[..k], t[c..])
  }

  function DefAt(d: Dialect, s: string): (r: Option<(string, bool, string)>)
    ensures r.Some? ==> |r.value.2| < |s|
  {
    match d
    case Yices => YicesAt(s)
    case OpenSmt => OpenSmtAt(s)
  }

  /** `re.findall` of a dialect's expression: the `(name, value)` definitions, in order. */
  function FindDefs(d: Dialect, s: string): seq<(string, bool)>
    decreases |s|
  {
    if s == [] then []
    else
      match DefAt(d, s)
      case Some((name, b, rest)) => [(name, b)] + FindDefs(d, rest)
      case None => FindDefs(d, s[1..])
  }

  // ---------------------------------------------------------------------------
  // The variable names
  // ---------------------------------------------------------------------------

  /** The two families of variables. */
  datatype Kind = MatchVar | HomeVar

  /** `(ti, tj, p, w)`. */
  type Key = (nat, nat, nat, nat)

  /** A literal, then a greedy `(\d+)` read with `int()`. */
  function LitNat(s: string, lit: string): Option<(nat, string)> {
    match AfterPrefix(s, lit)
    case None => None
    case Some(t) => ReadNat(t)
  }

  /** `_(\d+)_P(\d+)_W(\d+)`, after the first team. */
  function KeyTail(ti: nat, s: string): Option<Key> {
    match LitNat(s, "_")
    case None => None
    case Some((tj, s1)) =>
      match LitNat(s1, "_P")
      case None => None
      case Some((p, s2)) =>
        match LitNat(s2, "_W")
        case None => None
        case Some((w, _)) => Some((ti, tj, p, w))
  }

  /**
   * `re.match(r"([MH])_(\d+)_(\d+)_P(\d+)_W(\d+)", name)`: the kind and the
   * key. The match is anchored at the start only, so anything may follow.
   */
  function ParseMatchVar(name: string): Option<(Kind, Key)> {
    if name == [] || (name[0] != 'M' && name[0] != 'H') then None
    else
      var kind := if name[0] == 'M' then MatchVar else HomeVar;
      match LitNat(name[1..], "_")
      case None => None
      case Some((ti, s1)) =>
        match KeyTail(ti, s1)
        case None => None
        case Some(key) => Some((kind, key))
  }

  lemma LitNatOf(lit: string, k: nat, rest: string)
    requires rest == [] || !IsDigit(rest[0])
    ensures LitNat(lit + (NatToString(k) + rest), lit) == Some((k, rest))
  {
    AfterPrefixOf(lit, NatToString(k) + rest);
    ReadNatOfNatToString(k, rest);
  }

  /** `_{j}_P{p}_W{w}`, then anything not starting with a digit, reads back `(i, j, p, w)`. */
  lemma KeyTailOf(i: nat, j: nat, p: nat, w: nat, rest: string)
    requires rest == [] || !IsDigit(rest[0])
    ensures KeyTail(i, "_" + (NatToString(j) + ("_P" + (NatToString(p) + ("_W" + (NatToString(w) + rest)))))) ==
      Some((i, j, p, w))
  {
    var tailW := "_W" + (NatToString(w) + rest);
    var tailP := "_P" + (NatToString(p) + tailW);
    LitNatOf("_", j, tailP);
    LitNatOf("_P", p, tailW);
    LitNatOf("_W", w, rest);
  }

  lemma NameLayout(kind: string, i: nat, j: nat, p: nat, w: nat, rest: string)
    ensures MatchVarName(kind, i, j, p, w) + rest ==
      kind + ("_" + (NatToString(i) + ("_" + (NatToString(j) + ("_P" + (NatToString(p) + ("_W" + (NatToString(w) + rest))))))))
  {
  }

  /** `([MH])_(\d+)` over the kind letter and the first team; the rest of the key follows. */
  lemma ParseStep(kind: string, x: string, i: nat, tail: string, key: Key)
    requires kind == "M" || kind == "H"
    requires LitNat(x, "_") == Some((i, tail)) && KeyTail(i, tail) == Some(key)
    ensures ParseMatchVar(kind + x) == Some((if kind == "M" then MatchVar else HomeVar, key))
  {
    assert (kind + x)[0] == kind[0] && (kind + x)[1..] == x;
  }

  lemma ParseNameOf(kind: string, i: nat, j: nat, p: nat, w: nat, rest: string)
    requires kind == "M" || kind == "H"
    requires rest == [] || !IsDigit(rest[0])
    ensures ParseMatchVar(MatchVarName(kind, i, j, p, w) + rest) ==
      Some((if kind == "M" then MatchVar else HomeVar, (i, j, p, w)))
  {
    var tailJ := "_" + (NatToString(j) + ("_P" + (NatToString(p) + ("_W" + (NatToString(w) + rest)))));
    NameLayout(kind, i, j, p, w, rest);
    assert tailJ[0] == '_';
    LitNatOf("_", i, tailJ);
    KeyTailOf(i, j, p, w, rest);
    ParseStep(kind, "_" + (NatToString(i) + tailJ), i, tailJ, (i, j, p, w));
  }

  /**
   * The pattern reads back the key of every name `var_M` and `var_H` write,
   * whatever follows the name.
   */
  lemma ParseMatchVarName(i: nat, j: nat, p: nat, w: nat, rest: string)
    requires rest == [] || !IsDigit(rest[0])
    ensures ParseMatchVar(VarM(i, j, p, w) + rest) == Some((MatchVar, (i, j, p, w)))
    ensures ParseMatchVar(VarH(i, j, p, w) + rest) == Some((HomeVar, (i, j, p, w)))
  {
    ParseNameOf("M", i, j, p, w, rest);
    ParseNameOf("H", i, j, p, w, rest);
  }

  // ---------------------------------------------------------------------------
  // M_vals and H_vals
  // ---------------------------------------------------------------------------

  /** What one definition adds to the dict of `kind`: its key and value, if its name has that kind. */
  function EntryOf(kind: Kind, def: (string, bool)): seq<(Key, bool)> {
    match ParseMatchVar(def.0)
    case Some((k, key)) => if k == kind then [(key, def.1)] else []
    case None => []
  }

  /** The assignments the loops make to the dict of `kind`, in order. */
  function Entries(kind: Kind, defs: seq<(string, bool)>): (es: seq<(Key, bool)>)
    ensures |es| <= |defs|
  {
    if defs == [] then [] else Entries(kind, defs[..|defs| - 1]) + EntryOf(kind, defs[|defs| - 1])
  }

  /** `text = model_str.replace("\n", " ")`. */
  function ModelText(modelStr: string): string {
    ReplaceChar(modelStr, '\n', ' ')
  }

  /** The definitions both passes read: first every Yices one, then every OpenSMT one. */
  function Defs(modelStr: string): seq<(string, bool)> {
    var text := ModelText(modelStr);
    FindDefs(Yices, text) + FindDefs(OpenSmt, text)
  }

  /** `M_vals` (for `MatchVar`) or `H_vals` (for `HomeVar`). */
  function Vals(kind: Kind, modelStr: string): Dict<Key, bool> {
    PutAll([], Entries(kind, Defs(modelStr)))
  }

  /** The entries of one more definition. */
  lemma EntriesSnoc(kind: Kind, defs: seq<(string, bool)>, i: nat)
    requires i < |defs|
    ensures Entries(kind, defs[..i + 1]) == Entries(kind, defs[..i]) + EntryOf(kind, defs[i])
  {
    assert defs[..i + 1][..i] == defs[..i];
  }

  /** Assigning the entries of one definition is one `Put`, or nothing. */
  lemma EntryOfStep(d: Dict<Key, bool>, kind: Kind, def: (string, bool))
    ensures var m := ParseMatchVar(def.0);
      PutAll(d, EntryOf(kind, def)) == if m.Some? && m.value.0 == kind then Put(d, m.value.1, def.1) else d
  {
  }

  /** The loop body of both passes, over the definitions `defs` of one pass. */
  method Record(defs: seq<(string, bool)>, mVals: Dict<Key, bool>, hVals: Dict<Key, bool>)
    returns (mVals': Dict<Key, bool>, hVals': Dict<Key, bool>)
    ensures mVals' == PutAll(mVals, Entries(MatchVar, defs))
    ensures hVals' == PutAll(hVals, Entries(HomeVar, defs))
  {
    mVals', hVals' := mVals, hVals;
    for i := 0 to |defs|
      invariant mVals' == PutAll(mVals, Entries(MatchVar, defs[..i]))
      invariant hVals' == PutAll(hVals, Entries(HomeVar, defs[..i]))
    {
      EntriesSnoc(MatchVar, defs, i);
      EntriesSnoc(HomeVar, defs, i);
      PutAllAppend(mVals, Entries(MatchVar, defs[..i]), EntryOf(MatchVar, defs[i]));
      PutAllAppend(hVals, Entries(HomeVar, defs[..i]), EntryOf(HomeVar, defs[i]));
      EntryOfStep(mVals', MatchVar, defs[i]);
      EntryOfStep(hVals', HomeVar, defs[i]);
      var name, val := defs[i].0, defs[i].1;
      var m := ParseMatchVar(name);
      if m.Some? {
        var key := m.value.1;
        if m.value.0 == MatchVar {
          mVals' := Put(mVals', key, val);
        } else {
          hVals' := Put(hVals', key, val);
        }
      }
    }
    assert defs[..|defs|] == defs;
  }

  lemma {:induction false} EntriesAppend(kind: Kind, a: seq<(string, bool)>, b: seq<(string, bool)>)
    ensures Entries(kind, a + b) == Entries(kind, a) + Entries(kind, b)
    decreases |b|
  {
    if b == [] {
      assert a + b == a;
    } else {
      var b' := b[..|b| - 1];
      assert (a + b)[..|a + b| - 1] == a + b';
      assert (a + b)[|a + b| - 1] == b[|b| - 1];
      EntriesAppend(kind, a, b');
    }
  }

  lemma {:induction false} PutAllAppend<K, V>(d: Dict<K, V>, a: seq<(K, V)>, b: seq<(K, V)>)
    ensures PutAll(PutAll(d, a), b) == PutAll(d, a + b)
    decreases |a|
  {
    if a == [] {
      assert a + b == b;
    } else {
      assert (a + b)[0] == a[0] && (a + b)[1..] == a[1..] + b;
      PutAllAppend(Put(d, a[0].0, a[0].1), a[1..], b);
    }
  }

  /** The definition `def` is of the variable `key` of `kind`, with value `b`. */
  predicate Defines(def: (string, bool), kind: Kind, key: Key, b: bool) {
    ParseMatchVar(def.0) == Some((kind, key)) && def.1 == b
  }

  /** A definition gives an entry of `kind` exactly when its name parses to that kind. */
  lemma {:induction false} EntriesMeaning(kind: Kind, defs: seq<(string, bool)>, key: Key, b: bool)
    ensures (key, b) in Entries(kind, defs) <==> exists i :: 0 <= i < |defs| && Defines(defs[i], kind, key, b)
  {
    if defs != [] {
      var k := |defs| - 1;
      var init, last := defs[..k], defs[k];
      EntriesMeaning(kind, init, key, b);
      EntriesSnoc(kind, defs, k);
      assert defs[..k + 1] == defs;
      var inInit := (key, b) in Entries(kind, init);
      var inLast := (key, b) in EntryOf(kind, last);
      assert (key, b) in Entries(kind, defs) <==> inInit || inLast;
      assert inLast <==> Defines(last, kind, key, b);
      ExistsSnoc(defs, init, d => Defines(d, kind, key, b));
    }
  }

  /** Some element satisfies `P` exactly when one before the last does or the last one does. */
  lemma ExistsSnoc<T>(xs: seq<T>, init: seq<T>, P: T -> bool)
    requires xs != [] && init == xs[..|xs| - 1]
    ensures (exists i :: 0 <= i < |xs| && P(xs[i])) <==> (exists i :: 0 <= i < |init| && P(init[i])) || P(xs[|xs| - 1])
  {
    if exists i :: 0 <= i < |xs| && P(xs[i]) {
      var i :| 0 <= i < |xs| && P(xs[i]);
      if i < |init| {
        assert init[i] == xs[i];
      }
    }
    if exists i :: 0 <= i < |init| && P(init[i]) {
      var i :| 0 <= i < |init| && P(init[i]);
      assert xs[i] == init[i];
    }
  }

  /**
   * `M_vals`/`H_vals` have distinct keys; a key no definition names is absent;
   * otherwise it holds the value of its last definition, and an OpenSMT
   * definition comes after every Yices one.
   */
  lemma ValsMeaning(kind: Kind, modelStr: string)
    ensures DistinctKeys(Vals(kind, modelStr))
    ensures var es := Entries(kind, Defs(modelStr));
      forall key :: (forall i :: 0 <= i < |es| ==> es[i].0 != key) ==> Get(Vals(kind, modelStr), key).None?
    ensures var es := Entries(kind, Defs(modelStr));
      forall i :: 0 <= i < |es| && (forall j :: i < j < |es| ==> es[j].0 != es[i].0) ==>
        Get(Vals(kind, modelStr), es[i].0) == Some(es[i].1)
    ensures var text := ModelText(modelStr);
      Entries(kind, Defs(modelStr)) == Entries(kind, FindDefs(Yices, text)) + Entries(kind, FindDefs(OpenSmt, text))
  {
    var es := Entries(kind, Defs(modelStr));
    var text := ModelText(modelStr);
    EntriesAppend(kind, FindDefs(Yices, text), FindDefs(OpenSmt, text));
    PutAllDistinct([], es);
    forall key | forall i :: 0 <= i < |es| ==> es[i].0 != key
      ensures Get(Vals(kind, modelStr), key).None?
    {
      PutAllUntouched([], es, key);
    }
    forall i | 0 <= i < |es| && (forall j :: i < j < |es| ==> es[j].0 != es[i].0)
      ensures Get(Vals(kind, modelStr), es[i].0) == Some(es[i].1)
    {
      PutAllLast([], es, i);
    }
  }

  // ---------------------------------------------------------------------------
  // Filling the matrix
  // ---------------------------------------------------------------------------

  /** `[home, away]`: `(ti, tj)`, turned round only when `H_vals` says `False` for the key. */
  function Orient(key: Key, hVals: Dict<Key, bool>): Pair {
    if Get(hVals, key) == Some(false) then (key.1, key.0) else (key.0, key.1)
  }

  /** The cell an `M` entry writes, if any: it must be true and its period and week in range. */
  function EntryCell(e: (Key, bool), n: int): Option<(nat, nat)> {
    var (ti, tj, p, w) := e.0;
    if !e.1 || p >= n / 2 || w >= n - 1 then None else Some((p, w))
  }

  /** The effect of one `M` entry: `sol[p][w] = [home, away]`, or nothing. */
  function PlaceMatch(g: seq<seq<Option<Pair>>>, e: (Key, bool), hVals: Dict<Key, bool>, n: int)
    : (g': seq<seq<Option<Pair>>>)
    requires Shaped(g, n)
    ensures Shaped(g', n)
  {
    match EntryCell(e, n)
    case None => g
    case Some((p, w)) => g[p := g[p][w := Some(Orient(e.0, hVals))]]
  }

  /** The matrix after the loop has seen the entries `es` of `M_vals`, in order. */
  function PlaceMatches(es: seq<(Key, bool)>, hVals: Dict<Key, bool>, n: int): (g: seq<seq<Option<Pair>>>)
    ensures Shaped(g, n)
  {
    if es == [] then EmptyGrid(n / 2, n - 1)
    else PlaceMatch(PlaceMatches(es[..|es| - 1], hVals, n), es[|es| - 1], hVals, n)
  }

  /** `decode_smt_model(model_str, n)`. */
  function DecodeModel(modelStr: string, n: int): (g: seq<seq<Option<Pair>>>)
    ensures Shaped(g, n)
  {
    PlaceMatches(Vals(MatchVar, modelStr), Vals(HomeVar, modelStr), n)
  }

  /** `decode_smt_model`, loop by loop. */
  method DecodeSmtModel(modelStr: string, n: int) returns (sol: seq<seq<Option<Pair>>>)
    ensures sol == DecodeModel(modelStr, n)
  {
    var text := ReplaceChar(modelStr, '\n', ' ');
    var yicesDefs := FindDefs(Yices, text);
    var mVals, hVals := Record(yicesDefs, [], []);
    var openSmtDefs := FindDefs(OpenSmt, text);
    mVals, hVals := Record(openSmtDefs, mVals, hVals);
    EntriesAppend(MatchVar, yicesDefs, openSmtDefs);
    EntriesAppend(HomeVar, yicesDefs, openSmtDefs);
    PutAllAppend([], Entries(MatchVar, yicesDefs), Entries(MatchVar, openSmtDefs));
    PutAllAppend([], Entries(HomeVar, yicesDefs), Entries(HomeVar, openSmtDefs));
    sol := FillMatrix(mVals, hVals, n);
  }

  /** The last loop of `decode_smt_model`: the true `M` entries with a period and week in range, in order. */
  method FillMatrix(mVals: Dict<Key, bool>, hVals: Dict<Key, bool>, n: int) returns (sol: seq<seq<Option<Pair>>>)
    ensures sol == PlaceMatches(mVals, hVals, n)
  {
    sol := EmptyGrid(n / 2, n - 1);
    for i := 0 to |mVals|
      invariant sol == PlaceMatches(mVals[..i], hVals, n)
    {
      assert mVals[..i + 1][..i] == mVals[..i];
      var key, mv := mVals[i].0, mVals[i].1;
      var (ti, tj, p, w) := key;
      if !mv {
        continue;
      }
      if p < 0 || p >= n / 2 || w < 0 || w >= n - 1 {
        continue;
      }
      var home, away := ti, tj;
      var h := Get(hVals, key);
      if h.Some? {
        if h.value == false {
          home, away := tj, ti;
        }
      }
      sol := sol[p := sol[p][w := Some((home, away))]];
    }
    assert mVals[..|mVals|] == mVals;
  }

  // ---------------------------------------------------------------------------
  // What the matrix holds
  // ---------------------------------------------------------------------------

  /** The key of the last entry of `es` that writes cell `(p, w)`. */
  function LastMatch(es: seq<(Key, bool)>, n: int, p: nat, w: nat): (r: Option<Key>)
    ensures r.Some? ==> r.value.2 == p && r.value.3 == w
  {
    if es == [] then None
    else if EntryCell(es[|es| - 1], n) == Some((p, w)) then Some(es[|es| - 1].0)
    else LastMatch(es[..|es| - 1], n, p, w)
  }

  /**
   * Later entries win: cell `(p, w)` holds the oriented pair of the last true
   * `M` entry for that period and week, and stays `None` if there is none.
   */
  lemma {:induction false} PlaceMatchesCell(es: seq<(Key, bool)>, hVals: Dict<Key, bool>, n: int, p: nat, w: nat)
    requires p < n / 2 && w < n - 1
    ensures PlaceMatches(es, hVals, n)[p][w] ==
      match LastMatch(es, n, p, w) case None => None case Some(key) => Some(Orient(key, hVals))
  {
    if es != [] {
      PlaceMatchesCell(es[..|es| - 1], hVals, n, p, w);
    }
  }

  /** `LastMatch` finds one of the true in-range entries for the cell, whenever there is one. */
  lemma {:induction false} LastMatchFrom(es: seq<(Key, bool)>, n: int, p: nat, w: nat)
    ensures LastMatch(es, n, p, w).Some? ==>
      exists i :: 0 <= i < |es| && EntryCell(es[i], n) == Some((p, w)) && es[i].0 == LastMatch(es, n, p, w).value
    ensures (exists i :: 0 <= i < |es| && EntryCell(es[i], n) == Some((p, w))) ==> LastMatch(es, n, p, w).Some?
  {
    if es != [] {
      var init := es[..|es| - 1];
      LastMatchFrom(init, n, p, w);
      assert forall i :: 0 <= i < |init| ==> init[i] == es[i];
    }
  }

  /**
   * A cell of the decoded matrix is filled exactly when some true `M`
   * variable names its period and week; it then holds that match's two teams,
   * the `H` variable deciding which is at home (the first when `H` is missing
   * or true).
   */
  lemma DecodeCell(modelStr: string, n: int, p: nat, w: nat)
    requires p < n / 2 && w < n - 1
    ensures var es := Vals(MatchVar, modelStr);
      DecodeModel(modelStr, n)[p][w].Some? <==> exists i :: 0 <= i < |es| && es[i].1 && es[i].0.2 == p && es[i].0.3 == w
    ensures var es := Vals(MatchVar, modelStr);
      DecodeModel(modelStr, n)[p][w].Some? ==>
        exists i :: 0 <= i < |es| && es[i].1 && es[i].0.2 == p && es[i].0.3 == w &&
          DecodeModel(modelStr, n)[p][w] == Some(Orient(es[i].0, Vals(HomeVar, modelStr)))
  {
    var es := Vals(MatchVar, modelStr);
    PlaceMatchesCell(es, Vals(HomeVar, modelStr), n, p, w);
    LastMatchFrom(es, n, p, w);
    if exists i :: 0 <= i < |es| && es[i].1 && es[i].0.2 == p && es[i].0.3 == w {
      var i :| 0 <= i < |es| && es[i].1 && es[i].0.2 == p && es[i].0.3 == w;
      assert EntryCell(es[i], n) == Some((p, w));
    }
  }

  /** The home team is one of the key's two teams, and `H` turns the pair round only when it is false. */
  lemma OrientMeaning(key: Key, hVals: Dict<Key, bool>)
    ensures Orient(key, hVals) == (key.0, key.1) <==> (Get(hVals, key) != Some(false) || key.0 == key.1)
    ensures Orient(key, hVals) == (key.1, key.0) <==> (Get(hVals, key) == Some(false) || key.0 == key.1)
  {
  }


  // ---------------------------------------------------------------------------
  // Models as the solvers print them
  // ---------------------------------------------------------------------------

  /** A name `[A-Za-z0-9_]+` reads whole. */
  predicate IsName(name: string) {
    |name| > 0 && forall i :: 0 <= i < |name| ==> IsWordChar(name[i])
  }

  predicate Names(defs: seq<(string, bool)>) {
    forall i :: 0 <= i < |defs| ==> IsName(defs[i].0)
  }

  /** `v` spells the value `b` in some mix of cases: `true`, `TRUE`, `False`, ... */
  predicate Spells(v: string, b: bool) {
    Lower(v) == if b then "true" else "false"
  }

  /** How both solvers print a value. */
  function BoolText(b: bool): (v: string)
    ensures Spells(v, b)
  {
    assert Lower("true") == "true";
    assert Lower("false") == "false";
    if b then "true" else "false"
  }

  /** Yices' line for one Boolean: `(define-fun NAME () Bool VALUE)`. */
  function YicesDef(name: string, v: string): string {
    "(define-fun " + name + " () Bool " + v + ")"
  }

  /** OpenSMT's entry for one Boolean: `(NAME VALUE)`. */
  function OpenSmtDef(name: string, v: string): string {
    "(" + name + " " + v + ")"
  }

  /** The line the solver of `d` prints for one definition. */
  function Line(d: Dialect, name: string, b: bool): string {
    match d
    case Yices => YicesDef(name, BoolText(b))
    case OpenSmt => OpenSmtDef(name, BoolText(b))
  }

  /** One line per definition, in order. */
  function Lines(d: Dialect, defs: seq<(string, bool)>): string {
    if defs == [] then [] else Line(d, defs[0].0, defs[0].1) + "\n" + Lines(d, defs[1..])
  }

  /**
   * The model text the solver of `d` prints for `defs`: Yices' lines as they
   * are, OpenSMT's inside one pair of parentheses, as in `((M_1_2_P0_W0 true))`.
   */
  function Printed(d: Dialect, defs: seq<(string, bool)>): string {
    match d
    case Yices => Lines(Yices, defs)
    case OpenSmt => "(" + Lines(OpenSmt, defs) + ")"
  }

  /** The other layout. */
  function Other(d: Dialect): Dialect {
    match d
    case Yices => OpenSmt
    case OpenSmt => Yices
  }

  /** A literal spelled in any case is consumed whole. */
  lemma AfterPrefixFoldSpelled(x: string, lit: string, rest: string)
    requires Lower(x) == lit
    ensures AfterPrefixFold(x + rest, lit) == Some(rest)
  {
    assert (x + rest)[..|lit|] == x;
  }

  /** The keywords of the Yices expression, as `re.IGNORECASE` compares them. */
  lemma LowerKeywords()
    ensures Lower("Bool") == "bool" && Lower("define-fun") == "define-fun"
  {
    assert LowerChar('B') == 'b';
    assert forall i :: 0 <= i < 4 ==> Lower("Bool")[i] == "bool"[i];
    assert forall i :: 0 <= i < 10 ==> Lower("define-fun")[i] == "define-fun"[i];
  }

  /** `\s*` over exactly one space. */
  lemma OneSpace(x: string)
    requires x != [] && !IsSpace(x[0])
    ensures LeadingSpaces(" " + x) == 1 && SkipSpaces(" " + x) == x
  {
    assert (" " + x)[1..] == x;
  }

  /** A spelling of a value reads as that value, whatever follows it. */
  lemma BoolWordOf(v: string, b: bool, rest: string)
    requires Spells(v, b)
    ensures BoolWord(v + rest) == Some((b, rest))
  {
    AfterPrefixFoldSpelled(v, if b then "true" else "false", rest);
    if !b {
      var s := v + rest;
      assert s[..4][0] == v[0];
      assert Lower(v)[0] == 'f';
      assert Lower(s[..4])[0] == 'f';
    }
  }

  /** A spelled value starts with a letter and holds no parenthesis and no line break. */
  lemma SpelledChars(v: string, b: bool)
    requires Spells(v, b)
    ensures |v| > 0 && !IsSpace(v[0])
    ensures forall i :: 0 <= i < |v| ==> v[i] != '(' && v[i] != '\n'
  {
    var lit := if b then "true" else "false";
    forall i | 0 <= i < |v|
      ensures 'a' <= LowerChar(v[i]) <= 'z'
    {
      assert LowerChar(v[i]) == Lower(v)[i] == lit[i];
    }
  }

  /** `\s+(true|false)\)` over one space, a spelled value and the parenthesis. */
  lemma YicesValueOf(name: string, v: string, b: bool, rest: string)
    requires Spells(v, b)
    ensures var x := " " + (v + (")" + rest));
      LeadingSpaces(x) == 1 && YicesValue(name, x[1..]) == Some((name, b, rest))
  {
    SpelledChars(v, b);
    var z := ")" + rest;
    OneSpace(v + z);
    BoolWordOf(v, b, z);
    assert z[1..] == rest;
  }

  /** `\s*Bool\s+(true|false)\)` over ` Bool VALUE)`, `Bool` in any case. */
  lemma YicesTypeOf(name: string, v: string, b: bool, rest: string)
    requires Spells(v, b)
    ensures YicesType(name, " Bool" + (" " + (v + (")" + rest)))) == Some((name, b, rest))
  {
    var x := " " + (v + (")" + rest));
    var s := " Bool" + x;
    assert s == " " + ("Bool" + x);
    OneSpace("Bool" + x);
    assert SkipSpaces(s) == "Bool" + x;
    LowerKeywords();
    AfterPrefixFoldSpelled("Bool", "bool", x);
    assert AfterPrefixFold(SkipSpaces(s), "bool") == Some(x);
    YicesValueOf(name, v, b, rest);
    assert x[LeadingSpaces(x)..] == x[1..];
  }

  /** `([A-Za-z0-9_]+)\s*\(\)` over the name, a space and `()`, then the type and the value. */
  lemma YicesNameOf(name: string, v: string, b: bool, rest: string)
    requires IsName(name) && Spells(v, b)
    ensures YicesName(name + (" ()" + (" Bool" + (" " + (v + (")" + rest)))))) == Some((name, b, rest))
  {
    var u := " Bool" + (" " + (v + (")" + rest)));
    var tail := " ()" + u;
    var s := name + tail;
    NameLengthOf(name, tail);
    assert s[..|name|] == name && s[|name|..] == tail;
    assert tail == " " + ("()" + u);
    OneSpace("()" + u);
    assert SkipSpaces(tail) == "()" + u;
    AfterPrefixOf("()", u);
    YicesTypeOf(name, v, b, rest);
  }

  /** An opening parenthesis and what follows it. */
  lemma Open(x: string)
    ensures "(" + x != [] && ("(" + x)[0] == '(' && ("(" + x)[1..] == x
  {
  }

  /** `\(define-fun\s+` over `(define-fun` and one space. */
  lemma YicesAtStep(x: string, t: string)
    requires AfterPrefixFold(x, "define-fun") == Some(t) && LeadingSpaces(t) == 1
    ensures YicesAt("(" + x) == YicesName(t[1..])
  {
    Open(x);
  }

  /** A printed `define-fun`, piece by piece. */
  lemma YicesDefShape(name: string, v: string, rest: string)
    ensures YicesDef(name, v) + rest
      == "(" + ("define-fun" + (" " + (name + (" ()" + (" Bool" + (" " + (v + (")" + rest))))))))
  {
  }

  /** The Yices expression reads a printed `define-fun`, in any case of its value. */
  lemma YicesAtPrinted(name: string, v: string, b: bool, rest: string)
    requires IsName(name) && Spells(v, b)
    ensures YicesAt(YicesDef(name, v) + rest) == Some((name, b, rest))
  {
    var u := name + (" ()" + (" Bool" + (" " + (v + (")" + rest)))));
    var t := " " + u;
    YicesDefShape(name, v, rest);
    LowerKeywords();
    AfterPrefixFoldSpelled("define-fun", "define-fun", t);
    assert u[0] == name[0];
    OneSpace(u);
    YicesAtStep("define-fun" + t, t);
    YicesNameOf(name, v, b, rest);
  }

  /** `\(\s*([A-Za-z0-9_]+)\s+` over `(`, a name and one space. */
  lemma OpenSmtAtStep(name: string, y: string)
    requires IsName(name) && LeadingSpaces(y) == 1
    ensures OpenSmtAt("(" + (name + y)) == OpenSmtValue(name, y[1..])
  {
    var x := name + y;
    assert x[0] == name[0];
    NameLengthOf(name, y);
    assert x[..|name|] == name && x[|name|..] == y;
    OpenSmtAtUnfold(x, |name|);
  }

  /** `OpenSmtAt` over a text with no leading space, a name of `k` characters and one space. */
  lemma OpenSmtAtUnfold(x: string, k: nat)
    requires LeadingSpaces(x) == 0 && 0 < k == NameLength(x) && LeadingSpaces(x[k..]) == 1
    ensures OpenSmtAt("(" + x) == OpenSmtValue(x[..k], x[k..][1..])
  {
    Open(x);
  }

  /** `(true|false)\s*\)` over a spelled value and the parenthesis. */
  lemma OpenSmtValueOf(name: string, v: string, b: bool, rest: string)
    requires Spells(v, b)
    ensures OpenSmtValue(name, v + (")" + rest)) == Some((name, b, rest))
  {
    var z := ")" + rest;
    BoolWordOf(v, b, z);
    assert LeadingSpaces(z) == 0;
    assert z[1..] == rest;
  }

  /** A printed OpenSMT entry, piece by piece. */
  lemma OpenSmtDefShape(name: string, v: string, rest: string)
    ensures OpenSmtDef(name, v) + rest == "(" + (name + (" " + (v + (")" + rest))))
  {
  }

  /** The OpenSMT expression reads a printed entry, in any case of its value. */
  lemma OpenSmtAtPrinted(name: string, v: string, b: bool, rest: string)
    requires IsName(name) && Spells(v, b)
    ensures OpenSmtAt(OpenSmtDef(name, v) + rest) == Some((name, b, rest))
  {
    SpelledChars(v, b);
    var z := v + (")" + rest);
    OpenSmtDefShape(name, v, rest);
    assert z[0] == v[0];
    OneSpace(z);
    OpenSmtAtStep(name, " " + z);
    OpenSmtValueOf(name, v, b, rest);
  }

  /** Neither expression matches where no parenthesis opens. */
  lemma NoParenAt(d: Dialect, u: string, v: string)
    requires u != [] && u[0] != '('
    ensures FindDefs(d, u + v) == FindDefs(d, u[1..] + v)
  {
    var s := u + v;
    assert s[0] == u[0] && s[1..] == u[1..] + v;
    assert DefAt(d, s) == None;
  }

  /** Neither expression matches in a text without an opening parenthesis. */
  lemma {:induction false} NoParenSkip(d: Dialect, u: string, v: string)
    requires forall i :: 0 <= i < |u| ==> u[i] != '('
    ensures FindDefs(d, u + v) == FindDefs(d, v)
    decreases |u|
  {
    if u == [] {
      assert u + v == v;
    } else {
      NoParenAt(d, u, v);
      NoParenSkip(d, u[1..], v);
    }
  }

  /** Where no definition starts, the search moves on by one character. */
  lemma NoDefAt(d: Dialect, s: string)
    requires s != [] && DefAt(d, s) == None
    ensures FindDefs(d, s) == FindDefs(d, s[1..])
  {
  }

  /** `(define-fun` is not `(NAME `: the name `define` is followed by `-`. */
  lemma OpenSmtNotDefineFun(x: string)
    ensures OpenSmtAt("(" + ("define-fun" + x)) == None
  {
    var s := "(" + ("define-fun" + x);
    assert s[1..] == "define" + ("-fun" + x);
    assert LeadingSpaces(s[1..]) == 0;
    NameLengthOf("define", "-fun" + x);
    assert s[1..][6..] == "-fun" + x;
  }

  /** `()` holds no name. */
  lemma OpenSmtNotEmptyParens(x: string)
    ensures OpenSmtAt("(" + (")" + x)) == None
  {
    var s := "(" + (")" + x);
    assert s[1..] == ")" + x;
    assert LeadingSpaces(s[1..]) == 0;
  }

  /** No parenthesis opens in `s`. */
  predicate NoOpen(s: string) {
    forall i :: 0 <= i < |s| ==> s[i] != '('
  }

  lemma NoOpenAppend(a: string, b: string)
    requires NoOpen(a) && NoOpen(b)
    ensures NoOpen(a + b)
  {
  }

  /** `(define-fun NAME ` read as its first character and the rest. */
  lemma DefineFunHead(name: string, y: string)
    requires IsName(name)
    ensures "(define-fun " + name + " " + y == "(" + ("define-fun" + (" " + name + " " + y))
    ensures ("(define-fun " + name + " " + y)[1..] == ("define-fun " + name + " ") + y
    ensures NoOpen("define-fun " + name + " ")
  {
    NoOpenAppend("define-fun ", name);
    NoOpenAppend("define-fun " + name, " ");
  }

  /** The OpenSMT expression finds nothing in `(define-fun NAME `. */
  lemma OpenSmtSkipsHead(name: string, y: string)
    requires IsName(name)
    ensures FindDefs(OpenSmt, "(define-fun " + name + " " + y) == FindDefs(OpenSmt, y)
  {
    DefineFunHead(name, y);
    OpenSmtNotDefineFun(" " + name + " " + y);
    NoDefAt(OpenSmt, "(define-fun " + name + " " + y);
    NoParenSkip(OpenSmt, "define-fun " + name + " ", y);
  }

  /** The OpenSMT expression finds nothing in `()` and a text without parentheses. */
  lemma OpenSmtSkipsTail(z: string, rest: string)
    requires NoOpen(z)
    ensures FindDefs(OpenSmt, "(" + (")" + (z + rest))) == FindDefs(OpenSmt, rest)
  {
    var y := "(" + (")" + (z + rest));
    OpenSmtNotEmptyParens(z + rest);
    NoDefAt(OpenSmt, y);
    assert y[1..] == (")" + z) + rest;
    NoParenSkip(OpenSmt, ")" + z, rest);
  }

  /** The OpenSMT expression finds nothing in a Yices line. */
  lemma OpenSmtSkipsYices(name: string, v: string, b: bool, rest: string)
    requires IsName(name) && Spells(v, b)
    ensures FindDefs(OpenSmt, YicesDef(name, v) + rest) == FindDefs(OpenSmt, rest)
  {
    SpelledChars(v, b);
    var z := " Bool " + v + ")";
    assert NoOpen(z) by {
      NoOpenAppend(" Bool ", v);
      NoOpenAppend(" Bool " + v, ")");
    }
    var y := "(" + (")" + (z + rest));
    assert YicesDef(name, v) + rest == "(define-fun " + name + " " + y;
    OpenSmtSkipsHead(name, y);
    OpenSmtSkipsTail(z, rest);
  }

  /** A name and a space are not `define-fun`: `define` is followed by `-`, a shorter word by a space. */
  lemma NotDefineFun(name: string, r: string)
    requires IsName(name)
    ensures AfterPrefixFold(name + (" " + r), "define-fun") == None
  {
    var x := name + (" " + r);
    if 10 <= |x| {
      var i := if |name| < 6 then |name| else 6;
      assert x[..10][i] == x[i];
      assert Lower(x[..10])[i] != "define-fun"[i];
    }
  }

  /** The Yices expression finds nothing in an OpenSMT entry. */
  lemma YicesSkipsOpenSmt(name: string, v: string, b: bool, rest: string)
    requires IsName(name) && Spells(v, b)
    ensures FindDefs(Yices, OpenSmtDef(name, v) + rest) == FindDefs(Yices, rest)
  {
    SpelledChars(v, b);
    var z := name + (" " + (v + ")"));
    var x := name + (" " + (v + (")" + rest)));
    OpenSmtDefShape(name, v, rest);
    Open(x);
    NotDefineFun(name, v + (")" + rest));
    assert YicesAt("(" + x) == None;
    NoDefAt(Yices, "(" + x);
    assert x == z + rest;
    NoParenSkip(Yices, z, rest);
  }

  /**
   * One printed line followed by a space: the expression of its layout reads
   * its definition, the other expression nothing.
   */
  lemma LineRead(d: Dialect, name: string, b: bool, x: string)
    requires IsName(name)
    ensures FindDefs(d, Line(d, name, b) + (" " + x)) == [(name, b)] + FindDefs(d, x)
    ensures FindDefs(Other(d), Line(d, name, b) + (" " + x)) == FindDefs(Other(d), x)
  {
    var v := BoolText(b);
    NoParenSkip(d, " ", x);
    NoParenSkip(Other(d), " ", x);
    if d == Yices {
      YicesAtPrinted(name, v, b, " " + x);
      OpenSmtSkipsYices(name, v, b, " " + x);
    } else {
      OpenSmtAtPrinted(name, v, b, " " + x);
      YicesSkipsOpenSmt(name, v, b, " " + x);
    }
  }

  /** `replace` works piece by piece. */
  lemma ModelTextAppend(a: string, b: string)
    ensures ModelText(a + b) == ModelText(a) + ModelText(b)
  {
  }

  /** A text without line breaks is left as it is. */
  lemma ModelTextPlain(s: string)
    requires forall i :: 0 <= i < |s| ==> s[i] != '\n'
    ensures ModelText(s) == s
  {
  }

  /** One printed line: the line break becomes a space. */
  lemma ModelTextLine(d: Dialect, name: string, b: bool, more: string)
    requires IsName(name)
    ensures ModelText(Line(d, name, b) + "\n" + more) == Line(d, name, b) + (" " + ModelText(more))
  {
    var v := BoolText(b);
    SpelledChars(v, b);
    var line := Line(d, name, b);
    ModelTextAppend(line + "\n", more);
    ModelTextAppend(line, "\n");
    ModelTextPlain(line);
  }

  /** The first line of a printed model. */
  lemma LinesFirst(d: Dialect, defs: seq<(string, bool)>)
    requires defs != []
    ensures Lines(d, defs) == Line(d, defs[0].0, defs[0].1) + "\n" + Lines(d, defs[1..])
  {
  }

  lemma ConsTail<T>(xs: seq<T>, t: seq<T>)
    requires xs != []
    ensures [xs[0]] + (xs[1..] + t) == xs + t
  {
  }

  lemma SpaceThenTail(text: string, line: string, more: string, tail: string)
    requires text == line + (" " + more)
    ensures text + tail == line + (" " + (more + tail))
  {
  }

  /**
   * Over the lines of a printed model, the expression of its own layout reads
   * every definition in order and the other expression reads none.
   */
  lemma {:induction false} LinesRead(d: Dialect, defs: seq<(string, bool)>, tail: string)
    requires Names(defs)
    ensures FindDefs(d, ModelText(Lines(d, defs)) + tail) == defs + FindDefs(d, tail)
    ensures FindDefs(Other(d), ModelText(Lines(d, defs)) + tail) == FindDefs(Other(d), tail)
    decreases |defs|
  {
    if defs == [] {
      assert ModelText(Lines(d, defs)) + tail == tail;
      assert defs + FindDefs(d, tail) == FindDefs(d, tail);
    } else {
      assert Names(defs[1..]) by {
        assert forall i :: 0 <= i < |defs[1..]| ==> defs[1..][i] == defs[i + 1];
      }
      LinesRead(d, defs[1..], tail);
      LinesReadStep(d, defs, tail);
    }
  }

  /** One more line in front of lines that read back. */
  lemma LinesReadStep(d: Dialect, defs: seq<(string, bool)>, tail: string)
    requires defs != [] && IsName(defs[0].0)
    requires FindDefs(d, ModelText(Lines(d, defs[1..])) + tail) == defs[1..] + FindDefs(d, tail)
    requires FindDefs(Other(d), ModelText(Lines(d, defs[1..])) + tail) == FindDefs(Other(d), tail)
    ensures FindDefs(d, ModelText(Lines(d, defs)) + tail) == defs + FindDefs(d, tail)
    ensures FindDefs(Other(d), ModelText(Lines(d, defs)) + tail) == FindDefs(Other(d), tail)
  {
    var (name, b) := defs[0];
    var more := Lines(d, defs[1..]);
    LinesFirst(d, defs);
    ModelTextLine(d, name, b, more);
    var x := ModelText(more) + tail;
    SpaceThenTail(ModelText(Lines(d, defs)), Line(d, name, b), ModelText(more), tail);
    LineRead(d, name, b, x);
    ConsTail(defs, FindDefs(d, tail));
  }

  /** The first character of OpenSMT's lines, if any, opens a parenthesis. */
  lemma LinesOpen(defs: seq<(string, bool)>)
    ensures var e := ModelText(Lines(OpenSmt, defs)); e == [] || e[0] == '('
  {
    var l := Lines(OpenSmt, defs);
    if defs != [] {
      assert l[0] == '(';
      assert ModelText(l)[0] == l[0];
    }
  }

  /** Neither expression matches at a parenthesis followed by another. */
  lemma ParenParen(d: Dialect, x: string)
    requires x != [] && (x[0] == '(' || x[0] == ')')
    ensures DefAt(d, "(" + x) == None
  {
    if d == Yices {
      YicesParenParen(x);
    } else {
      OpenSmtParenParen(x);
    }
  }

  lemma YicesParenParen(x: string)
    requires x != [] && (x[0] == '(' || x[0] == ')')
    ensures YicesAt("(" + x) == None
  {
    assert ("(" + x)[1..] == x;
    if 10 <= |x| {
      FoldMismatch(x, "define-fun", 0);
    }
  }

  /** A literal does not match where one character differs from it, in any case. */
  lemma FoldMismatch(s: string, lit: string, i: nat)
    requires i < |lit| <= |s| && LowerChar(s[i]) != lit[i]
    ensures AfterPrefixFold(s, lit) == None
  {
    assert Lower(s[..|lit|])[i] == LowerChar(s[i]);
  }

  lemma OpenSmtParenParen(x: string)
    requires x != [] && (x[0] == '(' || x[0] == ')')
    ensures OpenSmtAt("(" + x) == None
  {
    assert ("(" + x)[1..] == x;
    assert !IsSpace(x[0]) && !IsWordChar(x[0]);
    assert LeadingSpaces(x) == 0 && SkipSpaces(x) == x;
    assert NameLength(x) == 0;
  }

  /** The outer parentheses of an OpenSMT model are matched by neither expression. */
  lemma OuterParens(d: Dialect, e: string)
    requires e == [] || e[0] == '('
    ensures FindDefs(d, "(" + e + ")") == FindDefs(d, e + ")")
  {
    var x := e + ")";
    assert "(" + e + ")" == "(" + x;
    ParenParen(d, x);
    NoDefAt(d, "(" + x);
    assert ("(" + x)[1..] == x;
  }

  /**
   * A model printed by Yices or OpenSMT, in the layouts `decode_smt_model`'s
   * docstring shows, is read back definition by definition: the pass for its
   * own layout finds every definition in order and the other pass finds none.
   */
  lemma DefsOfPrinted(d: Dialect, defs: seq<(string, bool)>)
    requires Names(defs)
    ensures FindDefs(d, ModelText(Printed(d, defs))) == defs
    ensures FindDefs(Other(d), ModelText(Printed(d, defs))) == []
    ensures Defs(Printed(d, defs)) == defs
  {
    var text := ModelText(Printed(d, defs));
    if d == Yices {
      LinesRead(d, defs, []);
      assert text + [] == text;
    } else {
      OpenSmtRead(defs);
    }
    assert defs + [] == defs && [] + defs == defs;
  }

  /** OpenSMT's model text is its entries' text inside one pair of parentheses. */
  lemma OpenSmtText(defs: seq<(string, bool)>)
    ensures var e := ModelText(Lines(OpenSmt, defs));
      ModelText(Printed(OpenSmt, defs)) == "(" + e + ")" && (e == [] || e[0] == '(')
  {
    var l := Lines(OpenSmt, defs);
    ModelTextAppend("(" + l, ")");
    ModelTextAppend("(", l);
    LinesOpen(defs);
  }

  /** Inside the outer parentheses, each expression finds what it finds in the entries alone. */
  lemma WrappedRead(d: Dialect, defs: seq<(string, bool)>)
    requires Names(defs)
    ensures FindDefs(d, "(" + ModelText(Lines(OpenSmt, defs)) + ")") == if d == OpenSmt then defs else []
  {
    var e := ModelText(Lines(OpenSmt, defs));
    LinesOpen(defs);
    OuterParens(d, e);
    LinesRead(OpenSmt, defs, ")");
    NoParenSkip(d, ")", []);
    assert ")" + [] == ")";
    assert defs + [] == defs;
  }

  /** The OpenSMT layout, through its outer parentheses. */
  lemma OpenSmtRead(defs: seq<(string, bool)>)
    requires Names(defs)
    ensures FindDefs(OpenSmt, ModelText(Printed(OpenSmt, defs))) == defs
    ensures FindDefs(Yices, ModelText(Printed(OpenSmt, defs))) == []
  {
    OpenSmtText(defs);
    WrappedRead(OpenSmt, defs);
    WrappedRead(Yices, defs);
  }

  /** The definition of the variable named `kind` with the key and value of `v`, as `var_M`/`var_H` name it. */
  function VarDef(kind: string, v: (Key, bool)): (string, bool) {
    (MatchVarName(kind, v.0.0, v.0.1, v.0.2, v.0.3), v.1)
  }

  /** Definitions of the variables named `kind` with the keys and values of `vs`. */
  function VarDefs(kind: string, vs: seq<(Key, bool)>): (defs: seq<(string, bool)>)
    ensures |defs| == |vs|
  {
    seq(|vs|, i requires 0 <= i < |vs| => VarDef(kind, vs[i]))
  }

  lemma VarDefsSnoc(kind: string, vs: seq<(Key, bool)>)
    requires vs != []
    ensures VarDefs(kind, vs) == VarDefs(kind, vs[..|vs| - 1]) + [VarDef(kind, vs[|vs| - 1])]
  {
  }

  predicate WordChars(s: string) {
    forall i :: 0 <= i < |s| ==> IsWordChar(s[i])
  }

  lemma NumberName(k: nat)
    ensures WordChars(NatToString(k))
  {
  }

  /** Every name `var_M` and `var_H` write is one `[A-Za-z0-9_]+` reads whole. */
  lemma VarNameIsName(kind: string, i: nat, j: nat, p: nat, w: nat)
    requires kind == "M" || kind == "H"
    ensures IsName(MatchVarName(kind, i, j, p, w))
  {
    NumberName(i);
    NumberName(j);
    NumberName(p);
    NumberName(w);
    NameLayout(kind, i, j, p, w, []);
    assert MatchVarName(kind, i, j, p, w) + [] == MatchVarName(kind, i, j, p, w);
  }

  lemma VarDefsNames(kind: string, vs: seq<(Key, bool)>)
    requires kind == "M" || kind == "H"
    ensures Names(VarDefs(kind, vs))
  {
    var defs := VarDefs(kind, vs);
    forall i | 0 <= i < |defs|
      ensures IsName(defs[i].0)
    {
      VarNameIsName(kind, vs[i].0.0, vs[i].0.1, vs[i].0.2, vs[i].0.3);
    }
  }

  /** The kind of the variables `var_M` (`"M"`) and `var_H` (`"H"`) name. */
  function KindOf(kind: string): Kind {
    if kind == "M" then MatchVar else HomeVar
  }

  function OtherKind(k: Kind): Kind {
    match k
    case MatchVar => HomeVar
    case HomeVar => MatchVar
  }

  /** One definition of `VarDefs` gives one entry of its own kind and none of the other. */
  lemma EntryOfVarDef(kind: string, v: (Key, bool))
    requires kind == "M" || kind == "H"
    ensures EntryOf(KindOf(kind), VarDef(kind, v)) == [v]
    ensures EntryOf(OtherKind(KindOf(kind)), VarDef(kind, v)) == []
  {
    var (key, b) := v;
    var name := MatchVarName(kind, key.0, key.1, key.2, key.3);
    ParseNameOf(kind, key.0, key.1, key.2, key.3, []);
    assert name + [] == name;
  }

  lemma Snoc<T>(xs: seq<T>)
    requires xs != []
    ensures xs[..|xs| - 1] + [xs[|xs| - 1]] == xs
  {
  }

  /** Reading back the definitions of `VarDefs`: the entries are `vs` for that kind and none for the other. */
  lemma {:induction false} EntriesOfVarDefs(kind: string, vs: seq<(Key, bool)>)
    requires kind == "M" || kind == "H"
    ensures Entries(KindOf(kind), VarDefs(kind, vs)) == vs
    ensures Entries(OtherKind(KindOf(kind)), VarDefs(kind, vs)) == []
    decreases |vs|
  {
    if vs == [] {
      assert VarDefs(kind, vs) == [];
    } else {
      var k := |vs| - 1;
      EntriesOfVarDefs(kind, vs[..k]);
      EntriesOfVarDefsStep(kind, vs);
    }
  }

  lemma EntriesOfVarDefsStep(kind: string, vs: seq<(Key, bool)>)
    requires kind == "M" || kind == "H"
    requires vs != []
    requires Entries(KindOf(kind), VarDefs(kind, vs[..|vs| - 1])) == vs[..|vs| - 1]
    requires Entries(OtherKind(KindOf(kind)), VarDefs(kind, vs[..|vs| - 1])) == []
    ensures Entries(KindOf(kind), VarDefs(kind, vs)) == vs
    ensures Entries(OtherKind(KindOf(kind)), VarDefs(kind, vs)) == []
  {
    var k := |vs| - 1;
    VarDefsSnoc(kind, vs);
    EntryOfVarDef(kind, vs[k]);
    EntriesOneMore(KindOf(kind), OtherKind(KindOf(kind)), VarDefs(kind, vs[..k]), VarDef(kind, vs[k]), vs[..k], vs[k]);
    Snoc(vs);
  }

  /** One more definition that gives one entry of kind `own` and none of kind `other`. */
  lemma EntriesOneMore(own: Kind, other: Kind, init: seq<(string, bool)>, last: (string, bool), es: seq<(Key, bool)>, e: (Key, bool))
    requires Entries(own, init) == es && Entries(other, init) == []
    requires EntryOf(own, last) == [e] && EntryOf(other, last) == []
    ensures Entries(own, init + [last]) == es + [e]
    ensures Entries(other, init + [last]) == []
  {
    assert (init + [last])[..|init|] == init;
  }

  /**
   * A model that gives the `M` variables the keys and values `ms` and the `H`
   * variables those of `hs`, each key once, printed by either solver, yields
   * exactly those dicts: `M_vals == ms` and `H_vals == hs`, in that order.
   */
  lemma PrintedVals(d: Dialect, ms: seq<(Key, bool)>, hs: seq<(Key, bool)>)
    requires DistinctKeys(ms) && DistinctKeys(hs)
    ensures Vals(MatchVar, Printed(d, VarDefs("M", ms) + VarDefs("H", hs))) == ms
    ensures Vals(HomeVar, Printed(d, VarDefs("M", ms) + VarDefs("H", hs))) == hs
  {
    var mDefs, hDefs := VarDefs("M", ms), VarDefs("H", hs);
    var defs := mDefs + hDefs;
    EntriesOfVarDefs("M", ms);
    EntriesOfVarDefs("H", hs);
    VarDefsNames("M", ms);
    VarDefsNames("H", hs);
    NamesAppend(mDefs, hDefs);
    DefsOfPrinted(d, defs);
    EntriesAppend(MatchVar, mDefs, hDefs);
    EntriesAppend(HomeVar, mDefs, hDefs);
    AppendNil(ms);
    AppendNil(hs);
    PutAllFromEmpty(ms);
    PutAllFromEmpty(hs);
  }

  lemma NamesAppend(a: seq<(string, bool)>, b: seq<(string, bool)>)
    requires Names(a) && Names(b)
    ensures Names(a + b)
  {
    assert forall i :: 0 <= i < |a + b| ==> (a + b)[i] == if i < |a| then a[i] else b[i - |a|];
  }

  lemma AppendNil<T>(xs: seq<T>)
    ensures xs + [] == xs && [] + xs == xs
  {
  }

  /**
   * The decoder on a printed model: cell `(p, w)` is filled exactly when some
   * true `M` variable names period `p` and week `w`, and then holds that
   * match's teams, turned round only by a false `H` variable of the same key.
   */
  lemma DecodePrinted(d: Dialect, ms: seq<(Key, bool)>, hs: seq<(Key, bool)>, n: int, p: nat, w: nat)
    requires DistinctKeys(ms) && DistinctKeys(hs)
    requires p < n / 2 && w < n - 1
    ensures var g := DecodeModel(Printed(d, VarDefs("M", ms) + VarDefs("H", hs)), n);
      g[p][w].Some? <==> exists i :: 0 <= i < |ms| && ms[i].1 && ms[i].0.2 == p && ms[i].0.3 == w
    ensures var g := DecodeModel(Printed(d, VarDefs("M", ms) + VarDefs("H", hs)), n);
      g[p][w].Some? ==>
        exists i :: (0 <= i < |ms| && ms[i].1 && ms[i].0.2 == p && ms[i].0.3 == w &&
          g[p][w] == Some(Orient(ms[i].0, hs)))
  {
    var text := Printed(d, VarDefs("M", ms) + VarDefs("H", hs));
    PrintedVals(d, ms, hs);
    DecodeCell(text, n, p, w);
  }
}
