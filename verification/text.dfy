/**
 * The pieces of Python's string handling that the encoders and decoders rely on:
 * `str(int)`, `int(str)`, `str.split()`, `str.strip()`, `str.splitlines()`,
 * `str.lower()`, `str.replace()` and `" ".join(...)`, written out over `seq<char>`,
 * and the greedy `\d+` of the name patterns.
 */
module Text {
  import opened Wrappers

  // ---------------------------------------------------------------------------
  // Characters
  // ---------------------------------------------------------------------------

  predicate IsDigit(c: char) { '0' <= c <= '9' }

  predicate AllDigits(s: string) { forall i :: 0 <= i < |s| ==> IsDigit(s[i]) }

  /** The class `[A-Za-z0-9_]`. */
  predicate IsWordChar(c: char) { 'a' <= c <= 'z' || 'A' <= c <= 'Z' || IsDigit(c) || c == '_' }

  /** The class `[a-zA-Z_]`. */
  predicate IsLetterOrUnderscore(c: char) { 'a' <= c <= 'z' || 'A' <= c <= 'Z' || c == '_' }

  /** Characters for which Python's `str.isspace()` holds; also what `\s` matches in a `str` pattern. */
  predicate IsSpace(c: char) {
    || c == ' ' || ('\t' <= c <= '\r') || ('\U{1C}' <= c <= '\U{1F}')
    || c == '\U{85}' || c == '\U{A0}' || c == '\U{1680}' || ('\U{2000}' <= c <= '\U{200A}')
    || c == '\U{2028}' || c == '\U{2029}' || c == '\U{202F}' || c == '\U{205F}' || c == '\U{3000}'
  }

  predicate NoSpace(s: string) { forall i :: 0 <= i < |s| ==> !IsSpace(s[i]) }

  /** Line boundaries of `str.splitlines()` (`\r\n` counts as one, see LineEnd). */
  predicate IsLineBreak(c: char) {
    || ('\n' <= c <= '\r') || ('\U{1C}' <= c <= '\U{1E}')
    || c == '\U{85}' || c == '\U{2028}' || c == '\U{2029}'
  }

  function DigitChar(d: nat): (c: char)
    requires d < 10
    ensures IsDigit(c)
  {
    (d + '0' as int) as char
  }

  function DigitValue(c: char): (d: nat)
    requires IsDigit(c)
    ensures d < 10 && DigitChar(d) == c
  {
    (c as int - '0' as int) as nat
  }

  /** `str.lower()` on one character, for the ASCII letters. */
  function LowerChar(c: char): (r: char)
    ensures 'A' <= c <= 'Z' ==> r as int == c as int + 32
    ensures !('A' <= c <= 'Z') ==> r == c
  {
    if 'A' <= c <= 'Z' then (c as int + 32) as char else c
  }

  /** `str.lower()`. */
  function Lower(s: string): (r: string)
    ensures |r| == |s|
  {
    seq(|s|, i requires 0 <= i < |s| => LowerChar(s[i]))
  }

  /** Lower-casing twice changes nothing more. */
  lemma LowerIdempotent(s: string)
    ensures Lower(Lower(s)) == Lower(s)
  {
    forall i | 0 <= i < |s|
      ensures Lower(Lower(s))[i] == Lower(s)[i]
    {
      assert Lower(s)[i] == LowerChar(s[i]);
    }
  }

  // ---------------------------------------------------------------------------
  // Decimal numerals: str(int), and the digit runs matched by `\d+`
  // ---------------------------------------------------------------------------

  /** `str(k)` for a non-negative integer: the shortest decimal numeral. */
  function NatToString(k: nat): (s: string)
    ensures |s| >= 1 && AllDigits(s)
    ensures |s| > 1 ==> s[0] != '0'
    decreases k
  {
    if k < 10 then [DigitChar(k)] else NatToString(k / 10) + [DigitChar(k % 10)]
  }

  /** `str(i)` for any integer. */
  function IntToString(i: int): (s: string)
    ensures |s| >= 1
  {
    if i < 0 then "-" + NatToString(-i) else NatToString(i)
  }

  /** The value of a run of decimal digits (leading zeros allowed, as `int()` allows them). */
  function DigitsValue(s: string): nat
    requires AllDigits(s)
  {
    if s == [] then 0 else DigitsValue(s[..|s| - 1]) * 10 + DigitValue(s[|s| - 1])
  }

  lemma {:induction false} DigitsValueOfNatToString(k: nat)
    ensures DigitsValue(NatToString(k)) == k
    decreases k
  {
    if k >= 10 {
      var a := NatToString(k / 10);
      var s := a + [DigitChar(k % 10)];
      assert s[..|s| - 1] == a;
      DigitsValueOfNatToString(k / 10);
    }
  }

  /** Distinct numbers print differently. */
  lemma NatToStringInjective(a: nat, b: nat)
    requires NatToString(a) == NatToString(b)
    ensures a == b
  {
    DigitsValueOfNatToString(a);
    DigitsValueOfNatToString(b);
  }

  /** Length of the longest prefix of `s` made of digits: what a greedy `\d+` consumes. */
  function DigitRun(s: string): (k: nat)
    ensures k <= |s|
  {
    if s == [] || !IsDigit(s[0]) then 0 else 1 + DigitRun(s[1..])
  }

  lemma {:induction false} DigitRunFacts(s: string)
    ensures AllDigits(s[..DigitRun(s)])
    ensures DigitRun(s) < |s| ==> !IsDigit(s[DigitRun(s)])
  {
    if s != [] && IsDigit(s[0]) {
      DigitRunFacts(s[1..]);
      assert s[..DigitRun(s)] == [s[0]] + s[1..][..DigitRun(s[1..])];
    }
  }

  lemma {:induction false} DigitRunOfDigitsThen(d: string, rest: string)
    requires AllDigits(d)
    requires rest == [] || !IsDigit(rest[0])
    ensures DigitRun(d + rest) == |d|
  {
    if d != [] {
      var s := d + rest;
      assert s[0] == d[0] && s[1..] == d[1..] + rest;
      DigitRunOfDigitsThen(d[1..], rest);
    }
  }

  /**
   * A greedy `(\d+)` followed by `int()` of the group: the value of the
   * leading digits and what follows them, or None when `s` does not start with a digit.
   */
  function ReadNat(s: string): (r: Option<(nat, string)>)
    ensures r.Some? ==> |r.value.1| < |s|
  {
    var k := DigitRun(s);
    if k == 0 then None
    else
      DigitRunFacts(s);
      Some((DigitsValue(s[..k]), s[k..]))
  }

  /** Reading back a printed number stops exactly where the number ends. */
  lemma ReadNatOfNatToString(k: nat, rest: string)
    requires rest == [] || !IsDigit(rest[0])
    ensures ReadNat(NatToString(k) + rest) == Some((k, rest))
  {
    var d := NatToString(k);
    var s := d + rest;
    DigitRunOfDigitsThen(d, rest);
    assert s[..|d|] == d && s[|d|..] == rest;
    DigitsValueOfNatToString(k);
  }

  /** `s[len(lit):]` when `s` starts with `lit`. */
  function AfterPrefix(s: string, lit: string): (r: Option<string>)
    ensures r.Some? ==> |r.value| == |s| - |lit|
  {
    if |lit| <= |s| && s[..|lit|] == lit then Some(s[|lit|..]) else None
  }

  lemma AfterPrefixOf(lit: string, rest: string)
    ensures AfterPrefix(lit + rest, lit) == Some(rest)
  {
    assert (lit + rest)[..|lit|] == lit;
  }

  // ---------------------------------------------------------------------------
  // int(str)
  // ---------------------------------------------------------------------------

  /** The characters of `s` with every `_` removed. */
  function DropUnderscores(s: string): (r: string)
    ensures |r| <= |s|
  {
    if s == [] then [] else (if s[0] == '_' then [] else [s[0]]) + DropUnderscores(s[1..])
  }

  /** Digits, possibly grouped by single underscores that neither start nor end the run. */
  predicate IsDigitGroups(s: string) {
    && |s| > 0 && IsDigit(s[0]) && IsDigit(s[|s| - 1])
    && (forall i :: 0 <= i < |s| ==> IsDigit(s[i]) || s[i] == '_')
    && (forall i :: 0 <= i < |s| - 1 && s[i] == '_' ==> s[i + 1] != '_')
  }

  lemma {:induction false} DropUnderscoresAllDigits(s: string)
    requires forall i :: 0 <= i < |s| ==> IsDigit(s[i]) || s[i] == '_'
    ensures AllDigits(DropUnderscores(s))
  {
    if s != [] {
      DropUnderscoresAllDigits(s[1..]);
    }
  }

  lemma {:induction false} DropUnderscoresOfDigits(s: string)
    requires AllDigits(s)
    ensures DropUnderscores(s) == s
  {
    if s != [] {
      DropUnderscoresOfDigits(s[1..]);
    }
  }

  function GroupsValue(s: string): nat
    requires IsDigitGroups(s)
  {
    DropUnderscoresAllDigits(s);
    DigitsValue(DropUnderscores(s))
  }

  /** Number of leading whitespace characters. */
  function LeadingSpaces(s: string): (k: nat)
    ensures k <= |s|
  {
    if s != [] && IsSpace(s[0]) then 1 + LeadingSpaces(s[1..]) else 0
  }

  /** Number of trailing whitespace characters. */
  function TrailingSpaces(s: string): (k: nat)
    ensures k <= |s|
  {
    if s != [] && IsSpace(s[|s| - 1]) then 1 + TrailingSpaces(s[..|s| - 1]) else 0
  }

  /** `s.strip()`. */
  function Strip(s: string): string {
    var t := s[LeadingSpaces(s)..];
    t[..|t| - TrailingSpaces(t)]
  }

  /** A string that neither starts nor ends with whitespace is its own strip. */
  lemma StripNoSpace(s: string)
    requires |s| > 0 && !IsSpace(s[0]) && !IsSpace(s[|s| - 1])
    ensures Strip(s) == s
  {
    assert LeadingSpaces(s) == 0;
    assert s[0..] == s;
    assert TrailingSpaces(s) == 0;
  }

  /** Python's `int(tok)` in base 10: surrounding whitespace, an optional sign, digit groups. */
  function ParsePyInt(tok: string): (r: Option<int>)
  {
    var t := Strip(tok);
    if |t| > 0 && (t[0] == '+' || t[0] == '-') then
      if IsDigitGroups(t[1..]) then
        Some(if t[0] == '-' then 0 - GroupsValue(t[1..]) as int else GroupsValue(t[1..]))
      else None
    else if IsDigitGroups(t) then Some(GroupsValue(t))
    else None
  }

  /** A printed non-negative number is one group of digits worth that number. */
  lemma GroupsOfNatToString(k: nat)
    ensures IsDigitGroups(NatToString(k)) && GroupsValue(NatToString(k)) == k
  {
    DropUnderscoresOfDigits(NatToString(k));
    DigitsValueOfNatToString(k);
  }

  lemma ParsePyIntOfNatToString(k: nat)
    ensures ParsePyInt(NatToString(k)) == Some(k)
  {
    var t := NatToString(k);
    StripNoSpace(t);
    assert t[0] != '+' && t[0] != '-' by {
      assert IsDigit(t[0]);
    }
    GroupsOfNatToString(k);
  }

  lemma ParsePyIntOfNegated(k: nat)
    requires k > 0
    ensures ParsePyInt("-" + NatToString(k)) == Some(-(k as int))
  {
    var t := "-" + NatToString(k);
    assert t[1..] == NatToString(k);
    StripNoSpace(t);
    GroupsOfNatToString(k);
  }

  /** `int(str(i)) == i`. */
  lemma ParsePyIntOfIntToString(i: int)
    ensures ParsePyInt(IntToString(i)) == Some(i)
  {
    if i < 0 {
      ParsePyIntOfNegated(-i);
    } else {
      ParsePyIntOfNatToString(i);
    }
  }

  // ---------------------------------------------------------------------------
  // split(), splitlines(), join, replace
  // ---------------------------------------------------------------------------

  /** Length of the leading run of non-whitespace characters. */
  function WordLength(s: string): (k: nat)
    ensures k <= |s|
  {
    if s == [] || IsSpace(s[0]) then 0 else 1 + WordLength(s[1..])
  }

  /** `s.split()`: the maximal runs of non-whitespace characters, in order. */
  function Words(s: string): (ws: seq<string>)
    decreases |s|
  {
    if s == [] then []
    else if IsSpace(s[0]) then Words(s[1..])
    else
      var k := WordLength(s);
      [s[..k]] + Words(s[k..])
  }

  /** `" ".join(ws)`. */
  function JoinSpace(ws: seq<string>): string {
    if ws == [] then "" else if |ws| == 1 then ws[0] else ws[0] + " " + JoinSpace(ws[1..])
  }

  lemma {:induction false} WordLengthOfWordThen(w: string, rest: string)
    requires NoSpace(w)
    requires rest == [] || IsSpace(rest[0])
    ensures WordLength(w + rest) == |w|
  {
    if w != [] {
      var s := w + rest;
      assert s[0] == w[0] && s[1..] == w[1..] + rest;
      WordLengthOfWordThen(w[1..], rest);
    }
  }

  lemma WordsOfWordThen(w: string, rest: string)
    requires |w| > 0 && NoSpace(w)
    requires rest == [] || IsSpace(rest[0])
    ensures Words(w + rest) == [w] + Words(rest)
  {
    WordLengthOfWordThen(w, rest);
    assert (w + rest)[..|w|] == w;
    assert (w + rest)[|w|..] == rest;
  }

  /** Splitting a space-joined list of words gives the words back. */
  lemma {:induction false} WordsOfJoinSpace(ws: seq<string>)
    requires forall i :: 0 <= i < |ws| ==> |ws[i]| > 0 && NoSpace(ws[i])
    ensures Words(JoinSpace(ws)) == ws
  {
    if |ws| == 1 {
      WordsOfWordThen(ws[0], "");
      assert ws[0] + "" == ws[0];
    } else if |ws| > 1 {
      var tail := JoinSpace(ws[1..]);
      assert JoinSpace(ws) == ws[0] + (" " + tail);
      WordsOfWordThen(ws[0], " " + tail);
      assert (" " + tail)[1..] == tail;
      WordsOfJoinSpace(ws[1..]);
    }
  }

  /** Where the first line of `s` ends, and where the next one starts. */
  function LineEnd(s: string): (r: (nat, nat))
    ensures r.0 <= |s| && r.0 < r.1 <= |s| + 1
    ensures r.1 <= |s| || r.0 == |s|
    decreases |s|
  {
    if s == [] then (0, 1)
    else if s[0] == '\r' && |s| > 1 && s[1] == '\n' then (0, 2)
    else if IsLineBreak(s[0]) then (0, 1)
    else
      var r := LineEnd(s[1..]);
      (r.0 + 1, r.1 + 1)
  }

  /** `s.splitlines()`: no trailing empty line, `\r\n` is one boundary. */
  function SplitLines(s: string): (ls: seq<string>)
    decreases |s|
  {
    if s == [] then []
    else
      var r := LineEnd(s);
      [s[..r.0]] + (if r.1 <= |s| then SplitLines(s[r.1..]) else [])
  }

  /** A line without breaks, followed by `\n`, is split off as it stands. */
  lemma {:induction false} LineEndOfLine(line: string, rest: string)
    requires forall i :: 0 <= i < |line| ==> !IsLineBreak(line[i])
    ensures LineEnd(line + "\n" + rest) == (|line|, |line| + 1)
  {
    if line != [] {
      var s := line + "\n" + rest;
      assert s[0] == line[0] && s[1..] == line[1..] + "\n" + rest;
      LineEndOfLine(line[1..], rest);
    }
  }

  /** `s.replace(a, b)` for single characters. */
  function ReplaceChar(s: string, a: char, b: char): (r: string)
    ensures |r| == |s|
  {
    seq(|s|, i requires 0 <= i < |s| => if s[i] == a then b else s[i])
  }

  /** `s.startswith(prefix)`. */
  predicate StartsWith(s: string, prefix: string) {
    |prefix| <= |s| && s[..|prefix|] == prefix
  }

  // ---------------------------------------------------------------------------
  // Pieces of regular expressions
  // ---------------------------------------------------------------------------

  /** Length of the leading run of `[A-Za-z0-9_]`. */
  function NameLength(s: string): (k: nat)
    ensures k <= |s|
  {
    if s == [] || !IsWordChar(s[0]) then 0 else 1 + NameLength(s[1..])
  }

  /** `\s*`: the text after its leading whitespace. */
  function SkipSpaces(s: string): (r: string)
    ensures |r| <= |s|
  {
    s[LeadingSpaces(s)..]
  }

  /** The name run stops exactly where a name of word characters ends. */
  lemma {:induction false} NameLengthOf(n: string, rest: string)
    requires forall i :: 0 <= i < |n| ==> IsWordChar(n[i])
    requires rest == [] || !IsWordChar(rest[0])
    ensures NameLength(n + rest) == |n|
  {
    if n != [] {
      assert (n + rest)[1..] == n[1..] + rest;
      NameLengthOf(n[1..], rest);
    }
  }

  /**
   * A literal matched with `re.IGNORECASE`: `s` minus its first `|lit|`
   * characters when they spell the lower-case `lit` in any case.
   */
  function AfterPrefixFold(s: string, lit: string): (r: Option<string>)
    ensures r.Some? ==> |r.value| == |s| - |lit|
  {
    if |lit| <= |s| && Lower(s[..|lit|]) == lit then Some(s[|lit|..]) else None
  }

  lemma AfterPrefixFoldOf(lit: string, rest: string)
    requires Lower(lit) == lit
    ensures AfterPrefixFold(lit + rest, lit) == Some(rest)
  {
    assert (lit + rest)[..|lit|] == lit;
  }
}
