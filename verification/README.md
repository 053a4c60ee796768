# Round-robin scheduling: boolean encodings, in Dafny

This project models the encode/decode pipeline that the sports tournament
scheduling solvers use for a single round robin of `n` teams (`n` even):
`n - 1` weeks, `n / 2` periods per week, every pair of teams meeting once, and
no team playing more than twice in the same period.

The pipeline has four stages.

1. **The circle method** builds the weekly pairings. Team `n` stays fixed and
   the other teams turn right by one place each week. The repository has three
   copies:
   - `circle_method_pairs` (SMT side), which puts the smaller team first;
   - `circle_method_pairings` (SAT side), which keeps the pairs as zipped;
   - `generate_round_robin` (MIP side), which emits `(i, j, week)` triples.

   The model proves what the SMT copy promises, in closed form: `n - 1` weeks of
   `n / 2` pairs, each week a perfect matching of the teams, and every pair of
   teams meeting in exactly one slot of the season. It also proves how the
   other two copies relate to it.
2. **The DIMACS session** is `sat_dimacs.py`'s module state, modelled as the
   class `SatDimacs.CnfSession`. It holds the variable table (`new_var`) and
   the clause list. On top of them sit:
   - the cardinality encoders `exactly_one`, `at_most_2` and `at_most_2_seq`;
   - `build_dimacs`, which creates the variables `X_w_m_p` ("match `m` of week
     `w` is played in period `p`") and adds the constraints over them;
   - `write_dimacs`.

   The model proves:
   - the table's contiguity and idempotence;
   - the exact clause lists, and what they mean over an assignment;
   - that the two at-most-two encodings have the same solutions once their
     auxiliary variables are projected away;
   - that the written DIMACS text reads back as the variable count and the
     clauses.
3. **The decoders:**
   - `parse_glucose_solution` and `decode_schedule` turn a Glucose answer back
     into the `period × week` matrix. The model proves the whole SAT round
     trip: any model of the clauses `build_dimacs` writes, printed the way a
     SAT solver prints it, parses and decodes to the schedule that model
     describes.
   - `decode_smt_model` reads Yices and OpenSMT model text. The model proves
     that a model printed in either layout yields exactly its definitions, that
     neither pass finds anything in the other layout, and which match each
     cell of the decoded matrix then holds.
   - `parse_status` and `parse_get_value` classify solver replies. Their
     regular expressions are modelled as hand-written matchers.
4. **The SMT-LIB emitters** `write_smtlib_file` (Boolean `M`/`H` encoding) and
   `write_smt2_file` (integer `per` variables over the circle-method weeks) are
   modelled as the lists of lines they write. Each block is given a meaning
   over an assignment. For `write_smt2_file` the whole file is proved
   equivalent to the scheduling constraints it stands for.

Python dictionaries whose iteration order matters are modelled as
insertion-ordered association lists (`Dict`): assigning an existing key keeps
its place, as CPython does. Python's `str()`, `int()`, `split()`, `strip()`,
`splitlines()` and `lower()` are written out in `Text`. The solver itself, the
file system and the clock are not modelled: texts are inputs and outputs.

## Model

| member | source | states |
|---|---|---|
| RoundRobin.CircleMethodPairs | source/SMT/round_robin.py:7-35 | An odd `n` is the `ValueError`; an even `n` yields exactly the closed-form `Schedule(n)` |
| RoundRobin.WeeksLoop | source/SMT/round_robin.py:19-33 | The week loop, started from the unturned list, builds `Schedule(n)` |
| RoundRobin.ZipCanonical | source/SMT/round_robin.py:24-29 | The inner zip loop yields the canonical zip of `left` and `right`, smaller team first |
| RoundRobin.TeamsSplit | source/SMT/round_robin.py:11-13 | `teams[-1]` is `n` and `teams[:-1]` is the unturned list of the other teams |
| RoundRobin.RotateRight | source/SMT/round_robin.py:33 | Rotating right keeps the list's length |
| RoundRobin.CanonZip | source/SMT/round_robin.py:25-29 | `zip` stops at the shorter of `left` and `right` |
| RoundRobinProps.RotationAt | source/SMT/round_robin.py:12-13 | The list after `w` right turns holds team `Team(n, w, k)` at position `k`: `[1..n-1]` rotated right `w` times |
| RoundRobinProps.ScheduleAt | source/SMT/round_robin.py:15-30 | There are `n - 1` weeks of `n / 2` pairs, and slot `i` of week `w` is the closed-form `Slot(n, w, i)` |
| RoundRobinProps.ScheduleShape | source/SMT/round_robin.py:15-30 | `n - 1` weeks, each of `n / 2` pairs: `n(n-1)/2` matches in all |
| RoundRobinProps.ScheduleValid | source/SMT/round_robin.py:26-29 | Every pair is two different teams of `1..n`, the smaller first |
| RoundRobinProps.ScheduleWeekMatching | source/SMT/smt2_export.py:50-58 | In every week each team of `1..n` plays in exactly one pair |
| RoundRobinProps.SlotsDisjoint | source/SMT/round_robin.py:20-30 | A team plays in at most one slot of a week |
| RoundRobinProps.SlotOfTeam | source/SMT/round_robin.py:20-30 | Every team of `1..n` plays in some slot of every week |
| RoundRobinProps.ScheduleCovers | source/SMT/round_robin.py:19-35 | Every pair `a < b` of teams meets in some week |
| RoundRobinProps.ScheduleNoRepeat | source/SMT/round_robin.py:19-35 | No pair meets twice: two equal entries of the schedule are the same entry |
| RoundRobinProps.SlotOfPairCorrect | source/SMT/round_robin.py:19-35 | The pair `(a, b)` is found at the week and slot computed from `a` and `b` |
| RoundRobinProps.SlotRoundTrip | source/SMT/round_robin.py:19-35 | The week and slot of every match are recovered from its two teams |
| RoundRobinProps.SlotInjective | source/SMT/round_robin.py:19-35 | Two slots of the season holding the same pair are the same slot |
| RoundRobinProps.FixedTeamOpponent | source/SMT/round_robin.py:21-22 | In week `w` the fixed team `n` meets `n/2 - w` (plus `n - 1` once that drops below 1), in the last slot |
| MipRoundRobin.GenerateRoundRobin | source/MIP/run.py:18-37 | For every `n >= 1`, even or odd, the loop returns exactly `MipMatches(n, unordered)` |
| MipRoundRobin.MipWeeksLoop | source/MIP/run.py:25-35 | The week loop, started from the unturned list, appends the triples of weeks `1..n-1` |
| MipRoundRobin.OneMipWeek | source/MIP/run.py:26-35 | One turn of the loop appends the triples of week `w + 1` and turns `rotating` right by one |
| MipRoundRobin.ZipWeek | source/MIP/run.py:29-33 | One triple per pair of `zip(left, right)` |
| MipRoundRobin.MatchOf | source/MIP/run.py:29-33 | An appended triple carries week `w`, and with `unordered` its teams in increasing order |
| MipRoundRobin.ZipMatches | source/MIP/run.py:29-33 | `zip` stops at the shorter side |
| MipRoundRobin.MipShape | source/MIP/run.py:18-33 | The output has `(n - 1) * (n / 2)` triples, for odd `n` too |
| MipRoundRobin.MipWeekIsZip | source/MIP/run.py:26-33 | The zipped `left`/`right` of week `w + 1` are that week's closed-form triples |
| MipRoundRobin.MipEntry | source/MIP/run.py:18-37 | Entry `j` of the output in closed form, at its week and slot |
| MipRoundRobin.EntryPosition | source/MIP/run.py:18-37 | Entry `j` belongs to week `j / (n/2)`, slot `j % (n/2)` |
| MipRoundRobin.MipFixedFirst | source/MIP/run.py:20-26 | Without `unordered`, week `w + 1` opens with the fixed team `n` first |
| MipRoundRobin.MipModes | source/MIP/run.py:29-33 | `unordered` yields `(min, max, w)` of the same triple the other mode yields as `(i, j, w)` |
| MipRoundRobin.MipIsCircle | source/MIP/run.py:18-37 | For even `n`, MIP week `w + 1` is a circle-method week with its slots reversed |
| MipRoundRobin.MipValid | source/MIP/run.py:18-37 | Every triple holds two different teams of `1..n` and a week of `1..n-1`, sorted when `unordered` |
| MipRoundRobin.MipCovers | source/MIP/run.py:18-37 | Every pair of distinct teams meets in some triple |
| MipRoundRobin.MipNoRepeat | source/MIP/run.py:18-37 | No pair meets twice |
| MipRoundRobin.MipSlotRoundTrip | source/MIP/run.py:18-37 | The week and slot of a triple are recovered from its teams |
| MipRoundRobin.MipEntryRoundTrip | source/MIP/run.py:18-37 | The position of every entry is recovered from its teams |
| SatPairings.CircleMethodPairings | source/SAT/sat_dimacs.py:130-151 | An odd `n` is the `ValueError`; an even `n` yields `Pairings(n)`, the zipped pairs unsorted |
| SatPairings.PairingsLoop | source/SAT/sat_dimacs.py:143-149 | The week loop builds `Pairings(n)` |
| SatPairings.PairingsWeek | source/SAT/sat_dimacs.py:144-149 | One pass appends week `w`'s zipped pairs and turns `rot` right by one |
| SatPairings.PairingsAt | source/SAT/sat_dimacs.py:144-146 | Each unsorted pair, put in order, is the canonical pair of `circle_method_pairs` at the same week and slot |
| SatPairings.PairingsPlays | source/SAT/sat_dimacs.py:144-146 | The unsorted weeks are the same perfect matchings as the canonical ones |
| SatPairings.FindMatch | source/SAT/sat_dimacs.py:199-203 | The `mtw` search returns the first pair of the week involving `t`, or `None` |
| SatPairings.FirstMatchFirst | source/SAT/sat_dimacs.py:199-203 | No pair before the found one involves the team |
| SatPairings.MatchOfTeamFound | source/SAT/sat_dimacs.py:199-206 | Every team of `1..n` is found, in the slot where the circle method seats it, so the `RuntimeError` cannot happen |
| SatDimacs.CnfSession.constructor | source/SAT/sat_dimacs.py:24-33 | The module's initial state: no clauses, empty table, `next_var = 1`, no weeks |
| SatDimacs.CnfSession.NewVar | source/SAT/sat_dimacs.py:36-43 | A known name returns its id and changes nothing. A fresh name gets `next_var`, is appended to `reverse_var`, and `next_var` grows by one. The table stays gap-free |
| SatDimacs.CnfSession.AddClause | source/SAT/sat_dimacs.py:46-50 | Appends the clause; the table is unchanged |
| SatDimacs.CnfSession.ExactlyOne | source/SAT/sat_dimacs.py:53-65 | Appends exactly `ExactlyOneClauses(lits)`: nothing for `[]`, else `lits` and one binary clause per pair |
| SatDimacs.CnfSession.ExcludePairsWith | source/SAT/sat_dimacs.py:64-65 | One pass of the inner loop: `[-lits[i], -lits[j]]` for each later `j` |
| SatDimacs.CnfSession.AtMost2 | source/SAT/sat_dimacs.py:116-126 | Appends exactly `AtMost2Clauses(lits)`: nothing for `k <= 2`, else `[-a, -b, -c]` per triple |
| SatDimacs.CnfSession.AtMost2Seq | source/SAT/sat_dimacs.py:67-113 | Nothing for `k <= 2`. Otherwise it appends the counter clauses over `k - 1` `s` and `k - 1` `t` variables, which take the next `2(k-1)` ids when their names are new |
| SatDimacs.CnfSession.AllocateCounters | source/SAT/sat_dimacs.py:85-87 | `s[i]`, then `t[i]`, take consecutive fresh ids |
| SatDimacs.CnfSession.AddSeqCounterClauses | source/SAT/sat_dimacs.py:89-113 | The counter clauses in source order |
| SatDimacs.CnfSession.AddStep | source/SAT/sat_dimacs.py:94-107 | The five clauses of counter step `i` |
| SatDimacs.CnfSession.AddThirdForbidden | source/SAT/sat_dimacs.py:111-113 | `[-lits[i], -t[i-1]]` for `i >= 2` |
| SatDimacs.CnfSession.Reset | source/SAT/sat_dimacs.py:159-163 | Every table is emptied and `next_var` is 1 |
| SatDimacs.CnfSession.CreateXVars | source/SAT/sat_dimacs.py:174-180 | After the loop the table numbers exactly the `W*M*P` variables `X_w_m_p`, in `w, m, p` order |
| SatDimacs.CnfSession.X | source/SAT/sat_dimacs.py:174-175 | Once all X variables exist, `X(w, m, p)` is a lookup returning `XId` and changing nothing |
| SatDimacs.CnfSession.FindTeamMatch | source/SAT/sat_dimacs.py:197-206 | The search finds the team's match `TeamMatch` in every week |
| SatDimacs.CnfSession.AddMatchConstraints | source/SAT/sat_dimacs.py:182-185 | Constraint 1: `exactly_one` over the periods of every match |
| SatDimacs.CnfSession.AddSlotConstraints | source/SAT/sat_dimacs.py:187-190 | Constraint 2: `exactly_one` over the matches of every period |
| SatDimacs.CnfSession.AddTeamConstraints | source/SAT/sat_dimacs.py:192-213 | Constraint 3: for each team and period, the clause `lits`, then `at_most_2(lits)` |
| SatDimacs.CnfSession.AddSymmetryBreaking | source/SAT/sat_dimacs.py:219-223 | Appends the unit clauses `[X(aw, m, m)]` of the anchor week |
| SatDimacs.CnfSession.AddConstraints | source/SAT/sat_dimacs.py:182-223 | The clauses of constraints 1-3 and the optional symmetry units, in `build_dimacs` order |
| SatDimacs.CnfSession.BuildDimacs | source/SAT/sat_dimacs.py:155-223 | The state is reset. An odd `n` raises and leaves `weeks` unchanged. An even `n` stores the pairings, numbers exactly the X variables, and leaves exactly `DimacsClauses` as the clauses |
| SatDimacs.CnfSession.GetReverseMap | source/SAT/sat_dimacs.py:225-226 | Entry `i` of the copy names the variable with id `i + 1`, and every known name sits at its id |
| SatDimacs.CnfSession.WriteDimacs | source/SAT/sat_dimacs.py:233-237 | The text is `DimacsFile(next_var - 1, clauses)` |
| SatDimacs.CounterNames | source/SAT/sat_dimacs.py:85-87 | The names `s_{tag}_{i}` and `t_{tag}_{i}` allocated in order |
| SatDimacs.CounterNameInjective | source/SAT/sat_dimacs.py:85-87 | Different counter positions have different names |
| SatDimacs.AllXCreated | source/SAT/sat_dimacs.py:177-180 | Ids `1..W*M*P` taken in order make the table of X variables |
| SatDimacs.TableLookup | source/SAT/sat_dimacs.py:36-43 | A known name's id is in use, and `reverse_var` holds the name at that id |
| SatDimacs.DimacsInOrder | source/SAT/sat_dimacs.py:182-223 | The four constraint phases, appended one after another, give the clause list |
| SatEncoding.XNameInjective | source/SAT/sat_dimacs.py:174-175 | Different triples get different names `X_w_m_p` |
| SatEncoding.XIdRange | source/SAT/sat_dimacs.py:177-180 | The ids of in-range triples are `1..W*M*P` |
| SatEncoding.XIdNext | source/SAT/sat_dimacs.py:177-180 | The next triple in `w, m, p` order has the next id: `id = w*M*P + m*P + p + 1` |
| SatEncoding.IdOfXId | source/SAT/sat_dimacs.py:177-180 | Decoding the id of a triple gives the triple back |
| SatEncoding.XIdOfId | source/SAT/sat_dimacs.py:177-180 | Every positive id is the id of the triple it decodes to, with a week in range when the id is |
| SatEncoding.XNamesAt | source/SAT/sat_dimacs.py:174-180 | The name of a triple is at position `XId - 1` of the reverse map |
| SatEncoding.XNamesIndex | source/SAT/sat_dimacs.py:174-180 | Position `i` of the reverse map names id `i + 1` |
| SatEncoding.TeamMatch | source/SAT/sat_dimacs.py:197-203 | The team's match index is a valid match index |
| SatEncoding.SymmetryAppends | source/SAT/sat_dimacs.py:219-223 | With `use_sym` the clauses are those without it, followed by the symmetry clauses |
| SatEncoding.SymClauses | source/SAT/sat_dimacs.py:220-223 | The symmetry clauses are the units `[X(aw, i, i)]`, with `aw = anchor_week mod W` |
| SatEncoding.DimacsNonzero | source/SAT/sat_dimacs.py:182-223 | No clause of the encoding contains the literal 0 |
| SatEncoding.DimacsMeaning | source/SAT/sat_dimacs.py:182-223 | An assignment satisfies the clauses exactly when every match has one period, every period one match, every team plays each period once or twice, and (with `use_sym`) the anchor week is on the diagonal |
| Cardinality.ExactlyOneSat | source/SAT/sat_dimacs.py:53-65 | The `exactly_one` clauses hold exactly when one literal is true |
| Cardinality.ExactlyOneCount | source/SAT/sat_dimacs.py:53-65 | On `k >= 1` literals: one clause, plus `k(k-1)/2` binary ones |
| Cardinality.PairClausesCount | source/SAT/sat_dimacs.py:63-65 | One binary clause per pair of positions |
| Cardinality.AtMost2Sat | source/SAT/sat_dimacs.py:116-126 | The `at_most_2` clauses hold exactly when at most two literals are true |
| Cardinality.AtMost2Count | source/SAT/sat_dimacs.py:116-126 | `C(k, 3)` clauses |
| Cardinality.AtMost2ClausesAsTriples | source/SAT/sat_dimacs.py:125-126 | The clause list follows `combinations(lits, 3)` order |
| Cardinality.SeqCounterSound | source/SAT/sat_dimacs.py:67-113 | Any assignment satisfying the counter clauses has at most two true literals |
| Cardinality.SeqCounterComplete | source/SAT/sat_dimacs.py:67-113 | With at most two true literals, some values of the fresh counters satisfy every counter clause |
| Cardinality.SeqCounterEquivalent | source/SAT/sat_dimacs.py:67-126 | Projected onto `lits`, `at_most_2_seq` and `at_most_2` have the same solutions, though `t[0]` is unconstrained |
| Cardinality.CountOne | source/SAT/sat_dimacs.py:53-58 | Exactly one true literal: one exists, and any two true positions coincide |
| Cardinality.ConstraintSat | source/SAT/sat_dimacs.py:53-126 | The clauses of one encoder call hold exactly when the call's demand holds |
| Cardinality.ExpandSat | source/SAT/sat_dimacs.py:182-223 | A list of encoder calls is satisfied exactly when every call's demand holds |
| DimacsText.WriteCnf | source/SAT/sat_dimacs.py:235-237 | The header `p cnf V C`, then one line per clause ending in ` 0`, in order |
| DimacsText.ClauseLineWords | source/SAT/sat_dimacs.py:237 | A clause line splits into the printed literals and the closing `0` |
| DimacsText.ReadClauseLineOf | source/SAT/sat_dimacs.py:237 | A clause without a 0 literal reads back from its line |
| DimacsText.ReadHeaderLine | source/SAT/sat_dimacs.py:235 | The header reads back as the variable and clause counts |
| DimacsText.WrittenLines | source/SAT/sat_dimacs.py:235-237 | The file splits into the header line and one line per clause |
| DimacsText.ReadWritten | source/SAT/sat_dimacs.py:233-237 | Reading a written file gives back `next_var - 1` and the clauses, as long as no clause contains 0 |
| GlucoseParse.ParseGlucoseSolution | source/SAT/sat_decode.py:4-19 | The line and token loops compute `ParseGlucose(output)`, including its first `int()` error |
| GlucoseParse.GlucoseMeaning | source/SAT/sat_decode.py:10-18 | Only tokens after the first on stripped `v` lines count, and `0` is skipped. The first non-integer token raises. Otherwise keys are distinct, an unmentioned variable is absent, and the last literal on a variable decides `lit > 0` |
| GlucoseParse.ReadTokensOk | source/SAT/sat_decode.py:14-18 | Reading fails exactly when some token is not an integer |
| GlucoseParse.ReadTokensErr | source/SAT/sat_decode.py:17 | The error names the first non-integer token |
| GlucoseParse.ReadTokensLast | source/SAT/sat_decode.py:17-18 | A later literal on the same variable overwrites an earlier one |
| GlucoseParse.ReadTokensUntouched | source/SAT/sat_decode.py:17-18 | A variable no token sets keeps its value |
| GlucoseParse.ReadLinesFlat | source/SAT/sat_decode.py:10-18 | Reading line by line is reading the concatenated token stream |
| GlucoseParse.ParseSolverAnswer | source/SAT/sat_decode.py:4-19 | A status line plus a `v ... 0` model line parses back to that model, variables in increasing order |
| GlucoseParse.AnswerRecords | source/SAT/sat_decode.py:4-19 | The parsed answer records the assignment on every X variable |
| GlucoseParse.AnswerDecodes | source/SAT/sat_decode.py:4-72 | End to end: for any model of `build_dimacs`'s clauses, the printed answer parses, decodes to a full matrix, and each true `X_w_m_p` puts week `w`'s pair `m` in cell `(p, w)` |
| SatDecode.ParseXNameOfXName | source/SAT/sat_decode.py:39-56 | The pattern `^X_(\d+)_(\d+)_(\d+)$` reads back the triple of every name `build_dimacs` gives |
| SatDecode.PlaceEntry | source/SAT/sat_decode.py:41-64 | One pass of the first loop, with all four `continue` rules |
| SatDecode.ScanFull | source/SAT/sat_decode.py:66-70 | `False` exactly when some cell is `None` |
| SatDecode.DecodeSchedule | source/SAT/sat_decode.py:22-72 | The method computes `Decode`: place every true variable's pair, then `None` unless full |
| SatDecode.EmptyGrid | source/SAT/sat_decode.py:36 | A `n//2 × (n-1)` grid of `None` |
| SatDecode.PlaceAllCell | source/SAT/sat_decode.py:41-64 | Later writes win: a cell holds the pair of the last accepted entry aimed at it, or `None` |
| SatDecode.LastWriteFrom | source/SAT/sat_decode.py:41-59 | The winning entry is one that passes every skip rule for that cell |
| SatDecode.DecodeCells | source/SAT/sat_decode.py:32-72 | The result is a matrix exactly when every `n//2 × (n-1)` cell gets a write, and then it has that shape and holds those pairs |
| SatDecode.ColumnFromWeek | source/SAT/sat_decode.py:61-64 | Every cell of column `w` holds one of week `w`'s pairs, in the pairing's own orientation |
| SatDecode.EntryIsVariable | source/SAT/sat_decode.py:41-59 | An entry writes only when it is true, its id is in range, and its name reads as an in-range triple |
| SatDecode.DecodeModel | source/SAT/sat_decode.py:41-72 | When each `(w, p)` has exactly one true `X_w_m_p`, decoding is full and `sol[p][w] = pairings[w][m]` |
| SatDecode.DecodeSolution | source/SAT/sat_decode.py:41-72 | The same for any model of `build_dimacs`'s clauses, decoded with its own reverse map and pairings |
| SatDecode.XNamesDecode | source/SAT/sat_dimacs.py:225-226 | Every name of the reverse map reads back as the triple its id encodes |
| SmtDecode.DecodeSmtModel | source/SMT/smt_decode.py:3-93 | The two passes and the matrix loop compute `DecodeModel(model_str, n)` |
| SmtDecode.DecodeModel | source/SMT/smt_decode.py:73-93 | The matrix has `n//2` rows of `n - 1` cells; no completeness check |
| SmtDecode.Record | source/SMT/smt_decode.py:34-47 | One pass puts each `M` definition in `M_vals` and each `H` one in `H_vals`, in order |
| SmtDecode.FillMatrix | source/SMT/smt_decode.py:75-91 | The last loop over `M_vals` |
| SmtDecode.YicesAt | source/SMT/smt_decode.py:28-32 | A match of the Yices expression consumes input (what it reads is stated by `YicesAtPrinted`) |
| SmtDecode.OpenSmtAt | source/SMT/smt_decode.py:51-55 | A match of the OpenSMT expression consumes input (what it reads is stated by `OpenSmtAtPrinted`) |
| SmtDecode.ParseMatchVarName | source/SMT/smt_decode.py:36-43 | Every `var_M`/`var_H` name, followed by anything not starting with a digit, reads back as its kind and key |
| SmtDecode.EntriesMeaning | source/SMT/smt_decode.py:34-47 | A definition yields an entry of a kind exactly when its name parses to that kind |
| SmtDecode.ValsMeaning | source/SMT/smt_decode.py:21-70 | The Yices pass runs before the OpenSMT pass. Keys are distinct, an unnamed key is absent, and the last definition of a key wins |
| SmtDecode.PlaceMatchesCell | source/SMT/smt_decode.py:75-91 | A cell holds the oriented pair of the last true in-range `M` entry for it, or `None` |
| SmtDecode.DecodeCell | source/SMT/smt_decode.py:75-93 | A cell is filled exactly when some true `M` entry names its period and week, and then holds an oriented pair of such an entry |
| SmtDecode.OrientMeaning | source/SMT/smt_decode.py:83-91 | The pair is `[i, j]` unless `H` is present and false for the key, then `[j, i]` |
| SmtDecode.YicesAtPrinted | source/SMT/smt_decode.py:8-9 | `(define-fun NAME () Bool v)`, with any word-character name and `v` any case-spelling of `true`/`false`, is matched with that name and value and the rest of the text left over |
| SmtDecode.OpenSmtAtPrinted | source/SMT/smt_decode.py:11-12 | `(NAME v)`, with any word-character name and `v` any case-spelling of `true`/`false`, is matched with that name and value and the rest of the text left over |
| SmtDecode.OpenSmtSkipsYices | source/SMT/smt_decode.py:51-55 | The OpenSMT expression finds nothing inside a Yices definition |
| SmtDecode.YicesSkipsOpenSmt | source/SMT/smt_decode.py:28-32 | The Yices expression finds nothing inside an OpenSMT entry |
| SmtDecode.LinesRead | source/SMT/smt_decode.py:25-55 | Definitions printed one per line in a dialect are found, in order, by that dialect's pass and not at all by the other's |
| SmtDecode.DefsOfPrinted | source/SMT/smt_decode.py:3-55 | A model printed by Yices (one definition per line) or OpenSMT (entries inside one outer pair of parentheses) yields exactly its definitions, in order, with nothing found twice |
| SmtDecode.PrintedVals | source/SMT/smt_decode.py:21-70 | For a printed model of `M` and `H` variables with distinct keys, `M_vals` and `H_vals` are exactly those variables' keys and values, in order |
| SmtDecode.DecodePrinted | source/SMT/smt_decode.py:73-93 | On a printed model, a cell is filled exactly when some true `M` variable names its period and week, and then holds that match oriented by `H` |
| Smt2Parse.ParseStatusMeaning | source/SMT/smt2_parse.py:5-14 | After normalising and lower-casing: `unsat` if it stands alone anywhere, else `sat`, else `unknown` |
| Smt2Parse.RunsOccur | source/SMT/smt2_parse.py:7-8 | A word is one of the `[a-zA-Z_]+` runs exactly when it stands on its own in the text |
| Smt2Parse.PairAt | source/SMT/smt2_parse.py:19 | A match of the pair expression consumes input |
| Smt2Parse.ParseGetValueLoop | source/SMT/smt2_parse.py:17-32 | The loop computes `ParseGetValue(stdout)` |
| Smt2Parse.GetValueMeaning | source/SMT/smt2_parse.py:20-31 | Names are distinct, a name no pair mentions is absent, and the last pair of a name decides its value |
| Smt2Parse.ValueOfBool | source/SMT/smt2_parse.py:22-26 | A value becomes `True` (or `False`) exactly when it spells `true` (or `false`) with any of its letters upper-cased |
| Smt2Parse.ValueOfInt | source/SMT/smt2_parse.py:27-29 | A value printed by `str(i)` reads back as the integer `i` |
| Smt2Parse.GetValueLayout | source/SMT/smt2_parse.py:18 | Replies that differ only in whitespace read the same, so pairs split across lines still parse |
| Smt2Parse.GetValueOfReply | source/SMT/smt2_parse.py:17-32 | A printed `get-value` reply reads back as its entries |
| Smt2Parse.FindPairsEntries | source/SMT/smt2_parse.py:19 | The pairs found in a printed reply are its entries |
| SmtlibExport.WriteSmtlibFile | source/SMT/smtlib_export.py:12-162 | The lines written are exactly `Script(n, use_symmetry, max_diff)` |
| SmtlibExport.EmitDeclarations | source/SMT/smtlib_export.py:40-47 | The declaration loops |
| SmtlibExport.EmitSlots | source/SMT/smtlib_export.py:54-61 | The constraint 1 loops |
| SmtlibExport.EmitPairs | source/SMT/smtlib_export.py:64-71 | The constraint 2 loops |
| SmtlibExport.EmitTeamWeeks | source/SMT/smtlib_export.py:74-85 | The constraint 3 loops |
| SmtlibExport.EmitTeamPeriods | source/SMT/smtlib_export.py:88-98 | The constraint 4 loops |
| SmtlibExport.AppendOppVars | source/SMT/smtlib_export.py:78-81 | `lits` gains `t`'s match variable against every other team, teams in order |
| SmtlibExport.EmitSymmetry | source/SMT/smtlib_export.py:103-122 | The symmetry block |
| SmtlibExport.EmitFairness | source/SMT/smtlib_export.py:127-156 | The fairness block |
| SmtlibExport.HomeTermsOf | source/SMT/smtlib_export.py:133-152 | The home summands of team `t` |
| SmtlibExport.SumOfItes | source/SMT/smtlib_export.py:59-61 | An `ite` sum counts the true variables |
| SmtlibExport.ExactlyOneMeaning | source/SMT/smtlib_export.py:60-61 | The `>= 1` / `<= 1` pair holds exactly when one variable is true |
| SmtlibExport.DeclarationsMeaning | source/SMT/smtlib_export.py:40-47 | One `M` is declared per `i < j`, period and week; an `H` exactly when `max_diff` is given |
| SmtlibExport.SlotConstraintsMeaning | source/SMT/smtlib_export.py:54-61 | Constraint 1 is one exactly-one pair per slot `(p, w)`, and nothing else |
| SmtlibExport.PairConstraintsMeaning | source/SMT/smtlib_export.py:64-71 | Constraint 2 is one exactly-one pair per pair `i < j`, and nothing else |
| SmtlibExport.TeamWeekConstraintsMeaning | source/SMT/smtlib_export.py:74-85 | Constraint 3 is one exactly-one pair per team and week, and nothing else |
| SmtlibExport.TeamPeriodConstraintsAt | source/SMT/smtlib_export.py:88-98 | Constraint 4 is exactly one `<= 2` line per team and period |
| SmtlibExport.SlotsSatisfied | source/SMT/smtlib_export.py:54-61 | Constraint 1 holds exactly when every slot holds exactly one match |
| SmtlibExport.PairsSatisfied | source/SMT/smtlib_export.py:64-71 | Constraint 2 holds exactly when every pair meets exactly once |
| SmtlibExport.TeamWeeksSatisfied | source/SMT/smtlib_export.py:74-85 | Constraint 3 holds exactly when every team plays exactly once a week |
| SmtlibExport.TeamPeriodsSatisfied | source/SMT/smtlib_export.py:88-98 | Constraint 4 holds exactly when no team plays more than twice in a period |
| SmtlibExport.Sb1Meaning | source/SMT/smtlib_export.py:105-109 | SB1 asserts `M_{2p+1}_{2p+2}_P{p}_W0` exactly for the `p` with `2p + 2 <= n` |
| SmtlibExport.Sb2Meaning | source/SMT/smtlib_export.py:112-122 | SB2 has one `or` per week `w` with `w + 2 <= n` |
| SmtlibExport.Sb2VarsMeaning | source/SMT/smtlib_export.py:115-121 | The `or` of week `w` lists team 1 against `w + 2` in every period |
| SmtlibExport.SymmetryMeaning | source/SMT/smtlib_export.py:103-122 | With symmetry breaking on, the block is SB1's units and SB2's disjunctions and nothing else; with it off, no symmetry line is written |
| SmtlibExport.FairnessMeaning | source/SMT/smtlib_export.py:127-156 | With `max_diff` given, the fairness block is exactly a `>= min_home` and a `<= max_home` line per team; without it there is no fairness block |
| SmtlibExport.FairBoundsMeaning | source/SMT/smtlib_export.py:128-130 | With `min_home = (W - d) // 2` and `max_home = (W + d) // 2`: `hg <= max_home` iff `2hg - W <= d`, and `hg >= min_home` iff `W - 2hg <= d + (W - d) mod 2` |
| SmtlibExport.HomeTermMeaning | source/SMT/smtlib_export.py:146-152 | A home summand is 1 exactly when `t` plays that match and is at home: `(and m h)` when `t` is the smaller index, `(and m (not h))` otherwise |
| SmtlibExport.HomeTermsMeaning | source/SMT/smtlib_export.py:132-152 | Team `t`'s home sum has one summand per possible match of `t`, oriented to `t` |
| SmtlibExport.ScriptEnds | source/SMT/smtlib_export.py:35-162 | The first two lines are `(set-logic QF_LIA)` and `(set-option :produce-models true)`; the last two are `(check-sat)` then `(get-model)` |
| SmtlibExport.ScriptFrame | source/SMT/smtlib_export.py:30-162 | The written text is those two opening lines, the declaration and constraint blocks, then the two closing lines |
| Smt2Export.ReadVarOfName | source/SMT/smt2_export.py:14-19 | Every `per_w_m` and `home_w_m` name reads back as its variable |
| Smt2Export.VarNameInjective | source/SMT/smt2_export.py:14-19 | Distinct variables get distinct names |
| Smt2Export.FillWeek | source/SMT/smt2_export.py:52-54 | Entry `t` of the row becomes the index of the last pair of the week involving `t`, or stays `None` |
| Smt2Export.FillMatchOf | source/SMT/smt2_export.py:49-54 | The filled table holds that entry for every week and team |
| Smt2Export.LastMatch | source/SMT/smt2_export.py:52-54 | The index found is a pair of the week involving `t` |
| Smt2Export.LastMatchNone | source/SMT/smt2_export.py:52-57 | An entry stays `None` exactly when no pair of the week involves the team |
| Smt2Export.LastMatchOfSchedule | source/SMT/smt2_export.py:49-54 | On the circle-method weeks the table holds each team's one match |
| Smt2Export.MatchOf | source/SMT/smt2_export.py:49-54 | Team `t`'s match index is a slot of week `w` in which `t` plays |
| Smt2Export.MatchOfFilled | source/SMT/smt2_export.py:49-58 | The table filled from the circle method names every team's match |
| Smt2Export.CheckWeek | source/SMT/smt2_export.py:56-58 | No error exactly when every team of `1..n` has an entry; otherwise a missing team is reported |
| Smt2Export.CheckMatchOf | source/SMT/smt2_export.py:55-58 | The `RuntimeError` is raised exactly when some team of some week has no entry |
| Smt2Export.WriteSmt2File | source/SMT/smt2_export.py:22-154 | Odd `n` raises `ValueError`. `max_diff` without `with_home` raises `ValueError`. Otherwise it returns the script's lines, the weeks, `W` and `P` |
| Smt2Export.EmitDeclarations | source/SMT/smt2_export.py:65-69 | The declaration loops |
| Smt2Export.EmitDomains | source/SMT/smt2_export.py:72-74 | The domain loops |
| Smt2Export.EmitDistincts | source/SMT/smt2_export.py:77-79 | One `distinct` line per week |
| Smt2Export.EmitCounts | source/SMT/smt2_export.py:84-104 | The team-period count lines |
| Smt2Export.PeriodTerms | source/SMT/smt2_export.py:87-91 | The summands of team `t` and period `p`, week by week |
| Smt2Export.EmitSymPins | source/SMT/smt2_export.py:108-110 | The diagonal pins |
| Smt2Export.EmitTeam1Pins | source/SMT/smt2_export.py:113-117 | The team-1 pins |
| Smt2Export.EmitFairness | source/SMT/smt2_export.py:125-139 | The home symmetry break and the two bounds per team |
| Smt2Export.HomeTerms | source/SMT/smt2_export.py:129-136 | The home summands of team `t`, week by week |
| Smt2Meaning.DeclarationsMeaning | source/SMT/smt2_export.py:65-69 | `per_w_m` is declared for every week and match; `home_w_m` exactly when `with_home` |
| Smt2Meaning.DeclarationsHold | source/SMT/smt2_export.py:65-69 | Declarations constrain nothing |
| Smt2Meaning.DomainsSatisfied | source/SMT/smt2_export.py:72-74 | The domain lines hold exactly when every `per` lies in `0..P-1` |
| Smt2Meaning.DistinctsSatisfied | source/SMT/smt2_export.py:77-79 | The `distinct` lines hold exactly when the matches of each week have different periods |
| Smt2Meaning.PeriodSumMeaning | source/SMT/smt2_export.py:87-91 | `sum_expr` of team `t` and period `p` counts the weeks `t` plays in `p` |
| Smt2Meaning.TeamSumsValues | source/SMT/smt2_export.py:85-92 | The sums of `sum_exprs` are the period counts, period by period |
| Smt2Meaning.PeriodCellsSatisfied | source/SMT/smt2_export.py:94-96 | The lines of one team and period: count `<= 2` and, with implied counts, `>= 1` |
| Smt2Meaning.PeriodLinesSatisfied | source/SMT/smt2_export.py:86-96 | All per-period lines of one team |
| Smt2Meaning.ImpliedLinesSatisfied | source/SMT/smt2_export.py:98-104 | Exactly one period with count 1, and the counts sum to `W` |
| Smt2Meaning.TeamCountsSatisfied | source/SMT/smt2_export.py:85-104 | The count lines of one team hold exactly when its counts are within bounds |
| Smt2Meaning.CountsSatisfied | source/SMT/smt2_export.py:84-104 | The count lines hold exactly when every team's counts are within bounds |
| Smt2Meaning.ImpliedCountsRedundant | source/SMT/smt2_export.py:82-83 | With periods in range, at most two games per period already gives at least one per period, exactly one period with one game, and a total of `W` |
| Smt2Meaning.ImpliedCountsExcludeNothing | source/SMT/smt2_export.py:95-104 | Under the domain lines, adding the implied counts does not change the models |
| Smt2Meaning.SymPinsSatisfied | source/SMT/smt2_export.py:108-110 | With `use_sym`, holds exactly when `per_0_m = m` for every `m` |
| Smt2Meaning.Team1PinsSatisfied | source/SMT/smt2_export.py:113-117 | Holds exactly when team 1 plays in period 0 in weeks `0..min(k, W)-1` |
| Smt2Meaning.HomeSumMeaning | source/SMT/smt2_export.py:129-137 | The home summands of team `t` count its home games |
| Smt2Meaning.FairCellsSatisfied | source/SMT/smt2_export.py:138-139 | The two lines hold exactly when `abs(2*hg - W) <= max_diff` |
| Smt2Meaning.FairTeamsSatisfied | source/SMT/smt2_export.py:128-139 | Every team's home games balanced within `max_diff` |
| Smt2Meaning.FairnessSatisfied | source/SMT/smt2_export.py:120-139 | The fairness block holds exactly when `home_0_0` (if `fix_home_sym`) and every team is balanced |
| Smt2Meaning.ScriptMeaning | source/SMT/smt2_export.py:60-152 | A model of the file is exactly a period assignment of the circle-method weeks: periods in range, distinct per week, at most two per team and period, plus the chosen pins and fairness |
| Smt2Meaning.GetValueOrder | source/SMT/smt2_export.py:144-152 | `get-value` lists every `per` in `(w, m)` order, then every `home` when `with_home` |
| Smt2Meaning.GridAt | source/SMT/smt2_export.py:144-146 | Variable `(w, m)` is at position `w * P + m` of its block |
| Smt2Meaning.SumCounts | source/SMT/smt2_export.py:90-91 | A sum of 0/1 indicator summands counts the weeks whose value matches |
| Dict.GetPut | source/SAT/sat_decode.py:18 | After `d[k] = v`, `k` maps to `v` and every other key keeps its value |
| Dict.PutShape | source/SAT/sat_decode.py:18 | An existing key keeps its place and only its value changes; a new key is appended |
| Dict.PutAllLast | source/SMT/smt_decode.py:44-47 | The last assignment to a key decides its value |
| Dict.PutAllUntouched | source/SMT/smt_decode.py:44-47 | A key no assignment names keeps its value |
| Dict.PutAllDistinct | source/SMT/smt2_parse.py:20-31 | Assignments keep the keys distinct |
| Dict.PutAllFresh | source/SMT/smt_decode.py:44-47 | Assigning keys the dict does not hold yet, each once, appends them in order |
| Dict.GetNone | source/SMT/smt_decode.py:87 | `get` is `None` exactly when the key is absent |
| Text.ParsePyIntOfIntToString | source/SAT/sat_decode.py:17 | `int(str(i)) == i` for every integer |
| Text.NatToStringInjective | source/SAT/sat_dimacs.py:175 | Distinct numbers print differently |
| Text.ReadNatOfNatToString | source/SMT/smt_decode.py:36 | A greedy `\d+` reads back a printed number and stops where it ends |
| Text.WordsOfJoinSpace | source/SAT/sat_dimacs.py:237 | `" ".join` of non-blank words splits back into those words |
| Text.LowerIdempotent | source/SMT/smt2_parse.py:6 | Lower-casing twice changes nothing more |
| Text.StripNoSpace | source/SAT/sat_decode.py:11 | A text without outer whitespace is its own strip |

## Left out

- File I/O: `open`, `mkdir`, and the output paths (`smtlib_export.py:26-28`, `smt2_export.py:42-43`, `sat_dimacs.py:233-234`). The emitters return their lines or text instead. `write_smtlib_file` returns its lines rather than `out_path`; `write_smt2_file` returns the lines with the weeks, `W` and `P`.
- Smt2Export.WriteSmt2File: when `max_diff` is given without `with_home`, the source has already written the earlier lines to the file before it raises. The model only returns the error.
- Smt2Export.WriteSmt2File, RoundRobin.CircleMethodPairs, SatPairings.CircleMethodPairings, SatDimacs.CnfSession.BuildDimacs: an even `n <= 0` crashes in the source on `teams[-1]` of an empty list. It is excluded by a precondition rather than modelled as an `IndexError`.
- MipRoundRobin.GenerateRoundRobin: `n <= 0` is excluded for the same reason. Odd `n` is modelled: `zip` truncates and the closed form still holds.
- Smt2Export.CheckMatchOf: the `RuntimeError` is modelled, but on the circle-method weeks it is proved unreachable, so `WriteSmt2File` never returns it.
- Smt2Export.WriteSmt2File: `max_diff` is an integer. A float `max_diff` is not modelled.
- SatDimacs.CnfSession.AtMost2Seq: the counter ids it returns are ghost values, a device of the proof. Fresh ids are promised only when the counter names are not yet in the table. `build_dimacs` does not call it in the source (the call is commented out).
- SatDecode.DecodeSchedule: requires that `pairings` has an entry for every week and match index. Otherwise the source fails on `pairings[w][mi]`.
- `get_pairings` (`sat_dimacs.py:229-231`) is a plain accessor of the `weeks` field of `CnfSession`.
- `source/SAT/run.py:182` calls `decode_schedule` with three arguments, but the function takes four. The model follows the four-parameter definition.
- Character classes: `\d`, `\s` and `str.isspace()` are modelled on ASCII characters plus the Unicode spaces listed in `Text.IsSpace`. Non-ASCII digits, which Python's `int()` and `\d` accept, are not.
- `re.IGNORECASE` and `str.lower()` are modelled on ASCII letters only.
- SmtDecode.DecodeSmtModel: the unused `lines` list (`smt_decode.py:24`) is not modelled.
- Smt2Parse.ValueOfInt: negative integers printed as `(- 5)` do not match the pair expression in the source either. They are read as the source reads them; no integer round trip is claimed for them.
- SmtlibExport.FairBoundsMeaning: the lower bound `(W - max_diff) // 2` is exact only when `W - max_diff` is even. The lemma states the floor explicitly and does not claim the symmetric `W - 2hg <= max_diff`.
- Solver-library model builders (z3, pyomo, AMPL, MiniZinc), orchestration (subprocesses, timeouts, wall-clock timing, CLI parsing, binary search over solver calls), JSON persistence, report tables and floating-point thresholds are not part of this model.
