# randcnf in Dafny

randcnf writes random CNF formulas in the DIMACS file format. Its command
line is `randcnf <num-formulas> <num-vars> <num-clauses> <clause-width>`. It
checks the four operands, then writes the files `randomcnf-1`,
`randomcnf-2`, ... Each file holds a comment line, the problem line
`p cnf <num-vars> <num-clauses>`, and `num-clauses` clause lines.

The part that matters is the clause sampler. A buffer of `clause-width`
slots is filled one slot at a time. For each slot, a random draw `c` in
`[0, 2*num-vars)` becomes a signed literal. The draw is retried while that
literal, or its complement, is already in the filled part of the buffer. So
every clause has exactly `clause-width` nonzero literals of magnitude at
most `num-vars`, and no variable appears twice.

The model has one module per concern, all following the single source file
`randcnf.c`:

- `Literals` (literals.dfy): the draw-to-literal mapping of line 97. It is
  proved a bijection from `[0, 2n)` onto `{-n..-1, 1..n}`, with an explicit
  inverse `DrawOf`.
- `Validation` (validation.dfy): the boundary check of lines 29-57, as a
  function. It returns the accepted parameters or one of three failures
  (`BadInput`, `OutOfBounds`, `WidthExceedsVars`), tried in the source's
  order.
- `Sampler` (sampler.dfy): the sampler of lines 90-108. The pure functions
  `NextLiteral` (the retry loop) and `Extend` / `SampleClause` (the slot
  loop) say which clause a stream of draws produces. The methods `Scan`,
  `ChooseLiteral` and `FillClause` do the same work in place on an
  `array<int>` and are proved equal to those functions.
- `Dimacs` (dimacs.dfy): the text of lines 72, 82-83, 110 and 113. Small
  parsers read it back, and round-trip lemmas show the printed numbers and
  clause lines are read back exactly.
- `Generator` (generator.dfy): the nested loops of `main` over formulas and
  clauses, reusing one clause buffer (lines 62-118). `Generate` is proved
  equal to the function `RunSpec`, and lemmas about `RunSpec` give the
  promises about whole runs.
- `Scenarios` (scenarios.dfy): two worked runs. One is a width-3 clause over
  3 variables in which one draw is rejected. The other is a command line
  refused because the width exceeds the number of variables.

Randomness is an explicit input. `draws` is the sequence of values `rand()`
would return, and a cursor `pos` says how many have been used. The model
applies `% (2 * num_vars)` itself, as line 97 does. One stream is used in
order across all clauses and formulas, like the single generator seeded at
line 60. A finite stream can run out. The sampling functions then return
`None`, and a run ends in `OutOfDraws`. The source has no such outcome,
since it keeps calling `rand()`.

Two edge cases of the code:

- The boundary checks of randcnf.c allow `num_vars = 0` when
  `clause_width = 0`. The model accepts such a run: no draw is made and
  every clause line is just `0`. What the C program then does depends on
  the C library (see "Left out").
- The width check comes only after the ceiling check. So a command line
  that is both too wide and above a ceiling gets `OutOfBounds`.

## Model

| member | source | states |
|---|---|---|
| `Literals.Reduce` | randcnf.c:97 | `rand() % (2*num_vars)` lies in `[0, 2n)`, and a draw already in range is unchanged |
| `Literals.ToLiteral` | randcnf.c:97 | the literal is nonzero with magnitude at most n; its variable is `c mod n + 1`; it is negative exactly when `c >= n` |
| `Literals.LiteralOfDraw` | randcnf.c:97 | any raw draw gives a literal over `1..n` |
| `Literals.DrawOf` | randcnf.c:97 | the inverse mapping sends every literal over `1..n` to a draw in `[0, 2n)` |
| `Literals.DrawOfToLiteral` | randcnf.c:97 | `DrawOf` undoes the mapping on every draw in `[0, 2n)` |
| `Literals.ToLiteralOfDraw` | randcnf.c:97 | the mapping undoes `DrawOf` on every literal over `1..n` |
| `Literals.ToLiteralInjective` | randcnf.c:97 | two draws giving the same literal are equal |
| `Literals.ToLiteralBijective` | randcnf.c:97 | every literal over `1..n` is produced by exactly one draw |
| `Literals.ToLiteralImage` | randcnf.c:97 | the image of `[0, 2n)` is exactly `{-n..-1} ∪ {1..n}` |
| `Validation.Validate` | randcnf.c:29-57 | wrong operand count gives `BadInput`; otherwise any operand above its ceiling (11-14) gives `OutOfBounds`; otherwise `width > vars` gives `WidthExceedsVars`; otherwise the operands are accepted, in order |
| `Validation.AcceptedIsSamplable` | randcnf.c:44-57 | accepted operands have `width <= vars`, so `2*vars > 0` whenever a literal is drawn, and lie within the width and formula ceilings |
| `Sampler.FreshIsNewVariable` | randcnf.c:101 | a candidate differs from each earlier literal and its complement exactly when its variable is not yet in the clause |
| `Sampler.NextLiteral` | randcnf.c:94-106 | an accepted literal consumes at least one draw and never reads past the end of the stream |
| `Sampler.NextLiteralFirstFresh` | randcnf.c:94-106 | the accepted literal is that of the last draw consumed, is fresh, and every draw skipped before it was rejected; when none is accepted, every remaining draw was rejected |
| `Sampler.SampleClause` | randcnf.c:90-108 | one clause sampled at the cursor: when it completes, it has exactly `width` literals and the cursor stays within the stream |
| `Sampler.Extend` | randcnf.c:90-108 | a completed clause has exactly `width` literals and the cursor stays within the stream |
| `Sampler.AppendFresh` | randcnf.c:101-108 | writing a fresh literal over `1..n` into the next slot keeps the clause well formed |
| `Sampler.ExtendWellFormed` | randcnf.c:90-108 | filling from a well-formed prefix gives a well-formed clause that still starts with that prefix, so earlier slots are never changed |
| `Sampler.SampleClauseWellFormed` | randcnf.c:90-108 | every sampled clause has exactly `width` literals, all nonzero, all of magnitude at most n, no variable twice |
| `Sampler.SampleClauseWidthZero` | randcnf.c:90 | with width 0 the clause is empty and no draw is consumed |
| `Sampler.AdmissibleDrawExists` | randcnf.c:94-106 | while fewer than n slots are filled, some draw in `[0, 2n)` is accepted, which is why the retry loop can finish |
| `Sampler.SaturatedClause` | randcnf.c:90-108 | with `width == n` the clause mentions every variable `1..n`, each exactly once |
| `Sampler.Scan` | randcnf.c:99-105 | the scan reports the candidate good exactly when it equals no filled slot and no filled slot's negation |
| `Sampler.ChooseLiteral` | randcnf.c:93-106 | the retry loop on the buffer returns what `NextLiteral` specifies for the filled prefix, and reports when the draws run out |
| `Sampler.FillClause` | randcnf.c:90-108 | filling the buffer in place leaves it holding exactly the clause `SampleClause` specifies, whatever it held before |
| `Dimacs.NatToString` | randcnf.c:83 | `%lu` gives a nonempty string of decimal digits with no leading zero, and starts with `0` exactly when the number is 0 |
| `Dimacs.NatToStringRoundTrip` | randcnf.c:83 | the printed digits read back as the number printed |
| `Dimacs.NatToStringInjective` | randcnf.c:83 | different numbers print differently |
| `Dimacs.CanonicalRoundTrip` | randcnf.c:83 | any digit string with no leading zero is exactly what `%lu` prints for its value, so the printed form is the unique such string |
| `Dimacs.IntToString` | randcnf.c:110 | `%ld` gives digits with no leading zero, after a `-` exactly when the number is negative, with no space or newline |
| `Dimacs.IntToStringRoundTrip` | randcnf.c:110 | a printed literal reads back as itself, sign included |
| `Dimacs.CanonicalIntRoundTrip` | randcnf.c:110 | any signed text of that form is read back as a number that prints as exactly that text |
| `Dimacs.LiteralsText` | randcnf.c:110 | the literals of a clause, each followed by one space, contain no newline, are empty only for the empty clause, and end in a space otherwise |
| `Dimacs.ClauseLine` | randcnf.c:110-113 | a clause line ends in `0\n` and has no other newline |
| `Dimacs.ClauseLineLines` | randcnf.c:110-113 | a clause line is exactly one line |
| `Dimacs.ProblemLine` | randcnf.c:83 | the problem line starts with `p cnf ` and ends in its only newline |
| `Dimacs.ProblemLineRoundTrip` | randcnf.c:83 | the problem line reads back as `(num_vars, num_clauses)` |
| `Dimacs.CommentLineLines` | randcnf.c:82 | the comment `c random formula` is one line |
| `Dimacs.Header` | randcnf.c:82-83 | the header starts with the comment line `c random formula\n` and ends in a newline |
| `Dimacs.HeaderLines` | randcnf.c:82-83 | the header is exactly two lines |
| `Dimacs.BodyLines` | randcnf.c:87-114 | the clause lines of a formula are one line per clause |
| `Dimacs.FormulaText` | randcnf.c:82-114 | a formula's file text starts with the comment line |
| `Dimacs.FormulaTextLines` | randcnf.c:82-114 | a formula's file has exactly `num_clauses + 2` lines |
| `Dimacs.FileName` | randcnf.c:72 | the name is `randomcnf-` followed by the decimal digits of `k + 1`, with no leading zero |
| `Dimacs.BodyAppend` | randcnf.c:110-113 | each sampled clause adds exactly its own line after the earlier lines |
| `Dimacs.FormulaTextAppend` | randcnf.c:82-113 | a formula's text grows by one clause line per clause after the header |
| `Dimacs.FileNamesDistinct` | randcnf.c:72 | two formulas of a run never get the same `randomcnf-<k+1>` name |
| `Dimacs.ClauseLineRoundTrip` | randcnf.c:110-113 | a clause line (each literal, a space, then `0\n`) reads back as exactly the clause's literals in buffer order |
| `Dimacs.HeaderRoundTrip` | randcnf.c:82-83 | the header is `c random formula\n` followed by a problem line that reads back as `(num_vars, num_clauses)` |
| `Generator.RunSpec` | randcnf.c:29-118 | a run is refused exactly when validation fails, and a completed run has one file per requested formula |
| `Generator.SampleClauses` | randcnf.c:87-114 | a completed formula has exactly `num_clauses` clauses and the cursor stays within the stream |
| `Generator.SampleFormulas` | randcnf.c:70-118 | a completed run has exactly `num_formulas` formulas and the cursor stays within the stream |
| `Generator.Files` | randcnf.c:70-72 | there is one file per formula |
| `Generator.FilesAt` | randcnf.c:70-114 | formula k goes to `randomcnf-<k+1>` with the header and the lines of its own clauses |
| `Generator.SampleClausesFormula` | randcnf.c:87-114 | every clause of a sampled formula is well formed and has exactly `clause_width` literals |
| `Generator.SampleFormulasFormulas` | randcnf.c:70-118 | every sampled formula has `num_clauses` such clauses |
| `Generator.RejectedWritesNothing` | randcnf.c:29-57 | a run is refused exactly when validation fails, with that failure as its reason; its outcome then does not depend on the draws, so no file is written and nothing is sampled |
| `Generator.WrittenFiles` | randcnf.c:69-118 | a completed run writes `num_formulas` files named `randomcnf-1..`; each holds the header for the operands and then `num_clauses` lines of well-formed clauses of exactly `clause_width` literals |
| `Generator.SampleFormulaInto` | randcnf.c:87-114 | refilling one shared buffer for each clause yields exactly the clauses `SampleClauses` specifies, and the cursor after them |
| `Generator.WriteFormulas` | randcnf.c:62-118 | with one buffer allocated for the whole run, the files are exactly those of the specified formulas, or the draws ran out |
| `Generator.Generate` | randcnf.c:29-118 | the whole program, validation and then the nested loops, produces exactly `RunSpec` |
| `Scenarios.SaturatedRun` | randcnf.c:69-118 | operands `1 3 1 3` with draws `0 3 1 5` write one file `randomcnf-1` containing `c random formula`, `p cnf 3 1` and `1 2 -3 0`; the draw giving `-1` is rejected |
| `Scenarios.WidthAboveVarsRefused` | randcnf.c:54-57 | operands `1 5 1 6` are refused with `WidthExceedsVars` whatever the draws |

## Left out

- Argument parsing with `atoi` (randcnf.c:38-41) is not modelled. The
  operands arrive as natural numbers. Negative inputs, which `atoi` and the
  conversion to `unsigned long` turn into huge values, are not modelled.
  Because `atoi` returns an `int`, the ceilings `MAX_VARS` and `MAX_CLAUSES`
  (10^11) are above anything it can produce. For the same reason, the
  32-bit clause counter `which_clause` cannot fall behind `num_clauses`.
  The model checks the ceilings as written.
- `srand`/`time` seeding and `rand()` itself (randcnf.c:60, 97) are
  replaced by the `draws` input. The modulo bias and the cut-off of the
  range when `2*num_vars > RAND_MAX` belong to the C library's generator and
  are not modelled. Neither are the uniformity and sign-balance claims.
- Termination of the retry loop "almost surely" is a claim about
  probability and is not stated. The loop is bounded by the finite draw
  stream; `AdmissibleDrawExists` states the combinatorial part (an
  acceptable draw always exists).
- The unsigned wrap-around in `num_vars - 1 - current_literal`
  (randcnf.c:97) is modelled with mathematical integers. They give the
  negative value the conversion to `signed long` produces.
- File handling (`sprintf` of the name, `fopen`, `fclose`, the exit when a
  file cannot be opened; randcnf.c:72-79, 117) is not modelled. Neither are
  the messages on the error stream and the exit codes. Files are modelled
  as (name, text) values, and a failure as the `Failure` kind alone.
- `malloc`, the failed-allocation exit and the `clause = NULL; free(clause)`
  leak (randcnf.c:63-67, 120-121) are not modelled. The buffer is a Dafny
  `array<int>` that cannot fail to allocate.
- Generator.WriteFormulas: first samples the clauses of every formula, then
  builds all the files with `Files` after the loop, instead of opening one
  file per formula and calling `fprintf` once per literal. The finished files
  are the same, but a run that ends in `OutOfDraws` has no partial files,
  and the order of the writes is not modelled.
- A run with `clause_width = 0` calls `malloc(0)` (randcnf.c:63). The C
  library may return NULL for that, and the program then stops at
  randcnf.c:65-66. Whether such a run writes any file depends on the C
  library. The model always treats the allocation as succeeding.
