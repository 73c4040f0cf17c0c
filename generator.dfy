/**
 * The generation run of randcnf.c's `main` (lines 29-118): validate the
 * operands, then for every formula write the header and `num_clauses`
 * clause lines, refilling one shared clause buffer for every clause. One
 * stream of draws is consumed in order across all clauses and formulas.
 *
 * RunSpec says, as a function of the operands and the draws, what the run
 * produces; Generate is the nested loops over the buffer, proved equal to it.
 */
module Generator {
  import opened Options
  import opened Literals
  import opened Validation
  import opened Sampler
  import opened Dimacs

  /** One file written by the run: its name and its whole text. */
  datatype File = File(name: string, text: string)

  /** How a run ends: a fatal diagnostic, the draws running out, or all files written. */
  datatype Run = Refused(reason: Failure) | OutOfDraws | Written(files: seq<File>)

  /** Put `done` in front of the items of a partial result, keeping its cursor. */
  function Then<T>(done: seq<T>, rest: Option<(seq<T>, nat)>): (r: Option<(seq<T>, nat)>)
    ensures r.Some? <==> rest.Some?
    ensures r.Some? ==> |r.value.0| == |done| + |rest.value.0|
    ensures r.Some? ==> r.value.1 == rest.value.1
  {
    match rest
    case None => None
    case Some((items, q)) => Some((done + items, q))
  }

  lemma ThenNothing<T>(rest: Option<(seq<T>, nat)>)
    ensures Then([], rest) == rest
  {
    if rest.Some? {
      assert [] + rest.value.0 == rest.value.0;
    }
  }

  lemma ThenThen<T>(a: seq<T>, b: seq<T>, rest: Option<(seq<T>, nat)>)
    ensures Then(a, Then(b, rest)) == Then(a + b, rest)
  {
    if rest.Some? {
      assert a + (b + rest.value.0) == (a + b) + rest.value.0;
    }
  }

  /** randcnf.c:87-114: the `count` clauses of one formula, sampled in order. */
  function SampleClauses(n: nat, width: nat, count: nat, draws: seq<nat>, pos: nat): (r: Option<(seq<seq<int>>, nat)>)
    requires width <= n && pos <= |draws|
    decreases count
    ensures r.Some? ==> |r.value.0| == count && pos <= r.value.1 <= |draws|
  {
    if count == 0 then Some(([], pos))
    else
      match SampleClause(n, width, draws, pos)
      case None => None
      case Some((c, p)) => Then([c], SampleClauses(n, width, count - 1, draws, p))
  }

  /** Sampling one more clause: the first clause comes from the cursor, the rest after it. */
  lemma SampleClausesStep(n: nat, width: nat, count: nat, draws: seq<nat>, pos: nat)
    requires width <= n && pos <= |draws| && count > 0
    ensures SampleClause(n, width, draws, pos).None? ==> SampleClauses(n, width, count, draws, pos).None?
    ensures SampleClause(n, width, draws, pos).Some? ==>
      var (c, p) := SampleClause(n, width, draws, pos).value;
      SampleClauses(n, width, count, draws, pos) == Then([c], SampleClauses(n, width, count - 1, draws, p))
  {
  }

  /** The loop step of SampleFormulaInto: one more clause moves from the rest to the done part. */
  lemma ClausesSoFar(n: nat, width: nat, m: nat, j: nat, cs: seq<seq<int>>, draws: seq<nat>, pos: nat, next: nat)
    requires width <= n && pos <= |draws| && next <= |draws| && j < m
    requires SampleClauses(n, width, m, draws, pos) == Then(cs, SampleClauses(n, width, m - j, draws, next))
    ensures SampleClause(n, width, draws, next).None? ==> SampleClauses(n, width, m, draws, pos).None?
    ensures SampleClause(n, width, draws, next).Some? ==>
      var r := SampleClause(n, width, draws, next).value;
      r.1 <= |draws| &&
      SampleClauses(n, width, m, draws, pos) == Then(cs + [r.0], SampleClauses(n, width, m - (j + 1), draws, r.1))
  {
    SampleClausesStep(n, width, m - j, draws, next);
    if SampleClause(n, width, draws, next).Some? {
      var r := SampleClause(n, width, draws, next).value;
      SampleClauseWellFormed(n, width, draws, next);
      ThenThen(cs, [r.0], SampleClauses(n, width, m - (j + 1), draws, r.1));
    }
  }

  /** randcnf.c:70-118: the clauses of each of the `count` formulas, sampled in order. */
  function SampleFormulas(n: nat, width: nat, clauses: nat, count: nat, draws: seq<nat>, pos: nat)
    : (r: Option<(seq<seq<seq<int>>>, nat)>)
    requires width <= n && pos <= |draws|
    decreases count
    ensures r.Some? ==> |r.value.0| == count && pos <= r.value.1 <= |draws|
  {
    if count == 0 then Some(([], pos))
    else
      match SampleClauses(n, width, clauses, draws, pos)
      case None => None
      case Some((f, p)) => Then([f], SampleFormulas(n, width, clauses, count - 1, draws, p))
  }

  /** The files for the sampled formulas: formula k goes to FileName(k). */
  function Files(n: nat, m: nat, formulas: seq<seq<seq<int>>>): (files: seq<File>)
    ensures |files| == |formulas|
  {
    if formulas == [] then []
    else
      var k := |formulas| - 1;
      Files(n, m, formulas[..k]) + [File(FileName(k), FormulaText(n, m, formulas[k]))]
  }

  /** Formula k of the run is written to FileName(k) with the text of its clauses. */
  lemma {:induction false} FilesAt(n: nat, m: nat, formulas: seq<seq<seq<int>>>, k: nat)
    requires k < |formulas|
    ensures Files(n, m, formulas)[k] == File(FileName(k), FormulaText(n, m, formulas[k]))
  {
    var last := |formulas| - 1;
    if k < last {
      FilesAt(n, m, formulas[..last], k);
    }
  }

  /** The loop step of WriteFormulas: one more formula moves from the rest to the done part. */
  lemma FormulasSoFar(n: nat, width: nat, m: nat, count: nat, k: nat, formulas: seq<seq<seq<int>>>,
                      draws: seq<nat>, pos: nat)
    requires width <= n && pos <= |draws| && k < count
    requires SampleFormulas(n, width, m, count, draws, 0) == Then(formulas, SampleFormulas(n, width, m, count - k, draws, pos))
    ensures SampleClauses(n, width, m, draws, pos).None? ==> SampleFormulas(n, width, m, count, draws, 0).None?
    ensures SampleClauses(n, width, m, draws, pos).Some? ==>
      var r := SampleClauses(n, width, m, draws, pos).value;
      r.1 <= |draws| &&
      SampleFormulas(n, width, m, count, draws, 0) == Then(formulas + [r.0], SampleFormulas(n, width, m, count - (k + 1), draws, r.1))
  {
    if SampleClauses(n, width, m, draws, pos).Some? {
      var (f, p) := SampleClauses(n, width, m, draws, pos).value;
      ThenThen(formulas, [f], SampleFormulas(n, width, m, count - (k + 1), draws, p));
    }
  }

  /** What a run produces from its operands and its stream of draws. */
  function RunSpec(args: seq<nat>, draws: seq<nat>): (r: Run)
    ensures r.Refused? <==> Validate(args).Rejected?
    ensures r.Written? ==> |r.files| == Validate(args).params.numFormulas
  {
    match Validate(args)
    case Rejected(f) => Refused(f)
    case Accepted(p) =>
      match SampleFormulas(p.numVars, p.clauseWidth, p.numClauses, p.numFormulas, draws, 0)
      case None => OutOfDraws
      case Some((formulas, _)) => Written(Files(p.numVars, p.numClauses, formulas))
  }

  /** A formula as the run promises it: `m` well-formed clauses of exactly `width` literals. */
  predicate IsFormula(cs: seq<seq<int>>, n: nat, m: nat, width: nat) {
    |cs| == m && forall i :: 0 <= i < |cs| ==> |cs[i]| == width && WellFormed(cs[i], n)
  }

  lemma {:induction false} SampleClausesFormula(n: nat, width: nat, count: nat, draws: seq<nat>, pos: nat)
    requires width <= n && pos <= |draws|
    requires SampleClauses(n, width, count, draws, pos).Some?
    ensures IsFormula(SampleClauses(n, width, count, draws, pos).value.0, n, count, width)
    decreases count
  {
    if count > 0 {
      var (c, p) := SampleClause(n, width, draws, pos).value;
      SampleClauseWellFormed(n, width, draws, pos);
      SampleClausesFormula(n, width, count - 1, draws, p);
    }
  }

  lemma {:induction false} SampleFormulasFormulas(n: nat, width: nat, m: nat, count: nat, draws: seq<nat>, pos: nat)
    requires width <= n && pos <= |draws|
    requires SampleFormulas(n, width, m, count, draws, pos).Some?
    ensures var fs := SampleFormulas(n, width, m, count, draws, pos).value.0;
      forall k :: 0 <= k < |fs| ==> IsFormula(fs[k], n, m, width)
    decreases count
  {
    if count > 0 {
      var (f, p) := SampleClauses(n, width, m, draws, pos).value;
      SampleClausesFormula(n, width, m, draws, pos);
      SampleFormulasFormulas(n, width, m, count - 1, draws, p);
    }
  }

  /** A rejected command line writes no file and takes no draw, whatever the draws. */
  lemma RejectedWritesNothing(args: seq<nat>, draws: seq<nat>)
    ensures RunSpec(args, draws).Refused? <==> Validate(args).Rejected?
    ensures Validate(args).Rejected? ==> RunSpec(args, draws) == Refused(Validate(args).failure)
    ensures Validate(args).Rejected? ==> RunSpec(args, draws) == RunSpec(args, [])
  {
  }

  /**
   * A completed run writes one file per formula, named randomcnf-1,
   * randomcnf-2, ...; each holds the header for the operands and then
   * `num_clauses` clause lines of well-formed clauses of exactly
   * `clause_width` literals.
   */
  lemma WrittenFiles(args: seq<nat>, draws: seq<nat>)
    requires RunSpec(args, draws).Written?
    ensures Validate(args).Accepted?
    ensures var p, files := Validate(args).params, RunSpec(args, draws).files;
      |files| == p.numFormulas &&
      forall k :: 0 <= k < |files| ==>
        files[k].name == FileName(k) &&
        exists cs ::
          IsFormula(cs, p.numVars, p.numClauses, p.clauseWidth) &&
          files[k].text == FormulaText(p.numVars, p.numClauses, cs)
  {
    var p := Validate(args).params;
    var files := RunSpec(args, draws).files;
    var fs := SampleFormulas(p.numVars, p.clauseWidth, p.numClauses, p.numFormulas, draws, 0).value.0;
    SampleFormulasFormulas(p.numVars, p.clauseWidth, p.numClauses, p.numFormulas, draws, 0);
    forall k | 0 <= k < |files|
      ensures files[k].name == FileName(k)
      ensures exists cs ::
                IsFormula(cs, p.numVars, p.numClauses, p.clauseWidth) &&
                files[k].text == FormulaText(p.numVars, p.numClauses, cs)
    {
      FilesAt(p.numVars, p.numClauses, fs, k);
      assert IsFormula(fs[k], p.numVars, p.numClauses, p.clauseWidth);
    }
  }

  /**
   * randcnf.c:87-114: the clauses of one formula, each sampled into the
   * shared buffer and recorded as soon as the buffer is full.
   */
  method SampleFormulaInto(clause: array<int>, n: nat, m: nat, draws: seq<nat>, pos: nat)
    returns (ok: bool, clauses: seq<seq<int>>, next: nat)
    requires clause.Length <= n && pos <= |draws|
    modifies clause
    ensures ok <==> SampleClauses(n, clause.Length, m, draws, pos).Some?
    ensures ok ==> SampleClauses(n, clause.Length, m, draws, pos) == Some((clauses, next))
  {
    var width := clause.Length;
    clauses, next := [], pos;
    assert SampleClauses(n, width, m, draws, pos) == Then(clauses, SampleClauses(n, width, m, draws, next)) by {
      ThenNothing(SampleClauses(n, width, m, draws, pos));
    }
    for j := 0 to m
      invariant pos <= next <= |draws| && |clauses| == j
      invariant SampleClauses(n, width, m, draws, pos) == Then(clauses, SampleClauses(n, width, m - j, draws, next))
    {
      var filled, after := FillClause(clause, n, draws, next);
      if !filled {
        assert SampleClauses(n, width, m, draws, pos).None? by {
          ClausesSoFar(n, width, m, j, clauses, draws, pos, next);
        }
        return false, clauses, next;
      }
      var c := clause[..];
      assert SampleClause(n, width, draws, next) == Some((c, after));
      assert after <= |draws| &&
        SampleClauses(n, width, m, draws, pos) == Then(clauses + [c], SampleClauses(n, width, m - (j + 1), draws, after)) by {
        ClausesSoFar(n, width, m, j, clauses, draws, pos, next);
      }
      clauses, next := clauses + [c], after;
    }
    assert SampleClauses(n, width, 0, draws, next) == Some(([], next));
    assert clauses + [] == clauses;
    ok := true;
  }

  /**
   * randcnf.c:62-118: after validation, allocate the one clause buffer and
   * write every formula's file, drawing from one stream throughout.
   */
  method WriteFormulas(n: nat, m: nat, width: nat, count: nat, draws: seq<nat>) returns (ok: bool, files: seq<File>)
    requires width <= n
    ensures ok <==> SampleFormulas(n, width, m, count, draws, 0).Some?
    ensures ok ==> files == Files(n, m, SampleFormulas(n, width, m, count, draws, 0).value.0)
  {
    var clause := new int[width];
    var formulas: seq<seq<seq<int>>> := [];
    var pos: nat := 0;
    assert SampleFormulas(n, width, m, count, draws, 0) == Then(formulas, SampleFormulas(n, width, m, count, draws, pos)) by {
      ThenNothing(SampleFormulas(n, width, m, count, draws, 0));
    }
    for k := 0 to count
      invariant pos <= |draws| && |formulas| == k
      invariant SampleFormulas(n, width, m, count, draws, 0) == Then(formulas, SampleFormulas(n, width, m, count - k, draws, pos))
    {
      var filled, cs, next := SampleFormulaInto(clause, n, m, draws, pos);
      if !filled {
        assert SampleFormulas(n, width, m, count, draws, 0).None? by {
          FormulasSoFar(n, width, m, count, k, formulas, draws, pos);
        }
        return false, [];
      }
      assert next <= |draws| &&
        SampleFormulas(n, width, m, count, draws, 0) == Then(formulas + [cs], SampleFormulas(n, width, m, count - (k + 1), draws, next)) by {
        FormulasSoFar(n, width, m, count, k, formulas, draws, pos);
      }
      formulas, pos := formulas + [cs], next;
    }
    assert SampleFormulas(n, width, m, 0, draws, pos) == Some(([], pos));
    assert formulas + [] == formulas;
    ok, files := true, Files(n, m, formulas);
  }

  /** randcnf.c:29-118: the whole run: the boundary check, then the files. */
  method Generate(args: seq<nat>, draws: seq<nat>) returns (r: Run)
    ensures r == RunSpec(args, draws)
  {
    var checked := Validate(args);
    if checked.Rejected? {
      return Refused(checked.failure);
    }
    var p := checked.params;
    var ok, files := WriteFormulas(p.numVars, p.numClauses, p.clauseWidth, p.numFormulas, draws);
    r := if ok then Written(files) else OutOfDraws;
  }
}

