/** Worked examples of whole runs. */
module Scenarios {
  import opened Options
  import opened Literals
  import opened Validation
  import opened Sampler
  import opened Dimacs
  import opened Generator

  /**
   * One formula over 3 variables with one clause of width 3. The draws
   * 0, 3, 1, 5 give the literals 1, -1, 2, -3; -1 repeats variable 1 and
   * is rejected, so the clause is 1 2 -3.
   */
  lemma SaturatedRun()
    ensures RunSpec([1, 3, 1, 3], [0, 3, 1, 5]) ==
      Written([File("randomcnf-1", "c random formula\np cnf 3 1\n1 2 -3 0\n")])
  {
    SaturatedRunFormulas();
    SaturatedRunFiles();
  }

  lemma SaturatedRunFormulas()
    ensures SampleFormulas(3, 3, 1, 1, [0, 3, 1, 5], 0) == Some(([[[1, 2, -3]]], 4))
  {
    var draws: seq<nat> := [0, 3, 1, 5];
    assert LiteralOfDraw(3, 0) == 1 && LiteralOfDraw(3, 3) == -1;
    assert LiteralOfDraw(3, 1) == 2 && LiteralOfDraw(3, 5) == -3;
    assert -1 == -[1][0];
    assert !Fresh(-1, [1]) && Fresh(2, [1]);
    assert NextLiteral(3, [], draws, 0) == Some((1, 1));
    assert NextLiteral(3, [1], draws, 2) == Some((2, 3));
    assert NextLiteral(3, [1], draws, 1) == Some((2, 3));
    assert NextLiteral(3, [1, 2], draws, 3) == Some((-3, 4));
    assert Extend(3, 3, [1, 2, -3], draws, 4) == Some(([1, 2, -3], 4));
    assert [1, 2] + [-3] == [1, 2, -3];
    assert Extend(3, 3, [1, 2], draws, 3) == Some(([1, 2, -3], 4));
    assert [1] + [2] == [1, 2];
    assert Extend(3, 3, [1], draws, 1) == Some(([1, 2, -3], 4));
    assert [] + [1] == [1];
    var c := [1, 2, -3];
    assert SampleClause(3, 3, draws, 0) == Some((c, 4));
    assert SampleClauses(3, 3, 0, draws, 4) == Some(([], 4));
    assert [c] + [] == [c];
    assert SampleClauses(3, 3, 1, draws, 0) == Some(([c], 4));
    assert SampleFormulas(3, 3, 1, 0, draws, 4) == Some(([], 4));
    assert [[c]] + [] == [[c]];
  }

  lemma SaturatedRunFiles()
    ensures Files(3, 1, [[[1, 2, -3]]]) == [File("randomcnf-1", "c random formula\np cnf 3 1\n1 2 -3 0\n")]
  {
    var c := [1, 2, -3];
    FirstFileName();
    SaturatedRunText();
    assert Files(3, 1, []) == [];
    assert [[c]][..0] == [];
  }

  lemma FirstFileName()
    ensures FileName(0) == "randomcnf-1"
  {
    assert NatToString(1) == "1";
  }

  lemma SaturatedRunText()
    ensures FormulaText(3, 1, [[1, 2, -3]]) == "c random formula\np cnf 3 1\n1 2 -3 0\n"
  {
    SaturatedRunHeader();
    SaturatedRunLine();
  }

  lemma SaturatedRunHeader()
    ensures Header(3, 1) == "c random formula\np cnf 3 1\n"
  {
    assert NatToString(1) == "1" && NatToString(3) == "3";
  }

  lemma SaturatedRunLine()
    ensures Body([[1, 2, -3]]) == "1 2 -3 0\n"
  {
    assert IntToString(-3) == "-3";
    assert ClauseLine([1, 2, -3]) == "1 2 -3 0\n";
    assert [[1, 2, -3]][..0] == [];
  }

  /** Width 6 over 5 variables is refused before any draw, whatever the draws. */
  lemma WidthAboveVarsRefused(draws: seq<nat>)
    ensures RunSpec([1, 5, 1, 6], draws) == Refused(WidthExceedsVars)
  {
  }
}
