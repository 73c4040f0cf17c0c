/**
 * The checks randcnf.c makes on its command line before any sampling
 * (lines 11-14 and 29-57). The four operands arrive already read as
 * numbers: `args` holds argv[1..], so argc == |args| + 1.
 */
module Validation {

  const MAX_FORMULAS: nat := 1000
  const MAX_VARS: nat := 100000000000
  const MAX_CLAUSES: nat := 100000000000
  const MAX_WIDTH: nat := 10000

  datatype Params = Params(numFormulas: nat, numVars: nat, numClauses: nat, clauseWidth: nat)

  /** The three fatal diagnostics of the boundary check, in the order they are tried. */
  datatype Failure =
    | BadInput          // wrong number of operands: usage message, exit 1
    | OutOfBounds       // some operand above its ceiling, exit 1
    | WidthExceedsVars  // clause_width > num_vars, exit 1

  datatype Checked = Accepted(params: Params) | Rejected(failure: Failure)

  /** Every operand at or below its hard ceiling. */
  predicate WithinCeilings(p: Params) {
    p.numFormulas <= MAX_FORMULAS && p.numVars <= MAX_VARS &&
    p.numClauses <= MAX_CLAUSES && p.clauseWidth <= MAX_WIDTH
  }

  /**
   * The boundary check. The contract is the whole decision: which
   * diagnostic each command line draws, with the earlier check winning,
   * and that an accepted command line is read operand by operand.
   */
  function Validate(args: seq<nat>): (r: Checked)
    ensures r == Rejected(BadInput) <==> |args| != 4
    ensures r == Rejected(OutOfBounds) <==>
      |args| == 4 && !WithinCeilings(Params(args[0], args[1], args[2], args[3]))
    ensures r == Rejected(WidthExceedsVars) <==>
      |args| == 4 && WithinCeilings(Params(args[0], args[1], args[2], args[3])) && args[3] > args[1]
    ensures r.Accepted? <==>
      |args| == 4 && WithinCeilings(Params(args[0], args[1], args[2], args[3])) && args[3] <= args[1]
    ensures r.Accepted? ==> r.params == Params(args[0], args[1], args[2], args[3])
  {
    if |args| != 4 then Rejected(BadInput)
    else
      var p := Params(args[0], args[1], args[2], args[3]);
      if p.numFormulas > MAX_FORMULAS || p.numVars > MAX_VARS ||
         p.numClauses > MAX_CLAUSES || p.clauseWidth > MAX_WIDTH
      then Rejected(OutOfBounds)
      else if p.clauseWidth > p.numVars then Rejected(WidthExceedsVars)
      else Accepted(p)
  }

  /**
   * What acceptance buys the sampler: the width never exceeds the number
   * of variables, so the modulus 2 * num_vars is positive whenever a
   * literal is drawn, and the clause buffer has at most MAX_WIDTH slots.
   */
  lemma AcceptedIsSamplable(args: seq<nat>)
    requires Validate(args).Accepted?
    ensures var p := Validate(args).params;
      p.clauseWidth <= p.numVars && (p.clauseWidth > 0 ==> 2 * p.numVars > 0) &&
      p.clauseWidth <= MAX_WIDTH && p.numFormulas <= MAX_FORMULAS
  {
  }
}
