/**
 * The constrained clause sampler of randcnf.c (lines 90-108): a buffer of
 * clause_width slots is filled one literal at a time; each slot retries
 * random draws until the candidate's variable is not yet in the clause.
 *
 * The random source is a sequence of raw `rand()` values with a cursor.
 * The pure functions NextLiteral and Extend say which literals a given
 * stream of draws produces; the methods do the same work in place on the
 * buffer and are proved equal to them.
 */
module Sampler {
  import opened Options
  import opened Literals

  /** randcnf.c:101: the candidate equals no earlier literal and no earlier literal's complement. */
  predicate Fresh(v: int, prefix: seq<int>) {
    forall i :: 0 <= i < |prefix| ==> v != prefix[i] && v != -prefix[i]
  }

  /** A clause over 1..n: nonzero literals of magnitude at most n, no variable twice. */
  predicate WellFormed(c: seq<int>, n: nat) {
    (forall i :: 0 <= i < |c| ==> IsLiteral(n, c[i])) &&
    (forall i, j :: 0 <= i < j < |c| ==> Abs(c[i]) != Abs(c[j]))
  }

  /** The set of variables a clause mentions. */
  function Variables(c: seq<int>): set<nat> {
    set i | 0 <= i < |c| :: Abs(c[i])
  }

  /** The variables 1..n. */
  function Universe(n: nat): (u: set<nat>)
    ensures forall v :: v in u <==> 1 <= v <= n
  {
    if n == 0 then {} else Universe(n - 1) + {n}
  }

  /** Rejecting the candidate and its complement is rejecting its variable. */
  lemma FreshIsNewVariable(v: int, prefix: seq<int>)
    ensures Fresh(v, prefix) <==> Abs(v) !in Variables(prefix)
  {
    if !Fresh(v, prefix) {
      var i :| 0 <= i < |prefix| && (v == prefix[i] || v == -prefix[i]);
      assert Abs(v) == Abs(prefix[i]);
    }
  }

  /**
   * The retry loop of randcnf.c:94-106 as a function of the draws: the
   * literal of the first draw at or after `pos` that is fresh, with the
   * cursor just past it; None when the draws run out first.
   */
  function NextLiteral(n: nat, prefix: seq<int>, draws: seq<nat>, pos: nat): (r: Option<(int, nat)>)
    requires n > 0 && pos <= |draws|
    decreases |draws| - pos
    ensures r.Some? ==> pos < r.value.1 <= |draws|
  {
    if pos == |draws| then None
    else
      var v := LiteralOfDraw(n, draws[pos]);
      if Fresh(v, prefix) then Some((v, pos + 1))
      else NextLiteral(n, prefix, draws, pos + 1)
  }

  /**
   * randcnf.c:98-105: a literal is accepted only if it is fresh, and it is
   * the first fresh one: every draw skipped before it was rejected. When
   * nothing is accepted, every remaining draw was rejected.
   */
  lemma {:induction false} NextLiteralFirstFresh(n: nat, prefix: seq<int>, draws: seq<nat>, pos: nat)
    requires n > 0 && pos <= |draws|
    decreases |draws| - pos
    ensures var r := NextLiteral(n, prefix, draws, pos);
      (r.Some? ==>
        r.value.0 == LiteralOfDraw(n, draws[r.value.1 - 1]) &&
        Fresh(r.value.0, prefix) &&
        forall k :: pos <= k < r.value.1 - 1 ==> !Fresh(LiteralOfDraw(n, draws[k]), prefix)) &&
      (r.None? ==> forall k :: pos <= k < |draws| ==> !Fresh(LiteralOfDraw(n, draws[k]), prefix))
  {
    if pos < |draws| && !Fresh(LiteralOfDraw(n, draws[pos]), prefix) {
      NextLiteralFirstFresh(n, prefix, draws, pos + 1);
    }
  }

  /**
   * The literal loop of randcnf.c:90-108 as a function: extend the
   * already chosen prefix slot by slot up to `width` literals.
   */
  function Extend(n: nat, width: nat, prefix: seq<int>, draws: seq<nat>, pos: nat): (r: Option<(seq<int>, nat)>)
    requires |prefix| <= width <= n && pos <= |draws|
    decreases width - |prefix|
    ensures r.Some? ==> |r.value.0| == width && pos <= r.value.1 <= |draws|
  {
    if |prefix| == width then Some((prefix, pos))
    else
      match NextLiteral(n, prefix, draws, pos)
      case None => None
      case Some((v, p)) => Extend(n, width, prefix + [v], draws, p)
  }

  /** One clause of `width` literals sampled from the draws at `pos`. */
  function SampleClause(n: nat, width: nat, draws: seq<nat>, pos: nat): (r: Option<(seq<int>, nat)>)
    requires width <= n && pos <= |draws|
    ensures r.Some? ==> |r.value.0| == width && pos <= r.value.1 <= |draws|
  {
    Extend(n, width, [], draws, pos)
  }

  /** Appending a fresh literal over 1..n keeps a clause well formed. */
  lemma AppendFresh(c: seq<int>, n: nat, v: int)
    requires WellFormed(c, n) && IsLiteral(n, v) && Fresh(v, c)
    ensures WellFormed(c + [v], n)
  {
    var d := c + [v];
    forall i, j | 0 <= i < j < |d| ensures Abs(d[i]) != Abs(d[j]) {
      if j == |c| {
        assert v != c[i] && v != -c[i];
      }
    }
  }

  /**
   * Extending a well-formed prefix gives a well-formed clause that starts
   * with the prefix: writing a slot leaves the earlier slots as they were.
   */
  lemma {:induction false} ExtendWellFormed(n: nat, width: nat, prefix: seq<int>, draws: seq<nat>, pos: nat)
    requires |prefix| <= width <= n && pos <= |draws|
    requires WellFormed(prefix, n)
    requires Extend(n, width, prefix, draws, pos).Some?
    ensures var c := Extend(n, width, prefix, draws, pos).value.0;
      WellFormed(c, n) && c[..|prefix|] == prefix
    decreases width - |prefix|
  {
    if |prefix| < width {
      var next := NextLiteral(n, prefix, draws, pos);
      var v, p := next.value.0, next.value.1;
      NextLiteralFirstFresh(n, prefix, draws, pos);
      AppendFresh(prefix, n, v);
      ExtendWellFormed(n, width, prefix + [v], draws, p);
      var c := Extend(n, width, prefix, draws, pos).value.0;
      assert c[..|prefix|] == c[..|prefix| + 1][..|prefix|];
    }
  }

  /**
   * Every sampled clause has exactly `width` literals, all nonzero, all of
   * magnitude at most n, no two on the same variable; the cursor never
   * moves backwards or past the end.
   */
  lemma SampleClauseWellFormed(n: nat, width: nat, draws: seq<nat>, pos: nat)
    requires width <= n && pos <= |draws|
    requires SampleClause(n, width, draws, pos).Some?
    ensures var (c, q) := SampleClause(n, width, draws, pos).value;
      |c| == width && WellFormed(c, n) && pos <= q <= |draws|
  {
    ExtendWellFormed(n, width, [], draws, pos);
  }

  /** Width 0: the clause is empty and no draw is consumed. */
  lemma SampleClauseWidthZero(n: nat, draws: seq<nat>, pos: nat)
    requires pos <= |draws|
    ensures SampleClause(n, 0, draws, pos) == Some(([], pos))
  {
  }

  /** A well-formed clause names |c| distinct variables, all in 1..n. */
  lemma {:induction false} VariablesCount(c: seq<int>, n: nat)
    requires WellFormed(c, n)
    ensures |Variables(c)| == |c| && Variables(c) <= Universe(n)
  {
    if c != [] {
      var init := c[..|c| - 1];
      var last := c[|c| - 1];
      assert WellFormed(init, n) by {
        forall i, j | 0 <= i < j < |init| ensures Abs(init[i]) != Abs(init[j]) {
          assert init[i] == c[i] && init[j] == c[j];
        }
      }
      VariablesCount(init, n);
      assert Variables(c) == Variables(init) + {Abs(last)} by {
        forall x | x in Variables(c) ensures x in Variables(init) + {Abs(last)} {
          var i :| 0 <= i < |c| && x == Abs(c[i]);
          if i < |c| - 1 { assert init[i] == c[i]; }
        }
        forall x | x in Variables(init) ensures x in Variables(c) {
          var i :| 0 <= i < |init| && x == Abs(init[i]);
          assert init[i] == c[i];
        }
      }
      assert Abs(last) !in Variables(init);
    }
  }

  /** There are exactly n variables. */
  lemma {:induction false} UniverseSize(n: nat)
    ensures |Universe(n)| == n
  {
    if n > 0 {
      var u := Universe(n - 1);
      assert n !in u;
      assert Universe(n) == u + {n};
      UniverseSize(n - 1);
      assert |u + {n}| == |u| + 1;
    }
  }

  /**
   * Why the retry loop can always succeed: while fewer than n slots are
   * filled, some draw in [0, 2n) gives a fresh literal.
   */
  lemma AdmissibleDrawExists(prefix: seq<int>, n: nat)
    requires WellFormed(prefix, n) && |prefix| < n
    ensures exists c: nat :: c < 2 * n && Fresh(ToLiteral(n, c), prefix)
  {
    VariablesCount(prefix, n);
    UniverseSize(n);
    var unused := Universe(n) - Variables(prefix);
    assert |unused| > 0;
    var v :| v in unused;
    var c: nat := v - 1;
    assert ToLiteral(n, c) == v;
    FreshIsNewVariable(v, prefix);
  }

  /**
   * Forced saturation: with width == n the sampled clause mentions every
   * variable 1..n, each exactly once.
   */
  lemma SaturatedClause(n: nat, draws: seq<nat>, pos: nat)
    requires pos <= |draws|
    requires SampleClause(n, n, draws, pos).Some?
    ensures var c := SampleClause(n, n, draws, pos).value.0;
      Variables(c) == Universe(n) &&
      forall i, j :: 0 <= i < j < |c| ==> Abs(c[i]) != Abs(c[j])
  {
    var c := SampleClause(n, n, draws, pos).value.0;
    SampleClauseWellFormed(n, n, draws, pos);
    VariablesCount(c, n);
    UniverseSize(n);
    assert |Universe(n) - Variables(c)| == 0;
  }

  /**
   * randcnf.c:99-105: scan the first `filled` slots for the candidate or
   * its complement. Like the source, the scan does not stop early.
   */
  method Scan(clause: array<int>, filled: nat, v: int) returns (good: bool)
    requires filled <= clause.Length
    ensures good == Fresh(v, clause[..filled])
  {
    good := true;
    for i := 0 to filled
      invariant good == Fresh(v, clause[..i])
    {
      assert clause[..i + 1] == clause[..i] + [clause[i]];
      if v == clause[i] || v == -clause[i] {
        good := false;
      }
    }
  }

  /**
   * randcnf.c:93-106: draw candidates from the cursor on until one is
   * fresh against the filled prefix of the buffer.
   */
  method ChooseLiteral(clause: array<int>, filled: nat, n: nat, draws: seq<nat>, pos: nat)
    returns (found: bool, v: int, next: nat)
    requires filled <= clause.Length && n > 0 && pos <= |draws|
    ensures found <==> NextLiteral(n, clause[..filled], draws, pos).Some?
    ensures found ==> NextLiteral(n, clause[..filled], draws, pos) == Some((v, next))
  {
    var good := false;
    v, next := 0, pos;
    while !good
      invariant pos <= next <= |draws|
      invariant good ==> NextLiteral(n, clause[..filled], draws, pos) == Some((v, next))
      invariant !good ==> NextLiteral(n, clause[..filled], draws, pos) == NextLiteral(n, clause[..filled], draws, next)
      decreases |draws| - next
    {
      if next == |draws| {
        return false, v, next;
      }
      v := LiteralOfDraw(n, draws[next]);
      next := next + 1;
      good := Scan(clause, filled, v);
    }
    found := true;
  }

  /**
   * randcnf.c:90-108: fill every slot of the buffer. Whatever the buffer
   * held before (the previous clause, or nothing yet) plays no part.
   */
  method FillClause(clause: array<int>, n: nat, draws: seq<nat>, pos: nat) returns (ok: bool, next: nat)
    requires clause.Length <= n && pos <= |draws|
    modifies clause
    ensures ok <==> SampleClause(n, clause.Length, draws, pos).Some?
    ensures ok ==> SampleClause(n, clause.Length, draws, pos) == Some((clause[..], next))
  {
    next := pos;
    var i := 0;
    while i < clause.Length
      invariant 0 <= i <= clause.Length
      invariant pos <= next <= |draws|
      invariant SampleClause(n, clause.Length, draws, pos) == Extend(n, clause.Length, clause[..i], draws, next)
    {
      var found, v, p := ChooseLiteral(clause, i, n, draws, next);
      if !found {
        return false, next;
      }
      ghost var before := clause[..i];
      clause[i] := v;
      assert clause[..i + 1] == before + [v];
      i, next := i + 1, p;
    }
    assert clause[..] == clause[..clause.Length];
    ok := true;
  }
}
