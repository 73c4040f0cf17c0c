/**
 * Literals of a CNF formula over the variables 1..n, and the mapping that
 * turns one random draw into a signed literal (randcnf.c, line 97).
 */
module Literals {

  /** The magnitude of an integer: for a literal, the variable it mentions. */
  function Abs(x: int): nat {
    if x < 0 then -x else x
  }

  /** A literal over the variables 1..n: nonzero, magnitude at most n. */
  predicate IsLiteral(n: nat, v: int) {
    v != 0 && Abs(v) <= n
  }

  /** `rand() % (2 * num_vars)`: a raw draw reduced to the range [0, 2n). */
  function Reduce(n: nat, r: nat): (c: nat)
    requires n > 0
    ensures c < 2 * n
    ensures r < 2 * n ==> c == r
  {
    var q := r / (2 * n);
    assert r == q * (2 * n) + r % (2 * n);
    MulBounds(q, 2 * n);
    r % (2 * n)
  }

  lemma MulBounds(q: int, n: nat)
    ensures q <= -1 ==> q * n <= -(n as int)
    ensures q == 0 ==> q * n == 0
    ensures q == 1 ==> q * n == n
    ensures q >= 2 ==> q * n >= 2 * n
  {
  }

  /**
   * The source's mapping of a reduced draw c in [0, 2n) to a literal:
   * the upper half gives `n - 1 - c` (negative), the lower half `c + 1`.
   * Read as variable and sign: c names variable c mod n + 1, negated
   * exactly when c lies in the upper half.
   */
  function ToLiteral(n: nat, c: nat): (v: int)
    requires c < 2 * n
    ensures IsLiteral(n, v)
    ensures Abs(v) == c % n + 1
    ensures v < 0 <==> c >= n
  {
    UpperHalfMod(n, c);
    if c > n - 1 then n - 1 - c else c + 1
  }

  /** In [0, 2n), taking the draw modulo n folds the upper half onto the lower. */
  lemma UpperHalfMod(n: nat, c: nat)
    requires c < 2 * n
    ensures c % n == if c >= n then c - n else c
  {
    var q, m := c / n, c % n;
    assert c == q * n + m && 0 <= m < n;
    MulBounds(q, n);
  }

  /** One draw of the source, `rand()` value r, turned into a literal. */
  function LiteralOfDraw(n: nat, r: nat): (v: int)
    requires n > 0
    ensures IsLiteral(n, v)
  {
    ToLiteral(n, Reduce(n, r))
  }

  /** The reduced draw that produces literal v: the inverse of ToLiteral. */
  function DrawOf(n: nat, v: int): (c: nat)
    requires IsLiteral(n, v)
    ensures c < 2 * n
  {
    if v > 0 then v - 1 else n - 1 - v
  }

  /** DrawOf undoes ToLiteral on every draw in [0, 2n). */
  lemma DrawOfToLiteral(n: nat, c: nat)
    requires c < 2 * n
    ensures DrawOf(n, ToLiteral(n, c)) == c
  {
  }

  /** ToLiteral undoes DrawOf on every literal over 1..n. */
  lemma ToLiteralOfDraw(n: nat, v: int)
    requires IsLiteral(n, v)
    ensures ToLiteral(n, DrawOf(n, v)) == v
  {
  }

  /** Different draws give different literals. */
  lemma ToLiteralInjective(n: nat, c1: nat, c2: nat)
    requires c1 < 2 * n && c2 < 2 * n
    requires ToLiteral(n, c1) == ToLiteral(n, c2)
    ensures c1 == c2
  {
    DrawOfToLiteral(n, c1);
    DrawOfToLiteral(n, c2);
  }

  /** Every literal over 1..n is hit by exactly one draw in [0, 2n). */
  lemma ToLiteralBijective(n: nat, v: int)
    requires IsLiteral(n, v)
    ensures exists c: nat :: c < 2 * n && ToLiteral(n, c) == v
    ensures forall c: nat :: c < 2 * n && ToLiteral(n, c) == v ==> c == DrawOf(n, v)
  {
    ToLiteralOfDraw(n, v);
    forall c: nat | c < 2 * n && ToLiteral(n, c) == v
      ensures c == DrawOf(n, v)
    {
      DrawOfToLiteral(n, c);
    }
  }

  /** The image of [0, 2n) under the mapping is exactly {-n..-1} + {1..n}. */
  lemma ToLiteralImage(n: nat)
    ensures (set c: nat | c < 2 * n :: ToLiteral(n, c)) == (set v: int | -(n as int) <= v <= n && IsLiteral(n, v))
  {
    var image := set c: nat | c < 2 * n :: ToLiteral(n, c);
    var literals := set v: int | -(n as int) <= v <= n && IsLiteral(n, v);
    forall v | v in literals ensures v in image {
      ToLiteralOfDraw(n, v);
    }
  }
}
