/** Tridiagonal linear systems as the solvers assemble them, and the
    interface of the external tridiagonal solve. */
module Tridiag {

  /** A system of order n = |central|. Row i reads
        central[i]·x[i] + upper[i]·x[i+1] + lower[i-1]·x[i-1] = rhs[i],
      the neighbour terms being present only where the neighbour exists. */
  datatype System = System(central: seq<real>, upper: seq<real>, lower: seq<real>, rhs: seq<real>)

  predicate WellFormed(s: System)
  {
    |s.central| >= 1 && |s.rhs| == |s.central| &&
    |s.upper| == |s.central| - 1 && |s.lower| == |s.central| - 1
  }

  /** The external solve (arguments: main diagonal, super-diagonal,
      sub-diagonal, right-hand side). It is a black box here: the only thing
      known of it is that it yields one value per right-hand-side entry, as it
      fills a vector the caller allocated with that length. */
  type Solver = solve: (seq<real>, seq<real>, seq<real>, seq<real>) -> seq<real>
    | forall c, u, l, r :: |solve(c, u, l, r)| == |r|
    witness (c: seq<real>, u: seq<real>, l: seq<real>, r: seq<real>) => r

  /** Row i of A·x for the matrix A of s. */
  function RowTimes(s: System, x: seq<real>, i: nat): real
    requires WellFormed(s) && |x| == |s.central| && i < |x|
  {
    s.central[i] * x[i]
    + (if i + 1 < |x| then s.upper[i] * x[i + 1] else 0.0)
    + (if i > 0 then s.lower[i - 1] * x[i - 1] else 0.0)
  }

  /** A·x. */
  function Apply(s: System, x: seq<real>): (y: seq<real>)
    requires WellFormed(s) && |x| == |s.central|
    ensures |y| == |x|
  {
    seq(|x|, i requires 0 <= i < |x| => RowTimes(s, x, i))
  }

  /** The right-hand side the solvers build row by row from the old values x
      and the injected source q: start from x[i]·(2 − central[i]), subtract
      the upper neighbour's term unless i is the last row, subtract the lower
      neighbour's term unless i is the first row, add q[i]. */
  function ExplicitRhs(x: seq<real>, c: seq<real>, u: seq<real>, l: seq<real>, q: seq<real>): (r: seq<real>)
    requires |c| == |x| && |q| == |x| && |x| >= 1 && |u| == |x| - 1 && |l| == |x| - 1
    ensures |r| == |x|
  {
    seq(|x|, i requires 0 <= i < |x| =>
      x[i] * (2.0 - c[i])
      - (if i + 1 < |x| then x[i + 1] * u[i] else 0.0)
      - (if i > 0 then x[i - 1] * l[i - 1] else 0.0)
      + q[i])
  }

  /** Row i of ExplicitRhs. */
  lemma ExplicitRhsAt(x: seq<real>, c: seq<real>, u: seq<real>, l: seq<real>, q: seq<real>, i: nat)
    requires |c| == |x| && |q| == |x| && |x| >= 1 && |u| == |x| - 1 && |l| == |x| - 1 && i < |x|
    ensures ExplicitRhs(x, c, u, l, q)[i] ==
      x[i] * (2.0 - c[i])
      - (if i + 1 < |x| then x[i + 1] * u[i] else 0.0)
      - (if i > 0 then x[i - 1] * l[i - 1] else 0.0)
      + q[i]
  {
  }

  /** Crank–Nicolson identity in matrix form: a right-hand side built by
      ExplicitRhs equals (2I − A)·x + q for the matrix A of the same system. */
  lemma CrankNicolsonRhs(s: System, x: seq<real>, q: seq<real>)
    requires WellFormed(s) && |x| == |s.central| && |q| == |x|
    requires s.rhs == ExplicitRhs(x, s.central, s.upper, s.lower, q)
    ensures forall i | 0 <= i < |x| :: s.rhs[i] == 2.0 * x[i] - Apply(s, x)[i] + q[i]
  {
  }
}
