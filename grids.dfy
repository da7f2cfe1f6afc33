/** Fields over the (momentum, height) grid as values: rows indexed by
    momentum, each row indexed by height, and the shape and sign predicates
    the solvers and diagnostics state their contracts with. */
module Grids {

  /** A 2-D field stored as rows indexed [momentum][height]. */
  predicate IsGrid(g: seq<seq<real>>, rows: nat, cols: nat)
  {
    |g| == rows && forall i | 0 <= i < rows :: |g[i]| == cols
  }

  /** A transformation of fields that maps every rows × cols grid to a
      rows × cols grid. */
  ghost predicate KeepsShape(h: seq<seq<real>> -> seq<seq<real>>, rows: nat, cols: nat)
  {
    forall g {:trigger h(g)} :: IsGrid(g, rows, cols) ==> IsGrid(h(g), rows, cols)
  }

  /** Every value of the field is non-negative. */
  predicate NonNegativeGrid(g: seq<seq<real>>)
  {
    forall i, j | 0 <= i < |g| && 0 <= j < |g[i]| :: g[i][j] >= 0.0
  }

  /** Every value of the field is zero. */
  ghost predicate ZeroGrid(g: seq<seq<real>>)
  {
    forall i, j | 0 <= i < |g| && 0 <= j < |g[i]| :: g[i][j] == 0.0
  }
}
