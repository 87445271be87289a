/** Raw nested-array algebra.

    A `Grid` is the row-major nested array the matrix class stores and the
    static helpers (`transposeArray`, `dot`) accept without checking it. Every
    function here states the shape it needs in its `requires`; the `Matrix`
    value type in module `Matrices` is a grid that has passed those checks.
 */
module Grids {

  type Row = seq<real>
  type Grid = seq<Row>

  /** Every row of `g` has exactly `width` entries. */
  predicate Rectangular(g: Grid, width: nat) {
    forall i :: 0 <= i < |g| ==> |g[i]| == width
  }

  /** As many rows as columns. */
  predicate Square(g: Grid) {
    Rectangular(g, |g|)
  }

  /** Two grids of one shape with the same entries are the same grid. */
  lemma GridsEqual(a: Grid, b: Grid, width: nat)
    requires |a| == |b|
    requires Rectangular(a, width) && Rectangular(b, width)
    requires forall i, j :: 0 <= i < |a| && 0 <= j < width ==> a[i][j] == b[i][j]
    ensures a == b
  {
    forall i | 0 <= i < |a|
      ensures a[i] == b[i]
    {
      assert forall j :: 0 <= j < width ==> a[i][j] == b[i][j];
    }
  }

  /** Index `i` of the shorter sequence that results from deleting index `k`,
      mapped back to an index of the original. */
  function Skip(i: nat, k: nat): (s: nat)
    ensures s != k
    ensures i < k ==> s == i
    ensures k <= i ==> s == i + 1
  {
    if i < k then i else i + 1
  }

  /** (-1)^k as a real. */
  function Sign(k: nat): (s: real)
    ensures s == 1.0 || s == -1.0
    ensures k % 2 == 0 <==> s == 1.0
  {
    if k % 2 == 0 then 1.0 else -1.0
  }

  /** The values at column `j` of every row, in row order. */
  function Column(g: Grid, j: nat): (col: Row)
    requires forall i :: 0 <= i < |g| ==> j < |g[i]|
    ensures |col| == |g|
    ensures forall i :: 0 <= i < |col| ==> col[i] == g[i][j]
  {
    seq(|g|, i requires 0 <= i < |g| => g[i][j])
  }

  /** The `width` x |g| grid whose row `j` is column `j` of `g`. */
  function Transpose(g: Grid, width: nat): (t: Grid)
    requires Rectangular(g, width)
    ensures |t| == width
    ensures Rectangular(t, |g|)
    ensures forall j, i :: 0 <= j < width && 0 <= i < |g| ==> t[j][i] == g[i][j]
  {
    seq(width, j requires 0 <= j < width => Column(g, j))
  }

  /** Inner product of two rows of equal length, summed from the front. */
  function Inner(a: Row, b: Row): real
    requires |a| == |b|
  {
    if |a| == 0 then 0.0 else Inner(a[..|a| - 1], b[..|b| - 1]) + a[|a| - 1] * b[|b| - 1]
  }

  /** Row-by-column product of an m x n grid and an n x p grid. */
  function Product(a: Grid, b: Grid, p: nat): (c: Grid)
    requires Rectangular(a, |b|)
    requires Rectangular(b, p)
    ensures |c| == |a|
    ensures Rectangular(c, p)
    ensures forall i, j :: 0 <= i < |a| && 0 <= j < p ==> c[i][j] == Inner(a[i], Column(b, j))
  {
    seq(|a|, i requires 0 <= i < |a| =>
      seq(p, j requires 0 <= j < p => Inner(a[i], Column(b, j))))
  }

  /** Entry-wise `a + sign * b`, the shared body of addition and subtraction. */
  function Combine(a: Grid, b: Grid, sign: real, width: nat): (c: Grid)
    requires |a| == |b|
    requires Rectangular(a, width) && Rectangular(b, width)
    ensures |c| == |a|
    ensures Rectangular(c, width)
    ensures forall i, j :: 0 <= i < |a| && 0 <= j < width ==> c[i][j] == a[i][j] + sign * b[i][j]
  {
    seq(|a|, i requires 0 <= i < |a| =>
      seq(width, j requires 0 <= j < width => a[i][j] + sign * b[i][j]))
  }

  /** Every entry multiplied by `k`. */
  function Scale(g: Grid, k: real, width: nat): (s: Grid)
    requires Rectangular(g, width)
    ensures |s| == |g|
    ensures Rectangular(s, width)
    ensures forall i, j :: 0 <= i < |g| && 0 <= j < width ==> s[i][j] == g[i][j] * k
  {
    seq(|g|, i requires 0 <= i < |g| =>
      seq(width, j requires 0 <= j < width => g[i][j] * k))
  }

  /** Every entry divided by `k`. */
  function Divide(g: Grid, k: real, width: nat): (s: Grid)
    requires k != 0.0
    requires Rectangular(g, width)
    ensures |s| == |g|
    ensures Rectangular(s, width)
    ensures forall i, j :: 0 <= i < |g| && 0 <= j < width ==> s[i][j] == g[i][j] / k
  {
    seq(|g|, i requires 0 <= i < |g| =>
      seq(width, j requires 0 <= j < width => g[i][j] / k))
  }

  /** Row `i` of the n x n identity. */
  function Unit(n: nat, i: nat): (u: Row)
    ensures |u| == n
    ensures forall k :: 0 <= k < n ==> u[k] == if k == i then 1.0 else 0.0
  {
    seq(n, k requires 0 <= k < n => if k == i then 1.0 else 0.0)
  }

  /** The n x n identity. */
  function Identity(n: nat): (id: Grid)
    ensures |id| == n
    ensures Square(id)
    ensures forall i :: 0 <= i < n ==> id[i] == Unit(n, i)
  {
    seq(n, i requires 0 <= i < n => Unit(n, i))
  }

  /** The grid left after deleting row `r` and column `c` (the minor
      primitive, `crossOut`). */
  function Minor(g: Grid, width: nat, r: nat, c: nat): (m: Grid)
    requires Rectangular(g, width)
    requires r < |g| && c < width
    ensures |m| == |g| - 1
    ensures Rectangular(m, width - 1)
    ensures forall i, j {:trigger m[i][j]} :: 0 <= i < |g| - 1 && 0 <= j < width - 1 ==> m[i][j] == g[Skip(i, r)][Skip(j, c)]
  {
    seq(|g| - 1, i requires 0 <= i < |g| - 1 =>
      seq(width - 1, j requires 0 <= j < width - 1 => g[Skip(i, r)][Skip(j, c)]))
  }

  /** Determinant by cofactor (Laplace) expansion along row 0. The empty
      grid has determinant 1, so a 1 x 1 grid's determinant is its entry. */
  function Det(g: Grid): real
    requires Square(g)
    decreases |g|, |g| + 1
  {
    if |g| == 0 then 1.0 else ExpansionSum(g, |g|)
  }

  /** The first `k` terms of the expansion of `Det(g)` along row 0. */
  function ExpansionSum(g: Grid, k: nat): real
    requires Square(g) && 0 < |g| && k <= |g|
    decreases |g|, k
  {
    if k == 0 then 0.0 else ExpansionSum(g, k - 1) + ExpansionTerm(g, k - 1)
  }

  /** Term `j` of the expansion along row 0: the signed entry times its minor. */
  function ExpansionTerm(g: Grid, j: nat): real
    requires Square(g) && j < |g|
    decreases |g|, 0
  {
    Sign(j) * g[0][j] * Det(Minor(g, |g|, 0, j))
  }

  /** Signed minor at (r, c). */
  function Cofactor(g: Grid, r: nat, c: nat): real
    requires Square(g)
    requires r < |g| && c < |g|
  {
    Sign(r + c) * Det(Minor(g, |g|, r, c))
  }

  /** The grid of all cofactors. */
  function CofactorGrid(g: Grid): (cg: Grid)
    requires Square(g)
    ensures |cg| == |g|
    ensures Square(cg)
    ensures forall i, j :: 0 <= i < |g| && 0 <= j < |g| ==> cg[i][j] == Cofactor(g, i, j)
  {
    seq(|g|, i requires 0 <= i < |g| =>
      seq(|g|, j requires 0 <= j < |g| => Cofactor(g, i, j)))
  }
}
