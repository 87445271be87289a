/** The inverse is an inverse: a grid with two equal rows has determinant 0,
    so the entries of one row against the cofactors of another sum to 0,
    the grid times its adjugate is its determinant times the identity, and
    a matrix times what `inverse` returns for it is the identity.
 */
module Adjugates {
  import opened Errors
  import opened Grids
  import opened Sums
  import opened Laplace
  import opened Determinants
  import opened Matrices
  import opened MatrixAlgebra

  // ---------------------------------------------------------------------
  // Two equal rows

  /** Deleting row `r` and a column keeps two equal rows other than `r` equal. */
  lemma {:induction false} MinorKeepsEqualRows(g: Grid, a: nat, b: nat, r: nat, k: nat)
    requires Square(g) && a < b < |g| && r < |g| && k < |g|
    requires r != a && r != b && g[a] == g[b]
    ensures Unskip(a, r) < Unskip(b, r) < |g| - 1
    ensures Minor(g, |g|, r, k)[Unskip(a, r)] == Minor(g, |g|, r, k)[Unskip(b, r)]
  {
    var m := Minor(g, |g|, r, k);
    var a', b' := Unskip(a, r), Unskip(b, r);
    forall j | 0 <= j < |g| - 1
      ensures m[a'][j] == m[b'][j]
    {
      assert m[a'][j] == g[a][Skip(j, k)];
      assert m[b'][j] == g[b][Skip(j, k)];
    }
  }

  /** A grid with two equal rows has determinant 0: expanded along a third
      row, every minor still has two equal rows. */
  lemma {:induction false} DetEqualRows(g: Grid, a: nat, b: nat)
    requires Square(g) && a < b < |g|
    requires g[a] == g[b]
    ensures Det(g) == 0.0
    decreases |g|
  {
    var n := |g|;
    if n == 2 {
      DetOfTwo(g);
      assert g[1][0] == g[0][0] && g[1][1] == g[0][1];
    } else {
      var r := if a != 0 then 0 else if b != 1 then 1 else 2;
      RowExpansionIsDet(g, r);
      forall k | 0 <= k < n
        ensures CrossTerms(g, r, r)(k) == 0.0
      {
        MinorKeepsEqualRows(g, a, b, r, k);
        DetEqualRows(Minor(g, n, r, k), Unskip(a, r), Unskip(b, r));
        CrossTermValue(g, r, r, k);
        TimesZero(g[r][k] * Sign(r + k));
      }
      SumZero(n, CrossTerms(g, r, r));
    }
  }

  // ---------------------------------------------------------------------
  // Alien cofactors

  /** Deleting row `j` forgets what row `j` held. */
  lemma {:induction false} MinorIgnoresRow(g: Grid, h: Grid, j: nat, k: nat)
    requires Square(g) && Square(h) && |g| == |h| && j < |g| && k < |g|
    requires forall i :: 0 <= i < |g| && i != j ==> g[i] == h[i]
    ensures Minor(g, |g|, j, k) == Minor(h, |h|, j, k)
  {
    var n := |g|;
    var mg, mh := Minor(g, n, j, k), Minor(h, n, j, k);
    forall i, t | 0 <= i < n - 1 && 0 <= t < n - 1
      ensures mg[i][t] == mh[i][t]
    {
      assert g[Skip(i, j)] == h[Skip(i, j)];
    }
    GridsEqual(mg, mh, n - 1);
  }

  /** The entries of row `i` against the cofactors of another row `j` sum
      to 0: they expand the grid whose row `j` is a copy of row `i`. */
  lemma {:induction false} AlienCofactors(g: Grid, i: nat, j: nat)
    requires Square(g) && i < |g| && j < |g| && i != j
    ensures Sum(|g|, CrossTerms(g, i, j)) == 0.0
  {
    var n := |g|;
    var h := g[j := g[i]];
    assert Square(h);
    if i < j {
      DetEqualRows(h, i, j);
    } else {
      DetEqualRows(h, j, i);
    }
    RowExpansionIsDet(h, j);
    forall k | 0 <= k < n
      ensures CrossTerms(h, j, j)(k) == CrossTerms(g, i, j)(k)
    {
      MinorIgnoresRow(g, h, j, k);
    }
    SumExt(n, CrossTerms(h, j, j), CrossTerms(g, i, j));
  }

  /** Row `i` against the cofactors of row `j`: the determinant when the
      rows are the same, 0 otherwise. */
  lemma CofactorSums(g: Grid, i: nat, j: nat)
    requires Square(g) && i < |g| && j < |g|
    ensures Sum(|g|, CrossTerms(g, i, j)) == if i == j then Det(g) else 0.0
  {
    if i == j {
      RowExpansionIsDet(g, i);
    } else {
      AlienCofactors(g, i, j);
    }
  }

  // ---------------------------------------------------------------------
  // Inner products as sums

  /** The entry-wise products of two rows, as a summand. */
  function Products(a: Row, b: Row): nat -> real {
    (k: nat) => if k < |a| && k < |b| then a[k] * b[k] else 0.0
  }

  /** The inner product is the sum of the entry-wise products. */
  lemma {:induction false} InnerIsSum(a: Row, b: Row)
    requires |a| == |b|
    ensures Inner(a, b) == Sum(|a|, Products(a, b))
    decreases |a|
  {
    var n := |a|;
    if n > 0 {
      var a', b' := a[..n - 1], b[..n - 1];
      InnerIsSum(a', b');
      forall k | 0 <= k < n - 1
        ensures Products(a', b')(k) == Products(a, b)(k)
      {
        assert a'[k] == a[k] && b'[k] == b[k];
      }
      SumExt(n - 1, Products(a', b'), Products(a, b));
    }
  }

  // ---------------------------------------------------------------------
  // The inverse

  /** An entry against a cofactor over the determinant. */
  lemma DivideTerm(x: real, c: real, d: real)
    requires d != 0.0
    ensures x * (c / d) == Times(1.0 / d, x * c)
  {
  }

  /** Term k of row `i` against column `j` of the inverse is term k of row
      `i` against the cofactors of row `j`, over the determinant. */
  lemma InverseTerm(m: Matrix, i: nat, j: nat, k: nat)
    requires m.Valid() && Inverse(m).Ok? && i < m.rows && j < m.rows && k < m.rows
    ensures Products(m.data[i], Column(Inverse(m).value.data, j))(k) == Times(1.0 / Det(m.data), CrossTerms(m.data, i, j)(k))
  {
    var g, d := m.data, Det(m.data);
    var col := Column(Inverse(m).value.data, j);
    assert col[k] == Cofactor(g, j, k) / d;
    assert Products(g[i], col)(k) == g[i][k] * (Cofactor(g, j, k) / d);
    assert CrossTerms(g, i, j)(k) == g[i][k] * Cofactor(g, j, k);
    DivideTerm(g[i][k], Cofactor(g, j, k), d);
  }

  /** Row `i` against column `j` of the inverse is row `i` against the
      cofactors of row `j`, over the determinant. */
  lemma InverseInner(m: Matrix, i: nat, j: nat)
    requires m.Valid() && Inverse(m).Ok? && i < m.rows && j < m.rows
    ensures Inner(m.data[i], Column(Inverse(m).value.data, j)) == Times(1.0 / Det(m.data), Sum(m.rows, CrossTerms(m.data, i, j)))
  {
    var g, n := m.data, m.rows;
    var col := Column(Inverse(m).value.data, j);
    assert |g[i]| == n && |col| == n;
    InnerIsSum(g[i], col);
    forall k | 0 <= k < n
      ensures Products(g[i], col)(k) == Times(1.0 / Det(g), CrossTerms(g, i, j)(k))
    {
      InverseTerm(m, i, j, k);
    }
    SumScale(n, CrossTerms(g, i, j), 1.0 / Det(g), Products(g[i], col));
  }

  /** A nonzero value over itself is 1. */
  lemma OverItself(d: real)
    requires d != 0.0
    ensures Times(1.0 / d, d) == 1.0
    ensures Times(1.0 / d, 0.0) == 0.0
  {
  }

  /** Row `i` of a grid against column `j` of its inverse. */
  lemma InverseEntry(m: Matrix, i: nat, j: nat)
    requires m.Valid() && Inverse(m).Ok? && i < m.rows && j < m.rows
    ensures Inner(m.data[i], Column(Inverse(m).value.data, j)) == if i == j then 1.0 else 0.0
  {
    InverseInner(m, i, j);
    CofactorSums(m.data, i, j);
    OverItself(Det(m.data));
  }

  /** `inverse` gives a right inverse: a matrix times its inverse is the
      identity. */
  lemma InverseIsRightInverse(m: Matrix)
    requires m.Valid() && Inverse(m).Ok?
    ensures Multiply(m, Inverse(m).value) == Ok(IdentityMatrix(m.rows))
  {
    var p := Multiply(m, Inverse(m).value).value;
    forall i, j | 0 <= i < m.rows && 0 <= j < m.rows
      ensures p.data[i][j] == IdentityMatrix(m.rows).data[i][j]
    {
      InverseEntry(m, i, j);
    }
    MatricesEqual(p, IdentityMatrix(m.rows));
  }
}
