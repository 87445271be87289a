/** The Laplace expansion theorem for the determinant defined by expansion
    along row 0: the same value comes out of the expansion along any row,
    a grid with two equal rows has determinant 0, and so the entries of one
    row against the cofactors of another sum to 0. These are the facts that
    make the adjugate divided by the determinant an inverse.
 */
module Laplace {
  import opened Grids
  import opened Sums

  /** The terms of the expansion along row 0, as a summand. */
  function Terms(g: Grid): nat -> real
    requires Square(g)
  {
    (j: nat) => if j < |g| then ExpansionTerm(g, j) else 0.0
  }

  /** The first `k` expansion terms are a finite sum of `Terms`. */
  lemma {:induction false} ExpansionSumIsSum(g: Grid, k: nat)
    requires Square(g) && 0 < |g| && k <= |g|
    ensures ExpansionSum(g, k) == Sum(k, Terms(g))
    decreases k
  {
    if k > 0 {
      ExpansionSumIsSum(g, k - 1);
    }
  }

  /** The determinant of a non-empty grid is the sum of its row-0 terms. */
  lemma {:induction false} DetIsSum(g: Grid)
    requires Square(g) && 0 < |g|
    ensures Det(g) == Sum(|g|, Terms(g))
  {
    ExpansionSumIsSum(g, |g|);
  }

  /** Entries of row `i` against the cofactors of row `j`. With `i == j`
      these are the terms of the expansion along row `i`. */
  function CrossTerms(g: Grid, i: nat, j: nat): nat -> real
    requires Square(g) && i < |g| && j < |g|
  {
    (k: nat) => if k < |g| then g[i][k] * Cofactor(g, j, k) else 0.0
  }

  /** The index that index `k` of a row or column becomes once another
      index `j` is deleted: the inverse of `Skip(_, j)`. */
  function Unskip(k: nat, j: nat): (u: nat)
    requires k != j
    ensures Skip(u, j) == k
  {
    if k < j then k else k - 1
  }

  /** Unskip undoes Skip. */
  lemma {:induction false} UnskipSkip(k: nat, j: nat)
    ensures Unskip(Skip(k, j), j) == k
  {
  }

  // ---------------------------------------------------------------------
  // Expansion along row r > 0: the double sum over an entry of row 0 and
  // an entry of row r, each pair weighted by the determinant of what is
  // left once rows 0 and r and both columns are deleted.

  /** Sign of the pair (row 0, column j), (row r, column k). */
  function PairSign(r: nat, j: nat, k: nat): real
    requires r > 0 && j != k
  {
    if j < k then Sign(r + j + k) else Sign(r + j + k - 1)
  }

  /** The grid without rows 0 and r and without columns j and k. */
  function PairMinor(g: Grid, r: nat, j: nat, k: nat): (m: Grid)
    requires Square(g) && 0 < r < |g| && j < |g| && k < |g| && j != k
    ensures |m| == |g| - 2 && Square(m)
  {
    Minor(Minor(g, |g|, 0, j), |g| - 1, r - 1, Unskip(k, j))
  }

  /** One term of the double sum; a pair in one column contributes nothing. */
  function PairTerm(g: Grid, r: nat, j: nat, k: nat): real
    requires Square(g) && 0 < r < |g| && j < |g| && k < |g|
  {
    if j == k then 0.0 else PairSign(r, j, k) * g[0][j] * g[r][k] * Det(PairMinor(g, r, j, k))
  }

  /** A pair term in two different columns, as a value. */
  lemma {:induction false} PairTermOffDiagonal(g: Grid, r: nat, j: nat, k: nat)
    requires Square(g) && 0 < r < |g| && j < |g| && k < |g| && j != k
    ensures PairTerm(g, r, j, k) == PairSign(r, j, k) * g[0][j] * g[r][k] * Det(PairMinor(g, r, j, k))
  {
  }

  /** The table of pair terms, indexed by the column in row 0 and the column in row r. */
  function Pairs(g: Grid, r: nat): (nat, nat) -> real
    requires Square(g) && 0 < r < |g|
  {
    (j: nat, k: nat) => if j < |g| && k < |g| then PairTerm(g, r, j, k) else 0.0
  }

  /** Deleting row r and column k, then row 0 and column j', leaves the
      pair minor of column Skip(j', k) and column k. */
  lemma {:induction false} MinorsCommute(g: Grid, r: nat, jj: nat, k: nat)
    requires Square(g) && 0 < r < |g| && k < |g| && jj < |g| - 1
    ensures Minor(Minor(g, |g|, r, k), |g| - 1, 0, jj) == PairMinor(g, r, Skip(jj, k), k)
  {
    var n := |g|;
    var j := Skip(jj, k);
    var kk := Unskip(k, j);
    var mk := Minor(g, n, r, k);
    var a := Minor(mk, n - 1, 0, jj);
    var m0 := Minor(g, n, 0, j);
    var b := Minor(m0, n - 1, r - 1, kk);
    forall x, y | 0 <= x < n - 2 && 0 <= y < n - 2
      ensures a[x][y] == b[x][y]
    {
      assert a[x][y] == mk[Skip(x, 0)][Skip(y, jj)];
      assert mk[Skip(x, 0)][Skip(y, jj)] == g[Skip(Skip(x, 0), r)][Skip(Skip(y, jj), k)];
      assert b[x][y] == m0[Skip(x, r - 1)][Skip(y, kk)];
      assert m0[Skip(x, r - 1)][Skip(y, kk)] == g[Skip(Skip(x, r - 1), 0)][Skip(Skip(y, kk), j)];
      RowsSkipped(x, r);
      ColumnsSkipped(y, jj, k);
    }
    GridsEqual(a, b, n - 2);
  }

  /** Skipping row 0 and row r in either order. */
  lemma {:induction false} RowsSkipped(x: nat, r: nat)
    requires r > 0
    ensures Skip(Skip(x, 0), r) == Skip(Skip(x, r - 1), 0)
  {
  }

  /** Skipping two distinct columns in either order. */
  lemma {:induction false} ColumnsSkipped(y: nat, jj: nat, k: nat)
    ensures Skip(Skip(y, jj), k) == Skip(Skip(y, Unskip(k, Skip(jj, k))), Skip(jj, k))
  {
  }

  /** Sign arithmetic: signs multiply by adding exponents. */
  lemma {:induction false} SignAdd(a: nat, b: nat)
    ensures Sign(a) * Sign(b) == Sign(a + b)
  {
  }

  /** Equal factors give equal products. */
  lemma {:induction false} MulRight(a: real, d: real, e: real)
    requires d == e
    ensures a * d == a * e
  {
  }

  /** A row-0 expansion term, as a value. */
  lemma {:induction false} TermValue(g: Grid, j: nat)
    requires Square(g) && j < |g|
    ensures Terms(g)(j) == Times(Sign(j) * g[0][j], Det(Minor(g, |g|, 0, j)))
  {
  }

  /** An entry against a cofactor, as a value. */
  lemma {:induction false} CrossTermValue(g: Grid, i: nat, j: nat, k: nat)
    requires Square(g) && i < |g| && j < |g| && k < |g|
    ensures CrossTerms(g, i, j)(k) == Times(g[i][k] * Sign(j + k), Det(Minor(g, |g|, j, k)))
  {
  }

  // Column k of the pair table: the expansion of the (r, k) minor along
  // its row 0, which is row 0 of `g` without column k.

  /** The row-0 expansion terms of the (r, k) minor, written over `g`. */
  function LeftTerms(g: Grid, r: nat, k: nat): nat -> real
    requires Square(g) && 0 < r < |g| && k < |g|
  {
    (jj: nat) => if jj < |g| - 1 then Sign(jj) * g[0][Skip(jj, k)] * Det(PairMinor(g, r, Skip(jj, k), k)) else 0.0
  }

  /** A row-0 expansion term of the (r, k) minor, in terms of `g`. */
  lemma {:induction false} RowMinorTerm(g: Grid, r: nat, k: nat, jj: nat)
    requires Square(g) && 0 < r < |g| && k < |g| && jj < |g| - 1
    ensures Terms(Minor(g, |g|, r, k))(jj) == LeftTerms(g, r, k)(jj)
  {
    RowMinorTermUnfolded(g, r, k, jj);
    MinorsCommute(g, r, jj, k);
    MulRight(Sign(jj) * g[0][Skip(jj, k)], Det(Minor(Minor(g, |g|, r, k), |g| - 1, 0, jj)),
             Det(PairMinor(g, r, Skip(jj, k), k)));
  }

  lemma {:induction false} RowMinorTermUnfolded(g: Grid, r: nat, k: nat, jj: nat)
    requires Square(g) && 0 < r < |g| && k < |g| && jj < |g| - 1
    ensures Terms(Minor(g, |g|, r, k))(jj) ==
              Sign(jj) * g[0][Skip(jj, k)] * Det(Minor(Minor(g, |g|, r, k), |g| - 1, 0, jj))
  {
  }

  /** The determinant of the (r, k) minor as a sum over `g`. */
  lemma {:induction false} LeftMinorDet(g: Grid, r: nat, k: nat)
    requires Square(g) && 0 < r < |g| && k < |g|
    ensures Det(Minor(g, |g|, r, k)) == Sum(|g| - 1, LeftTerms(g, r, k))
  {
    var nm := Minor(g, |g|, r, k);
    DetIsSum(nm);
    forall jj | 0 <= jj < |g| - 1
      ensures Terms(nm)(jj) == LeftTerms(g, r, k)(jj)
    {
      RowMinorTerm(g, r, k, jj);
    }
    SumExt(|g| - 1, Terms(nm), LeftTerms(g, r, k));
  }

  /** The pair sign of column Skip(j', k) in row 0 and column k in row r. */
  lemma {:induction false} LeftSign(r: nat, jj: nat, k: nat)
    requires r > 0
    ensures PairSign(r, Skip(jj, k), k) == Sign(r + k) * Sign(jj)
  {
    SignAdd(r + k, jj);
  }

  /** Regrouping of a term of the double sum. */
  lemma {:induction false} Regroup(x: real, s: real, t: real, y: real, d: real, p: real)
    requires p == s * t
    ensures x * s * (t * y * d) == p * y * x * d
  {
  }

  /** One term of the row-0 expansion of the (r, k) minor, scaled by the
      signed entry (r, k), is a term of column k of the pair table. */
  lemma {:induction false} LeftEntry(g: Grid, r: nat, k: nat, jj: nat)
    requires Square(g) && 0 < r < |g| && k < |g| && jj < |g| - 1
    ensures g[r][k] * Sign(r + k) * (Sign(jj) * g[0][Skip(jj, k)] * Det(PairMinor(g, r, Skip(jj, k), k))) ==
              PairTerm(g, r, Skip(jj, k), k)
  {
    var j := Skip(jj, k);
    LeftSign(r, jj, k);
    Regroup(g[r][k], Sign(r + k), Sign(jj), g[0][j], Det(PairMinor(g, r, j, k)), PairSign(r, j, k));
    PairTermOffDiagonal(g, r, j, k);
  }

  /** Entry (j, k) of the pair table. */
  lemma {:induction false} PairsValue(g: Grid, r: nat, j: nat, k: nat)
    requires Square(g) && 0 < r < |g| && j < |g| && k < |g|
    ensures RowOf(Pairs(g, r), j)(k) == PairTerm(g, r, j, k)
    ensures ColumnOf(Pairs(g, r), k)(j) == PairTerm(g, r, j, k)
  {
  }

  /** A scaled left term, as a value. */
  lemma {:induction false} LeftTermValue(g: Grid, r: nat, k: nat, jj: nat)
    requires Square(g) && 0 < r < |g| && k < |g| && jj < |g| - 1
    ensures Scaled(g[r][k] * Sign(r + k), LeftTerms(g, r, k))(jj) ==
              g[r][k] * Sign(r + k) * (Sign(jj) * g[0][Skip(jj, k)] * Det(PairMinor(g, r, Skip(jj, k), k)))
  {
  }

  /** Scaled left term j' is entry (Skip(j', k), k) of the pair table. */
  lemma {:induction false} LeftEntryInTable(g: Grid, r: nat, k: nat, jj: nat)
    requires Square(g) && 0 < r < |g| && k < |g| && jj < |g| - 1
    ensures Scaled(g[r][k] * Sign(r + k), LeftTerms(g, r, k))(jj) == ColumnOf(Pairs(g, r), k)(Skip(jj, k))
  {
    LeftTermValue(g, r, k, jj);
    LeftEntry(g, r, k, jj);
    PairsValue(g, r, Skip(jj, k), k);
  }

  /** The scaled row-0 terms of the (r, k) minor are column k of the pair
      table with its zero diagonal entry left out. */
  lemma {:induction false} LeftColumnTerms(g: Grid, r: nat, k: nat)
    requires Square(g) && 0 < r < |g| && k < |g|
    ensures Sum(|g| - 1, Scaled(g[r][k] * Sign(r + k), LeftTerms(g, r, k))) == Sum(|g|, ColumnOf(Pairs(g, r), k))
  {
    var n := |g|;
    var h := Scaled(g[r][k] * Sign(r + k), LeftTerms(g, r, k));
    var f := ColumnOf(Pairs(g, r), k);
    forall jj | 0 <= jj < n - 1
      ensures h(jj) == f(if jj < k then jj else jj + 1)
    {
      LeftEntryInTable(g, r, k, jj);
    }
    SumDropOne(n, f, k, h);
    PairsValue(g, r, k, k);
  }

  /** Column k of the pair table sums to the row-r term of column k. */
  lemma {:induction false} LeftColumn(g: Grid, r: nat, k: nat)
    requires Square(g) && 0 < r < |g| && k < |g|
    ensures CrossTerms(g, r, r)(k) == Sum(|g|, ColumnOf(Pairs(g, r), k))
  {
    LeftColumnTerms(g, r, k);
    LeftMinorDet(g, r, k);
    CrossTermValue(g, r, r, k);
    SumScaled(|g| - 1, g[r][k] * Sign(r + k), LeftTerms(g, r, k));
  }

  // Row j of the pair table: the expansion of the (0, j) minor along its
  // row r - 1, which is row r of `g` without column j.

  /** The row-(r - 1) expansion terms of the (0, j) minor, written over `g`. */
  function RightTerms(g: Grid, r: nat, j: nat): nat -> real
    requires Square(g) && 0 < r < |g| && j < |g|
  {
    (kk: nat) => if kk < |g| - 1 then g[r][Skip(kk, j)] * (Sign(r - 1 + kk) * Det(PairMinor(g, r, j, Skip(kk, j)))) else 0.0
  }

  /** A row-(r - 1) term of the (0, j) minor, in terms of `g`. */
  lemma {:induction false} ColumnMinorTerm(g: Grid, r: nat, j: nat, kk: nat)
    requires Square(g) && 0 < r < |g| && j < |g| && kk < |g| - 1
    ensures CrossTerms(Minor(g, |g|, 0, j), r - 1, r - 1)(kk) == RightTerms(g, r, j)(kk)
  {
    UnskipSkip(kk, j);
    ColumnMinorTermUnfolded(g, r, j, kk);
  }

  lemma {:induction false} ColumnMinorTermUnfolded(g: Grid, r: nat, j: nat, kk: nat)
    requires Square(g) && 0 < r < |g| && j < |g| && kk < |g| - 1
    ensures CrossTerms(Minor(g, |g|, 0, j), r - 1, r - 1)(kk) ==
              g[r][Skip(kk, j)] * (Sign(r - 1 + kk) * Det(Minor(Minor(g, |g|, 0, j), |g| - 1, r - 1, kk)))
  {
  }

  /** The determinant of the (0, j) minor as a sum over `g`, by expanding
      it along its row r - 1. */
  lemma {:induction false} RightMinorDet(g: Grid, r: nat, j: nat)
    requires Square(g) && 0 < r < |g| && j < |g|
    ensures Det(Minor(g, |g|, 0, j)) == Sum(|g| - 1, RightTerms(g, r, j))
    decreases |g|, 0
  {
    RowExpansionIsDet(Minor(g, |g|, 0, j), r - 1);
    ColumnMinorTerms(g, r, j);
  }

  /** The row-(r - 1) expansion of the (0, j) minor, summed over `g`. */
  lemma {:induction false} ColumnMinorTerms(g: Grid, r: nat, j: nat)
    requires Square(g) && 0 < r < |g| && j < |g|
    ensures Sum(|g| - 1, CrossTerms(Minor(g, |g|, 0, j), r - 1, r - 1)) == Sum(|g| - 1, RightTerms(g, r, j))
  {
    var m := Minor(g, |g|, 0, j);
    forall kk | 0 <= kk < |g| - 1
      ensures CrossTerms(m, r - 1, r - 1)(kk) == RightTerms(g, r, j)(kk)
    {
      ColumnMinorTerm(g, r, j, kk);
    }
    SumExt(|g| - 1, CrossTerms(m, r - 1, r - 1), RightTerms(g, r, j));
  }

  /** The pair sign of column j in row 0 and column Skip(k', j) in row r. */
  lemma {:induction false} RightSign(r: nat, j: nat, kk: nat)
    requires r > 0
    ensures PairSign(r, j, Skip(kk, j)) == Sign(j) * Sign(r - 1 + kk)
  {
    SignAdd(j, r - 1 + kk);
  }

  /** Regrouping of a term of the double sum. */
  lemma {:induction false} RegroupRight(x: real, s: real, t: real, y: real, d: real, p: real)
    requires p == x * t
    ensures x * s * (y * (t * d)) == p * s * y * d
  {
  }

  /** One term of the row-(r - 1) expansion of the (0, j) minor, scaled by
      the signed entry (0, j), is a term of row j of the pair table. */
  lemma {:induction false} RightEntry(g: Grid, r: nat, j: nat, kk: nat)
    requires Square(g) && 0 < r < |g| && j < |g| && kk < |g| - 1
    ensures Sign(j) * g[0][j] * (g[r][Skip(kk, j)] * (Sign(r - 1 + kk) * Det(PairMinor(g, r, j, Skip(kk, j))))) ==
              PairTerm(g, r, j, Skip(kk, j))
  {
    var k := Skip(kk, j);
    RightSign(r, j, kk);
    RegroupRight(Sign(j), g[0][j], Sign(r - 1 + kk), g[r][k], Det(PairMinor(g, r, j, k)), PairSign(r, j, k));
    PairTermOffDiagonal(g, r, j, k);
  }

  /** A scaled right term, as a value. */
  lemma {:induction false} RightTermValue(g: Grid, r: nat, j: nat, kk: nat)
    requires Square(g) && 0 < r < |g| && j < |g| && kk < |g| - 1
    ensures Scaled(Sign(j) * g[0][j], RightTerms(g, r, j))(kk) ==
              Sign(j) * g[0][j] * (g[r][Skip(kk, j)] * (Sign(r - 1 + kk) * Det(PairMinor(g, r, j, Skip(kk, j)))))
  {
  }

  /** Scaled right term k' is entry (j, Skip(k', j)) of the pair table. */
  lemma {:induction false} RightEntryInTable(g: Grid, r: nat, j: nat, kk: nat)
    requires Square(g) && 0 < r < |g| && j < |g| && kk < |g| - 1
    ensures Scaled(Sign(j) * g[0][j], RightTerms(g, r, j))(kk) == RowOf(Pairs(g, r), j)(Skip(kk, j))
  {
    RightTermValue(g, r, j, kk);
    RightEntry(g, r, j, kk);
    PairsValue(g, r, j, Skip(kk, j));
  }

  /** The scaled row-(r - 1) terms of the (0, j) minor are row j of the
      pair table with its zero diagonal entry left out. */
  lemma {:induction false} RightRowTerms(g: Grid, r: nat, j: nat)
    requires Square(g) && 0 < r < |g| && j < |g|
    ensures Sum(|g| - 1, Scaled(Sign(j) * g[0][j], RightTerms(g, r, j))) == Sum(|g|, RowOf(Pairs(g, r), j))
  {
    var n := |g|;
    var h := Scaled(Sign(j) * g[0][j], RightTerms(g, r, j));
    var f := RowOf(Pairs(g, r), j);
    forall kk | 0 <= kk < n - 1
      ensures h(kk) == f(if kk < j then kk else kk + 1)
    {
      RightEntryInTable(g, r, j, kk);
    }
    SumDropOne(n, f, j, h);
    PairsValue(g, r, j, j);
  }

  /** Row j of the pair table sums to the row-0 term of column j. */
  lemma {:induction false} RightRow(g: Grid, r: nat, j: nat)
    requires Square(g) && 0 < r < |g| && j < |g|
    ensures Terms(g)(j) == Sum(|g|, RowOf(Pairs(g, r), j))
    decreases |g|, 1
  {
    RightRowTerms(g, r, j);
    RightMinorDet(g, r, j);
    TermValue(g, j);
    SumScaled(|g| - 1, Sign(j) * g[0][j], RightTerms(g, r, j));
  }

  /** Laplace expansion along any row gives the determinant. */
  lemma {:induction false} RowExpansionIsDet(g: Grid, r: nat)
    requires Square(g) && r < |g|
    ensures Det(g) == Sum(|g|, CrossTerms(g, r, r))
    decreases |g|, 2
  {
    var n := |g|;
    DetIsSum(g);
    if r == 0 {
      SumExt(n, Terms(g), CrossTerms(g, 0, 0));
    } else {
      var table := Pairs(g, r);
      forall j | 0 <= j < n
        ensures Terms(g)(j) == RowSums(n, table)(j)
      {
        RightRow(g, r, j);
      }
      SumExt(n, Terms(g), RowSums(n, table));
      SumSwap(n, n, table);
      forall k | 0 <= k < n
        ensures ColumnSums(n, table)(k) == CrossTerms(g, r, r)(k)
      {
        LeftColumn(g, r, k);
      }
      SumExt(n, ColumnSums(n, table), CrossTerms(g, r, r));
    }
  }
}
