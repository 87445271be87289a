/** Facts about the cofactor-expansion determinant: closed forms for the
    small sizes, and the determinant of the identity, of a grid with a zero
    row and of a scaled grid.
 */
module Determinants {
  import opened Grids

  /** k to the power n. */
  function Power(k: real, n: nat): real {
    if n == 0 then 1.0 else k * Power(k, n - 1)
  }

  /** A 1 x 1 grid's determinant is its only entry. */
  lemma DetOfOne(g: Grid)
    requires |g| == 1 && Square(g)
    ensures Det(g) == g[0][0]
  {
    assert Det(Minor(g, 1, 0, 0)) == 1.0;
    assert ExpansionSum(g, 1) == Sign(0) * g[0][0] * Det(Minor(g, 1, 0, 0));
  }

  /** The expansion of a 2 x 2 grid is `ad - bc`. */
  lemma DetOfTwo(g: Grid)
    requires |g| == 2 && Square(g)
    ensures Det(g) == g[0][0] * g[1][1] - g[0][1] * g[1][0]
  {
    var m0 := Minor(g, 2, 0, 0);
    var m1 := Minor(g, 2, 0, 1);
    DetOfOne(m0);
    DetOfOne(m1);
    assert ExpansionSum(g, 1) == g[0][0] * Det(m0);
    assert ExpansionSum(g, 2) == ExpansionSum(g, 1) - g[0][1] * Det(m1);
  }

  /** The expansion of a 3 x 3 grid along its first row, written out. */
  lemma DetOfThree(g: Grid)
    requires |g| == 3 && Square(g)
    ensures Det(g) ==
              g[0][0] * (g[1][1] * g[2][2] - g[1][2] * g[2][1])
            - g[0][1] * (g[1][0] * g[2][2] - g[1][2] * g[2][0])
            + g[0][2] * (g[1][0] * g[2][1] - g[1][1] * g[2][0])
  {
    var m0 := Minor(g, 3, 0, 0);
    var m1 := Minor(g, 3, 0, 1);
    var m2 := Minor(g, 3, 0, 2);
    DetOfTwo(m0);
    DetOfTwo(m1);
    DetOfTwo(m2);
    assert ExpansionSum(g, 1) == g[0][0] * Det(m0);
    assert ExpansionSum(g, 2) == ExpansionSum(g, 1) - g[0][1] * Det(m1);
    assert ExpansionSum(g, 3) == ExpansionSum(g, 2) + g[0][2] * Det(m2);
  }

  /** When every term of the expansion from column 0 up to `k` vanishes, so
      does their sum. */
  lemma {:induction false} ExpansionSumVanishes(g: Grid, k: nat)
    requires Square(g) && 0 < |g| && k <= |g|
    requires forall j :: 0 <= j < k ==> g[0][j] == 0.0 || Det(Minor(g, |g|, 0, j)) == 0.0
    ensures ExpansionSum(g, k) == 0.0
    decreases k
  {
    if k > 0 {
      ExpansionSumVanishes(g, k - 1);
    }
  }

  /** When row 0 is zero outside column 0, only the first term of the
      expansion remains. */
  lemma {:induction false} ExpansionSumFirstTerm(g: Grid, k: nat)
    requires Square(g) && 0 < k <= |g|
    requires forall j :: 0 < j < |g| ==> g[0][j] == 0.0
    ensures ExpansionSum(g, k) == g[0][0] * Det(Minor(g, |g|, 0, 0))
    decreases k
  {
    if k > 1 {
      ExpansionSumFirstTerm(g, k - 1);
    }
  }

  /** The identity has determinant 1. */
  lemma {:induction false} DetIdentity(n: nat)
    ensures Det(Identity(n)) == 1.0
  {
    if n > 0 {
      var id := Identity(n);
      var minor := Minor(id, n, 0, 0);
      GridsEqual(minor, Identity(n - 1), n - 1);
      DetIdentity(n - 1);
      ExpansionSumFirstTerm(id, n);
    }
  }

  /** A grid with an all-zero row has determinant 0. */
  lemma {:induction false} DetZeroRow(g: Grid, r: nat)
    requires Square(g) && r < |g|
    requires forall j :: 0 <= j < |g| ==> g[r][j] == 0.0
    ensures Det(g) == 0.0
    decreases |g|
  {
    if r > 0 {
      forall j | 0 <= j < |g|
        ensures Det(Minor(g, |g|, 0, j)) == 0.0
      {
        var minor := Minor(g, |g|, 0, j);
        assert forall t :: 0 <= t < |g| - 1 ==> minor[r - 1][t] == g[r][Skip(t, j)];
        DetZeroRow(minor, r - 1);
      }
    }
    ExpansionSumVanishes(g, |g|);
  }

  /** Regrouping of one scaled expansion term. */
  lemma ScaledTerm(sign: real, x: real, d: real, k: real, p: real)
    ensures sign * (x * k) * (p * d) == (k * p) * (sign * x * d)
  {
  }

  /** One expansion term of a scaled grid is the term of the grid times `k`
      to the size. */
  lemma {:induction false} ExpansionTermScale(g: Grid, k: real, j: nat)
    requires Square(g) && j < |g|
    ensures Square(Scale(g, k, |g|))
    ensures ExpansionTerm(Scale(g, k, |g|), j) == Power(k, |g|) * ExpansionTerm(g, j)
    decreases |g|, 0
  {
    var n := |g|;
    var s := Scale(g, k, n);
    var mg := Minor(g, n, 0, j);
    MinorOfScale(g, k, j);
    DetScale(mg, k);
    assert s[0][j] == g[0][j] * k;
    ScaledTerm(Sign(j), g[0][j], Det(mg), k, Power(k, n - 1));
  }

  /** The expansion of a scaled grid is the expansion of the grid times
      `k` to the size, term by term. */
  lemma {:induction false} ExpansionSumScale(g: Grid, k: real, t: nat)
    requires Square(g) && 0 < |g| && t <= |g|
    ensures Square(Scale(g, k, |g|))
    ensures ExpansionSum(Scale(g, k, |g|), t) == Power(k, |g|) * ExpansionSum(g, t)
    decreases |g|, t
  {
    if t > 0 {
      ExpansionSumScale(g, k, t - 1);
      ExpansionTermScale(g, k, t - 1);
      Distribute(Power(k, |g|), ExpansionSum(g, t - 1), ExpansionTerm(g, t - 1));
    }
  }

  /** Crossing out commutes with scaling. */
  lemma MinorOfScale(g: Grid, k: real, j: nat)
    requires Square(g) && j < |g|
    ensures Minor(Scale(g, k, |g|), |g|, 0, j) == Scale(Minor(g, |g|, 0, j), k, |g| - 1)
  {
    var n := |g|;
    GridsEqual(Minor(Scale(g, k, n), n, 0, j), Scale(Minor(g, n, 0, j), k, n - 1), n - 1);
  }

  lemma Distribute(p: real, x: real, y: real)
    ensures p * x + p * y == p * (x + y)
  {
  }

  /** Multiplying every entry by `k` multiplies the determinant by `k` to
      the size. */
  lemma {:induction false} DetScale(g: Grid, k: real)
    requires Square(g)
    ensures Square(Scale(g, k, |g|))
    ensures Det(Scale(g, k, |g|)) == Power(k, |g|) * Det(g)
    decreases |g|, |g| + 1
  {
    if |g| > 0 {
      ExpansionSumScale(g, k, |g|);
    }
  }
}
