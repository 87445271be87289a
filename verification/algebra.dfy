/** Algebraic laws of the matrix operations: each operation against its
    inverse operation, an identity element or an independent description.
 */
module MatrixAlgebra {
  import opened Errors
  import opened Grids
  import opened Matrices

  /** Two valid matrices of one shape with the same entries are the same value. */
  lemma MatricesEqual(a: Matrix, b: Matrix)
    requires a.Valid() && b.Valid()
    requires a.rows == b.rows && a.columns == b.columns
    requires forall i, j :: 0 <= i < a.rows && 0 <= j < a.columns ==> a.data[i][j] == b.data[i][j]
    ensures a == b
  {
    GridsEqual(a.data, b.data, a.columns);
  }

  /** The n x n identity matrix. */
  function IdentityMatrix(n: nat): (id: Matrix)
    requires n >= 1
    ensures id.Valid() && id.rows == n && id.columns == n
    ensures forall i, j :: 0 <= i < n && 0 <= j < n ==> id.data[i][j] == if i == j then 1.0 else 0.0
  {
    Matrix(n, n, Identity(n))
  }

  // ---------------------------------------------------------------------
  // Inner products

  /** The inner product is symmetric. */
  lemma {:induction false} InnerCommutes(a: Row, b: Row)
    requires |a| == |b|
    ensures Inner(a, b) == Inner(b, a)
    decreases |a|
  {
    if |a| > 0 {
      InnerCommutes(a[..|a| - 1], b[..|b| - 1]);
    }
  }

  /** Against a row that is `k` at index `j` and zero elsewhere, the inner
      product picks out `k` times entry `j`. */
  lemma {:induction false} InnerPicksEntry(a: Row, u: Row, j: nat, k: real)
    requires |a| == |u|
    requires forall t :: 0 <= t < |u| ==> u[t] == if t == j then k else 0.0
    ensures Inner(a, u) == if j < |a| then a[j] * k else 0.0
    decreases |a|
  {
    if |a| > 0 {
      InnerPicksEntry(a[..|a| - 1], u[..|u| - 1], j, k);
    }
  }

  // ---------------------------------------------------------------------
  // Construction and accessors

  /** The data read back out of a matrix builds that same matrix again. */
  lemma ConstructorRoundTrip(m: Matrix)
    requires m.Valid()
    ensures New(Nested(ToArray(m))) == Ok(m)
  {
  }

  /** Transposing keeps the top-left entry. */
  lemma ToScalarOfTranspose(m: Matrix)
    requires m.Valid()
    ensures ToScalar(Matrices.Transpose(m)) == ToScalar(m)
  {
  }

  /** A flat list given to the constructor is one row; `fromFlatArray` makes
      the same values a column: the transpose of that row. */
  lemma FlatArrayIsTransposedRow(values: Row)
    requires |values| >= 1
    ensures New(Vector(values)).Ok? && FromFlatArray(values).Ok?
    ensures FromFlatArray(values) == Ok(Matrices.Transpose(New(Vector(values)).value))
  {
    MatricesEqual(FromFlatArray(values).value, Matrices.Transpose(New(Vector(values)).value));
  }

  /** Column 0 of `fromFlatArray(v)` is `v` again. */
  lemma FlatArrayColumnRoundTrip(values: Row)
    requires |values| >= 1
    ensures FromFlatArray(values).Ok?
    ensures GetColumnValues(FromFlatArray(values).value, 0) == Ok(values)
  {
    var col := GetColumnValues(FromFlatArray(values).value, 0).value;
    assert forall i :: 0 <= i < |values| ==> col[i] == values[i];
    assert col == values;
  }

  // ---------------------------------------------------------------------
  // Transpose

  /** Transposing twice gives back the matrix. */
  lemma TransposeInvolution(m: Matrix)
    requires m.Valid()
    ensures Matrices.Transpose(Matrices.Transpose(m)) == m
  {
    MatricesEqual(Matrices.Transpose(Matrices.Transpose(m)), m);
  }

  /** The static `transposeArray` applied twice gives back the rows. */
  lemma TransposeArrayInvolution(g: Grid)
    requires IsMatrixData(g)
    ensures IsMatrixData(TransposeArray(g))
    ensures TransposeArray(TransposeArray(g)) == g
  {
    var t := TransposeArray(g);
    assert |t| >= 1 && |t[0]| == |g|;
    GridsEqual(TransposeArray(t), g, |g[0]|);
  }

  // ---------------------------------------------------------------------
  // Multiplication

  /** The identity is a right unit of `multiply`. */
  lemma MultiplyIdentityRight(m: Matrix)
    requires m.Valid()
    ensures Multiply(m, IdentityMatrix(m.columns)) == Ok(m)
  {
    var id := IdentityMatrix(m.columns);
    var p := Multiply(m, id).value;
    forall i, j | 0 <= i < m.rows && 0 <= j < m.columns
      ensures p.data[i][j] == m.data[i][j]
    {
      InnerPicksEntry(m.data[i], Column(id.data, j), j, 1.0);
    }
    MatricesEqual(p, m);
  }

  /** The identity is a left unit of `multiply`. */
  lemma MultiplyIdentityLeft(m: Matrix)
    requires m.Valid()
    ensures Multiply(IdentityMatrix(m.rows), m) == Ok(m)
  {
    var id := IdentityMatrix(m.rows);
    var p := Multiply(id, m).value;
    forall i, j | 0 <= i < m.rows && 0 <= j < m.columns
      ensures p.data[i][j] == m.data[i][j]
    {
      InnerCommutes(id.data[i], Column(m.data, j));
      InnerPicksEntry(Column(m.data, j), id.data[i], i, 1.0);
    }
    MatricesEqual(p, m);
  }

  /** The transpose of a product is the product of the transposes in the
      other order. */
  lemma TransposeOfProduct(a: Matrix, b: Matrix)
    requires a.Valid() && b.Valid() && a.columns == b.rows
    ensures Multiply(a, b).Ok?
    ensures Multiply(Matrices.Transpose(b), Matrices.Transpose(a)) == Ok(Matrices.Transpose(Multiply(a, b).value))
  {
    var ta := Matrices.Transpose(a);
    var tb := Matrices.Transpose(b);
    var lhs := Multiply(tb, ta).value;
    var rhs := Matrices.Transpose(Multiply(a, b).value);
    forall i, j | 0 <= i < b.columns && 0 <= j < a.rows
      ensures lhs.data[i][j] == rhs.data[i][j]
    {
      assert tb.data[i] == Column(b.data, i);
      assert Column(ta.data, j) == a.data[j];
      InnerCommutes(a.data[j], Column(b.data, i));
    }
    MatricesEqual(lhs, rhs);
  }

  // ---------------------------------------------------------------------
  // Scalars

  /** Multiplying by a scalar is multiplying by that multiple of the identity. */
  lemma ScalarIsScaledIdentity(m: Matrix, k: real)
    requires m.Valid()
    ensures Multiply(m, MultiplyByScalar(IdentityMatrix(m.columns), k)) == Ok(MultiplyByScalar(m, k))
  {
    var s := MultiplyByScalar(IdentityMatrix(m.columns), k);
    var p := Multiply(m, s).value;
    forall i, j | 0 <= i < m.rows && 0 <= j < m.columns
      ensures p.data[i][j] == m.data[i][j] * k
    {
      ScaledIdentityEntry(m, k, i, j);
    }
    MatricesEqual(p, MultiplyByScalar(m, k));
  }

  /** Row `i` against column `j` of `k` times the identity is `k` times entry (i, j). */
  lemma ScaledIdentityEntry(m: Matrix, k: real, i: nat, j: nat)
    requires m.Valid() && i < m.rows && j < m.columns
    ensures Inner(m.data[i], Column(MultiplyByScalar(IdentityMatrix(m.columns), k).data, j)) == m.data[i][j] * k
  {
    var s := MultiplyByScalar(IdentityMatrix(m.columns), k);
    InnerPicksEntry(m.data[i], Column(s.data, j), j, k);
  }

  /** Dividing by a non-zero scalar undoes multiplying by it. */
  lemma ScalarRoundTrip(m: Matrix, k: real)
    requires m.Valid() && k != 0.0
    ensures DivideByScalar(MultiplyByScalar(m, k), k) == Ok(m)
  {
    MatricesEqual(DivideByScalar(MultiplyByScalar(m, k), k).value, m);
  }

  // ---------------------------------------------------------------------
  // Addition and subtraction

  /** Subtracting `b` undoes adding it. */
  lemma AddSubtractRoundTrip(a: Matrix, b: Matrix)
    requires a.Valid() && b.Valid() && a.rows == b.rows && a.columns == b.columns
    ensures Add(a, b).Ok?
    ensures Subtract(Add(a, b).value, b) == Ok(a)
  {
    MatricesEqual(Subtract(Add(a, b).value, b).value, a);
  }

  /** Addition is commutative. */
  lemma AddCommutes(a: Matrix, b: Matrix)
    requires a.Valid() && b.Valid()
    ensures Add(a, b) == Add(b, a)
  {
    if Add(a, b).Ok? {
      MatricesEqual(Add(a, b).value, Add(b, a).value);
    }
  }

  /** `subtract(b)` is `add` of `b` multiplied by -1. */
  lemma SubtractIsAddNegated(a: Matrix, b: Matrix)
    requires a.Valid() && b.Valid()
    ensures Subtract(a, b) == Add(a, MultiplyByScalar(b, -1.0))
  {
    if Subtract(a, b).Ok? {
      MatricesEqual(Subtract(a, b).value, Add(a, MultiplyByScalar(b, -1.0)).value);
    }
  }

  // ---------------------------------------------------------------------
  // Minors

  /** Crossing out row r and column c commutes with transposition: it is
      crossing out row c and column r of the transpose. */
  lemma CrossOutTranspose(m: Matrix, row: nat, column: nat)
    requires m.Valid()
    ensures CrossOut(m, row, column).Ok? <==> CrossOut(Matrices.Transpose(m), column, row).Ok?
    ensures CrossOut(m, row, column).Ok? ==>
              CrossOut(Matrices.Transpose(m), column, row) == Ok(Matrices.Transpose(CrossOut(m, row, column).value))
  {
    if CrossOut(m, row, column).Ok? {
      MatricesEqual(CrossOut(Matrices.Transpose(m), column, row).value,
                    Matrices.Transpose(CrossOut(m, row, column).value));
    }
  }

  // ---------------------------------------------------------------------
  // Dot product

  /** For flat lists `dot` is the 1 x 1 product of the first as a row and
      the second as a column. */
  lemma DotIsRowTimesColumn(u: Row, v: Row)
    requires |u| >= 1 && |u| == |v|
    ensures New(Vector(u)).Ok? && FromFlatArray(v).Ok?
    ensures Multiply(New(Vector(u)).value, FromFlatArray(v).value).Ok?
    ensures Dot(Vector(u), Vector(v)) == Ok([ToScalar(Multiply(New(Vector(u)).value, FromFlatArray(v).value).value)])
  {
    var col := FromFlatArray(v).value;
    assert forall i :: 0 <= i < |v| ==> Column(col.data, 0)[i] == v[i];
    assert Column(col.data, 0) == v;
    var d := Dot(Vector(u), Vector(v)).value;
    assert |d| == 1 && d[0] == Inner(u, v);
    assert d == [Inner(u, v)];
  }

  /** For flat lists `dot` is symmetric. */
  lemma DotCommutes(u: Row, v: Row)
    requires |u| >= 1 && |v| >= 1
    ensures Dot(Vector(u), Vector(v)) == Dot(Vector(v), Vector(u))
  {
    if |u| == |v| {
      InnerCommutes(u, v);
      var d := Dot(Vector(u), Vector(v)).value;
      var e := Dot(Vector(v), Vector(u)).value;
      assert |d| == 1 && |e| == 1 && d[0] == e[0];
      assert d == e;
    }
  }
}
