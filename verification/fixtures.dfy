/** The library's test cases for the matrix class, one lemma each, stated
    over the model with exact rational arithmetic.
 */
module MatrixTestCases {
  import opened Errors
  import opened Grids
  import opened Matrices
  import opened MatrixAlgebra
  import opened Determinants

  /** `[[1, 2], [3]]` has rows of unequal length and is refused. */
  lemma InvalidMatrixSupplied()
    ensures New(Nested([[1.0, 2.0], [3.0]])) == Err(InvalidArgument(RaggedRows))
  {
    var g := [[1.0, 2.0], [3.0]];
    assert |g[1]| != |g[0]|;
  }

  /** `fromFlatArray([1, 2, 3, 4])` is the 4 x 1 column of those values. */
  lemma CreateMatrixFromFlatArray()
    ensures FromFlatArray([1.0, 2.0, 3.0, 4.0]).Ok?
    ensures var m := FromFlatArray([1.0, 2.0, 3.0, 4.0]).value;
      && ToArray(m) == [[1.0], [2.0], [3.0], [4.0]]
      && m.rows == 4
      && m.columns == 1
      && GetColumnValues(m, 0) == Ok([1.0, 2.0, 3.0, 4.0])
  {
    var m := FromFlatArray([1.0, 2.0, 3.0, 4.0]).value;
    FlatArrayColumnRoundTrip([1.0, 2.0, 3.0, 4.0]);
  }

  /** Column 4 of a 2 x 3 matrix does not exist. */
  lemma InvalidColumnNumber()
    ensures New(Nested([[1.0, 2.0, 3.0], [4.0, 5.0, 6.0]])).Ok?
    ensures GetColumnValues(New(Nested([[1.0, 2.0, 3.0], [4.0, 5.0, 6.0]])).value, 4) == Err(MatrixError(ColumnOutOfRange))
  {
  }

  /** A 2 x 3 matrix has no determinant. */
  lemma DeterminantOfNonSquare()
    ensures New(Nested([[1.0, 2.0, 3.0], [4.0, 5.0, 6.0]])).Ok?
    ensures GetDeterminant(New(Nested([[1.0, 2.0, 3.0], [4.0, 5.0, 6.0]])).value) == Err(MatrixError(NotSquare))
  {
  }

  /** det [[3, 3, 3], [4, 2, 1], [5, 6, 7]] = -3. */
  lemma MatrixDeterminant()
    ensures New(Nested([[3.0, 3.0, 3.0], [4.0, 2.0, 1.0], [5.0, 6.0, 7.0]])).Ok?
    ensures GetDeterminant(New(Nested([[3.0, 3.0, 3.0], [4.0, 2.0, 1.0], [5.0, 6.0, 7.0]])).value) == Ok(-3.0)
  {
    DetOfThree([[3.0, 3.0, 3.0], [4.0, 2.0, 1.0], [5.0, 6.0, 7.0]]);
  }

  /** The transpose of [[3, 3, 3], [4, 2, 1], [5, 6, 7]]. */
  lemma MatrixTranspose()
    ensures New(Nested([[3.0, 3.0, 3.0], [4.0, 2.0, 1.0], [5.0, 6.0, 7.0]])).Ok?
    ensures ToArray(Matrices.Transpose(New(Nested([[3.0, 3.0, 3.0], [4.0, 2.0, 1.0], [5.0, 6.0, 7.0]])).value))
            == [[3.0, 4.0, 5.0], [3.0, 2.0, 6.0], [3.0, 1.0, 7.0]]
  {
    var t := ToArray(Matrices.Transpose(New(Nested([[3.0, 3.0, 3.0], [4.0, 2.0, 1.0], [5.0, 6.0, 7.0]])).value));
    GridsEqual(t, [[3.0, 4.0, 5.0], [3.0, 2.0, 6.0], [3.0, 1.0, 7.0]], 3);
  }

  /** A 2 x 3 matrix cannot multiply another 2 x 3 matrix. */
  lemma MultiplyInconsistent()
    ensures New(Nested([[1.0, 2.0, 3.0], [4.0, 5.0, 6.0]])).Ok?
    ensures New(Nested([[3.0, 2.0, 1.0], [6.0, 5.0, 4.0]])).Ok?
    ensures Multiply(New(Nested([[1.0, 2.0, 3.0], [4.0, 5.0, 6.0]])).value,
                     New(Nested([[3.0, 2.0, 1.0], [6.0, 5.0, 4.0]])).value)
            == Err(InvalidArgument(DimensionMismatch))
  {
  }

  /** Inner products of rows of length two and three, written out. */
  lemma InnerOfTwo(a: Row, b: Row)
    requires |a| == |b| == 2
    ensures Inner(a, b) == a[0] * b[0] + a[1] * b[1]
  {
    assert Inner(a[..1], b[..1]) == a[0] * b[0] by {
      assert a[..1][..0] == [] && b[..1][..0] == [];
    }
    assert a[..2] == a && b[..2] == b;
  }

  lemma InnerOfThree(a: Row, b: Row)
    requires |a| == |b| == 3
    ensures Inner(a, b) == a[0] * b[0] + a[1] * b[1] + a[2] * b[2]
  {
    InnerOfTwo(a[..2], b[..2]);
  }

  /** [[1, 2, 3], [4, 5, 6]] times [[7, 8], [9, 10], [11, 12]] is [[58, 64], [139, 154]]. */
  lemma MatrixMultiplyByMatrix()
    ensures New(Nested([[1.0, 2.0, 3.0], [4.0, 5.0, 6.0]])).Ok?
    ensures New(Nested([[7.0, 8.0], [9.0, 10.0], [11.0, 12.0]])).Ok?
    ensures Multiply(New(Nested([[1.0, 2.0, 3.0], [4.0, 5.0, 6.0]])).value,
                     New(Nested([[7.0, 8.0], [9.0, 10.0], [11.0, 12.0]])).value).Ok?
    ensures ToArray(Multiply(New(Nested([[1.0, 2.0, 3.0], [4.0, 5.0, 6.0]])).value,
                             New(Nested([[7.0, 8.0], [9.0, 10.0], [11.0, 12.0]])).value).value)
            == [[58.0, 64.0], [139.0, 154.0]]
  {
    var a := [[1.0, 2.0, 3.0], [4.0, 5.0, 6.0]];
    var b := [[7.0, 8.0], [9.0, 10.0], [11.0, 12.0]];
    var p := Multiply(New(Nested(a)).value, New(Nested(b)).value).value;
    forall i, j | 0 <= i < 2 && 0 <= j < 2
      ensures p.data[i][j] == a[i][0] * b[0][j] + a[i][1] * b[1][j] + a[i][2] * b[2][j]
    {
      InnerOfThree(a[i], Column(b, j));
    }
    GridsEqual(p.data, [[58.0, 64.0], [139.0, 154.0]], 2);
  }

  /** [[4, 6, 8], [2, 10, 20]] divided by 2. */
  lemma DivideByScalarCase()
    ensures New(Nested([[4.0, 6.0, 8.0], [2.0, 10.0, 20.0]])).Ok?
    ensures DivideByScalar(New(Nested([[4.0, 6.0, 8.0], [2.0, 10.0, 20.0]])).value, 2.0).Ok?
    ensures ToArray(DivideByScalar(New(Nested([[4.0, 6.0, 8.0], [2.0, 10.0, 20.0]])).value, 2.0).value)
            == [[2.0, 3.0, 4.0], [1.0, 5.0, 10.0]]
  {
    var q := DivideByScalar(New(Nested([[4.0, 6.0, 8.0], [2.0, 10.0, 20.0]])).value, 2.0).value;
    GridsEqual(q.data, [[2.0, 3.0, 4.0], [1.0, 5.0, 10.0]], 3);
  }

  /** A 2 x 3 matrix has no inverse. */
  lemma InverseOfNonSquare()
    ensures New(Nested([[1.0, 2.0, 3.0], [4.0, 5.0, 6.0]])).Ok?
    ensures Inverse(New(Nested([[1.0, 2.0, 3.0], [4.0, 5.0, 6.0]])).value) == Err(MatrixError(NotSquare))
  {
  }

  /** The 3 x 3 zero matrix is singular. */
  lemma InverseOfSingular()
    ensures New(Nested([[0.0, 0.0, 0.0], [0.0, 0.0, 0.0], [0.0, 0.0, 0.0]])).Ok?
    ensures Inverse(New(Nested([[0.0, 0.0, 0.0], [0.0, 0.0, 0.0], [0.0, 0.0, 0.0]])).value) == Err(MatrixError(Singular))
  {
    DetZeroRow([[0.0, 0.0, 0.0], [0.0, 0.0, 0.0], [0.0, 0.0, 0.0]], 0);
  }

  /** The cofactors of [[3, 4, 2], [4, 5, 5], [1, 1, 1]], one row at a time. */
  lemma FixtureCofactorsRow0()
    ensures Square([[3.0, 4.0, 2.0], [4.0, 5.0, 5.0], [1.0, 1.0, 1.0]])
    ensures Cofactor([[3.0, 4.0, 2.0], [4.0, 5.0, 5.0], [1.0, 1.0, 1.0]], 0, 0) == 0.0
    ensures Cofactor([[3.0, 4.0, 2.0], [4.0, 5.0, 5.0], [1.0, 1.0, 1.0]], 0, 1) == 1.0
    ensures Cofactor([[3.0, 4.0, 2.0], [4.0, 5.0, 5.0], [1.0, 1.0, 1.0]], 0, 2) == -1.0
  {
    var g := [[3.0, 4.0, 2.0], [4.0, 5.0, 5.0], [1.0, 1.0, 1.0]];
    GridsEqual(Minor(g, 3, 0, 0), [[5.0, 5.0], [1.0, 1.0]], 2);
    DetOfTwo([[5.0, 5.0], [1.0, 1.0]]);
    GridsEqual(Minor(g, 3, 0, 1), [[4.0, 5.0], [1.0, 1.0]], 2);
    DetOfTwo([[4.0, 5.0], [1.0, 1.0]]);
    GridsEqual(Minor(g, 3, 0, 2), [[4.0, 5.0], [1.0, 1.0]], 2);
    DetOfTwo([[4.0, 5.0], [1.0, 1.0]]);
  }

  lemma FixtureCofactorsRow1()
    ensures Square([[3.0, 4.0, 2.0], [4.0, 5.0, 5.0], [1.0, 1.0, 1.0]])
    ensures Cofactor([[3.0, 4.0, 2.0], [4.0, 5.0, 5.0], [1.0, 1.0, 1.0]], 1, 0) == -2.0
    ensures Cofactor([[3.0, 4.0, 2.0], [4.0, 5.0, 5.0], [1.0, 1.0, 1.0]], 1, 1) == 1.0
    ensures Cofactor([[3.0, 4.0, 2.0], [4.0, 5.0, 5.0], [1.0, 1.0, 1.0]], 1, 2) == 1.0
  {
    var g := [[3.0, 4.0, 2.0], [4.0, 5.0, 5.0], [1.0, 1.0, 1.0]];
    GridsEqual(Minor(g, 3, 1, 0), [[4.0, 2.0], [1.0, 1.0]], 2);
    DetOfTwo([[4.0, 2.0], [1.0, 1.0]]);
    GridsEqual(Minor(g, 3, 1, 1), [[3.0, 2.0], [1.0, 1.0]], 2);
    DetOfTwo([[3.0, 2.0], [1.0, 1.0]]);
    GridsEqual(Minor(g, 3, 1, 2), [[3.0, 4.0], [1.0, 1.0]], 2);
    DetOfTwo([[3.0, 4.0], [1.0, 1.0]]);
  }

  lemma FixtureCofactorsRow2()
    ensures Square([[3.0, 4.0, 2.0], [4.0, 5.0, 5.0], [1.0, 1.0, 1.0]])
    ensures Cofactor([[3.0, 4.0, 2.0], [4.0, 5.0, 5.0], [1.0, 1.0, 1.0]], 2, 0) == 10.0
    ensures Cofactor([[3.0, 4.0, 2.0], [4.0, 5.0, 5.0], [1.0, 1.0, 1.0]], 2, 1) == -7.0
    ensures Cofactor([[3.0, 4.0, 2.0], [4.0, 5.0, 5.0], [1.0, 1.0, 1.0]], 2, 2) == -1.0
  {
    var g := [[3.0, 4.0, 2.0], [4.0, 5.0, 5.0], [1.0, 1.0, 1.0]];
    GridsEqual(Minor(g, 3, 2, 0), [[4.0, 2.0], [5.0, 5.0]], 2);
    DetOfTwo([[4.0, 2.0], [5.0, 5.0]]);
    GridsEqual(Minor(g, 3, 2, 1), [[3.0, 2.0], [4.0, 5.0]], 2);
    DetOfTwo([[3.0, 2.0], [4.0, 5.0]]);
    GridsEqual(Minor(g, 3, 2, 2), [[3.0, 4.0], [4.0, 5.0]], 2);
    DetOfTwo([[3.0, 4.0], [4.0, 5.0]]);
  }

  /** The inverse of [[3, 4, 2], [4, 5, 5], [1, 1, 1]] is
      [[0, -1, 5], [1/2, 1/2, -7/2], [-1/2, 1/2, -1/2]], exactly. */
  lemma InverseMatrix()
    ensures New(Nested([[3.0, 4.0, 2.0], [4.0, 5.0, 5.0], [1.0, 1.0, 1.0]])).Ok?
    ensures Inverse(New(Nested([[3.0, 4.0, 2.0], [4.0, 5.0, 5.0], [1.0, 1.0, 1.0]])).value).Ok?
    ensures ToArray(Inverse(New(Nested([[3.0, 4.0, 2.0], [4.0, 5.0, 5.0], [1.0, 1.0, 1.0]])).value).value)
            == [[0.0, -1.0, 5.0], [0.5, 0.5, -3.5], [-0.5, 0.5, -0.5]]
  {
    var g := [[3.0, 4.0, 2.0], [4.0, 5.0, 5.0], [1.0, 1.0, 1.0]];
    DetOfThree(g);
    FixtureCofactorsRow0();
    FixtureCofactorsRow1();
    FixtureCofactorsRow2();
    var inv := Inverse(New(Nested(g)).value).value;
    GridsEqual(inv.data, [[0.0, -1.0, 5.0], [0.5, 0.5, -3.5], [-0.5, 0.5, -0.5]], 3);
  }

  /** [[3, 2], [1, 1]] is what remains of [[3, 4, 2], [4, 5, 5], [1, 1, 1]]
      without row 1 and column 1. */
  lemma CrossOutCase()
    ensures New(Nested([[3.0, 4.0, 2.0], [4.0, 5.0, 5.0], [1.0, 1.0, 1.0]])).Ok?
    ensures CrossOut(New(Nested([[3.0, 4.0, 2.0], [4.0, 5.0, 5.0], [1.0, 1.0, 1.0]])).value, 1, 1).Ok?
    ensures ToArray(CrossOut(New(Nested([[3.0, 4.0, 2.0], [4.0, 5.0, 5.0], [1.0, 1.0, 1.0]])).value, 1, 1).value)
            == [[3.0, 2.0], [1.0, 1.0]]
  {
    var c := CrossOut(New(Nested([[3.0, 4.0, 2.0], [4.0, 5.0, 5.0], [1.0, 1.0, 1.0]])).value, 1, 1).value;
    GridsEqual(c.data, [[3.0, 2.0], [1.0, 1.0]], 2);
  }

  /** `toScalar` of a 2 x 3 matrix is its top-left entry. */
  lemma ToScalarCase()
    ensures New(Nested([[1.0, 2.0, 3.0], [3.0, 2.0, 3.0]])).Ok?
    ensures ToScalar(New(Nested([[1.0, 2.0, 3.0], [3.0, 2.0, 3.0]])).value) == 1.0
  {
  }

  /** [[4, 6, 8], [2, 10, 20]] multiplied by -2. */
  lemma MultiplyByScalarCase()
    ensures New(Nested([[4.0, 6.0, 8.0], [2.0, 10.0, 20.0]])).Ok?
    ensures ToArray(MultiplyByScalar(New(Nested([[4.0, 6.0, 8.0], [2.0, 10.0, 20.0]])).value, -2.0))
            == [[-8.0, -12.0, -16.0], [-4.0, -20.0, -40.0]]
  {
    var p := MultiplyByScalar(New(Nested([[4.0, 6.0, 8.0], [2.0, 10.0, 20.0]])).value, -2.0);
    GridsEqual(p.data, [[-8.0, -12.0, -16.0], [-4.0, -20.0, -40.0]], 3);
  }

  /** Flat lists are single rows: [1, 1, 1] + [2, 2, 2] has row 0 = [3, 3, 3]. */
  lemma AddCase()
    ensures New(Vector([1.0, 1.0, 1.0])).Ok? && New(Vector([2.0, 2.0, 2.0])).Ok?
    ensures Add(New(Vector([1.0, 1.0, 1.0])).value, New(Vector([2.0, 2.0, 2.0])).value).Ok?
    ensures ToArray(Add(New(Vector([1.0, 1.0, 1.0])).value, New(Vector([2.0, 2.0, 2.0])).value).value)[0]
            == [3.0, 3.0, 3.0]
  {
    var s := Add(New(Vector([1.0, 1.0, 1.0])).value, New(Vector([2.0, 2.0, 2.0])).value).value;
    assert s.data[0] == [3.0, 3.0, 3.0];
  }

  /** [1, 1, 1] - [2, 2, 2] has row 0 = [-1, -1, -1]. */
  lemma SubtractCase()
    ensures New(Vector([1.0, 1.0, 1.0])).Ok? && New(Vector([2.0, 2.0, 2.0])).Ok?
    ensures Subtract(New(Vector([1.0, 1.0, 1.0])).value, New(Vector([2.0, 2.0, 2.0])).value).Ok?
    ensures ToArray(Subtract(New(Vector([1.0, 1.0, 1.0])).value, New(Vector([2.0, 2.0, 2.0])).value).value)[0]
            == [-1.0, -1.0, -1.0]
  {
    var d := Subtract(New(Vector([1.0, 1.0, 1.0])).value, New(Vector([2.0, 2.0, 2.0])).value).value;
    assert d.data[0] == [-1.0, -1.0, -1.0];
  }

  /** `transposeArray([[1, 1, 1], [2, 2, 2]])`. */
  lemma TransposeArrayCase()
    ensures TransposeArray([[1.0, 1.0, 1.0], [2.0, 2.0, 2.0]]) == [[1.0, 2.0], [1.0, 2.0], [1.0, 2.0]]
  {
    GridsEqual(TransposeArray([[1.0, 1.0, 1.0], [2.0, 2.0, 2.0]]), [[1.0, 2.0], [1.0, 2.0], [1.0, 2.0]], 2);
  }

  /** `dot([2, 2, 2], [3, 3, 3]) = [18]`. */
  lemma DotOfVectors()
    ensures Dot(Vector([2.0, 2.0, 2.0]), Vector([3.0, 3.0, 3.0])) == Ok([18.0])
  {
    InnerOfThree([2.0, 2.0, 2.0], [3.0, 3.0, 3.0]);
    var d := Dot(Vector([2.0, 2.0, 2.0]), Vector([3.0, 3.0, 3.0])).value;
    assert d == [18.0];
  }

  /** `dot([[3, 3], [3, 3], [3, 3]], [[1, 1], [2, 2]]) = [6, 12]`. */
  lemma DotOfMatrices()
    ensures Dot(Nested([[3.0, 3.0], [3.0, 3.0], [3.0, 3.0]]), Nested([[1.0, 1.0], [2.0, 2.0]])) == Ok([6.0, 12.0])
  {
    InnerOfTwo([3.0, 3.0], [1.0, 1.0]);
    InnerOfTwo([3.0, 3.0], [2.0, 2.0]);
    var d := Dot(Nested([[3.0, 3.0], [3.0, 3.0], [3.0, 3.0]]), Nested([[1.0, 1.0], [2.0, 2.0]])).value;
    assert d == [6.0, 12.0];
  }
}
