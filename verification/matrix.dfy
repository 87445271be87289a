/** The dense matrix value type and its public operations.

    A `Matrix` keeps its row and column counts next to its row-major data, as
    the library caches them at construction. Every operation returns a new
    value; failures are `Err` results of one of the two kinds in `Errors`.
 */
module Matrices {
  import opened Errors
  import opened Grids

  datatype Matrix = Matrix(rows: nat, columns: nat, data: Grid) {

    /** At least one row and one column, and the cached counts describe the data. */
    predicate Valid() {
      && rows >= 1
      && columns >= 1
      && |data| == rows
      && Rectangular(data, columns)
    }
  }

  /** Constructor input: a flat list of numbers (taken as one row) or a list of rows. */
  datatype Input = Vector(values: Row) | Nested(grid: Grid)

  /** The rows an input stands for: a flat list is a single row. */
  function RowsOf(input: Input): Grid {
    match input
    case Vector(v) => [v]
    case Nested(g) => g
  }

  /** A non-empty rectangular grid with non-empty rows. */
  predicate IsMatrixData(g: Grid) {
    |g| >= 1 && |g[0]| >= 1 && Rectangular(g, |g[0]|)
  }

  /** `new Matrix(...)`: counts the rows, takes the column count from the
      first row and refuses any row of another length. */
  function New(input: Input): (r: Result<Matrix>)
    ensures r.Ok? <==> IsMatrixData(RowsOf(input))
    ensures r.Ok? ==> r.value.Valid() && r.value.data == RowsOf(input)
    ensures r.Ok? && input.Vector? ==> r.value.rows == 1 && r.value.columns == |input.values|
    ensures r.Err? ==> r.error.InvalidArgument?
    ensures var g := RowsOf(input);
              r.Err? && |g| >= 1 && !Rectangular(g, |g[0]|) ==> r.error == InvalidArgument(RaggedRows)
  {
    var g := RowsOf(input);
    if |g| == 0 then Err(InvalidArgument(EmptyMatrix))
    else if !Rectangular(g, |g[0]|) then Err(InvalidArgument(RaggedRows))
    else if |g[0]| == 0 then Err(InvalidArgument(EmptyMatrix))
    else Ok(Matrix(|g|, |g[0]|, g))
  }

  /** `Matrix::fromFlatArray`: each value becomes a row of its own. */
  function FromFlatArray(values: Row): (r: Result<Matrix>)
    ensures r.Ok? <==> |values| >= 1
    ensures r.Err? ==> r.error == InvalidArgument(EmptyMatrix)
    ensures r.Ok? ==> r.value.Valid() && r.value.rows == |values| && r.value.columns == 1
    ensures r.Ok? ==> forall i :: 0 <= i < |values| ==> r.value.data[i] == [values[i]]
  {
    New(Nested(seq(|values|, i requires 0 <= i < |values| => [values[i]])))
  }


  /** `getColumnValues`: column `index` in row order, refused past the last column. */
  function GetColumnValues(m: Matrix, index: nat): (r: Result<Row>)
    requires m.Valid()
    ensures r.Ok? <==> index < m.columns
    ensures r.Err? ==> r.error == MatrixError(ColumnOutOfRange)
    ensures r.Ok? ==> |r.value| == m.rows
    ensures r.Ok? ==> forall i :: 0 <= i < m.rows ==> r.value[i] == m.data[i][index]
  {
    if index >= m.columns then Err(MatrixError(ColumnOutOfRange))
    else Ok(Column(m.data, index))
  }

  /** `toArray`: the row-major data; entry (i, j) is entry i of column j. */
  function ToArray(m: Matrix): (g: Grid)
    requires m.Valid()
    ensures |g| == m.rows
    ensures Rectangular(g, m.columns)
    ensures forall i, j :: 0 <= i < m.rows && 0 <= j < m.columns ==>
              GetColumnValues(m, j).Ok? && g[i][j] == GetColumnValues(m, j).value[i]
  {
    assert forall j {:trigger GetColumnValues(m, j)} :: 0 <= j < m.columns ==>
      GetColumnValues(m, j).Ok? && forall i :: 0 <= i < m.rows ==> GetColumnValues(m, j).value[i] == m.data[i][j];
    m.data
  }

  /** `toScalar`: the top-left entry, whatever the shape: the first value
      of column 0. */
  function ToScalar(m: Matrix): (x: real)
    requires m.Valid()
    ensures GetColumnValues(m, 0).Ok? && x == GetColumnValues(m, 0).value[0]
  {
    m.data[0][0]
  }

  /** `transpose`: a columns x rows matrix with the entries mirrored. */
  function Transpose(m: Matrix): (t: Matrix)
    requires m.Valid()
    ensures t.Valid()
    ensures t.rows == m.columns && t.columns == m.rows
    ensures forall i, j :: 0 <= i < t.rows && 0 <= j < t.columns ==> t.data[i][j] == m.data[j][i]
  {
    Matrix(m.columns, m.rows, Grids.Transpose(m.data, m.columns))
  }

  /** `Matrix::transposeArray`: the same on raw rows, which it does not check. */
  function TransposeArray(g: Grid): (t: Grid)
    requires IsMatrixData(g)
    ensures |t| == |g[0]|
    ensures Rectangular(t, |g|)
    ensures forall i, j :: 0 <= i < |t| && 0 <= j < |g| ==> t[i][j] == g[j][i]
  {
    Transpose(Matrix(|g|, |g[0]|, g)).data
  }

  /** `multiply`: the matrix product, refused unless this has as many
      columns as the other has rows. */
  function Multiply(a: Matrix, b: Matrix): (r: Result<Matrix>)
    requires a.Valid() && b.Valid()
    ensures r.Ok? <==> a.columns == b.rows
    ensures r.Err? ==> r.error == InvalidArgument(DimensionMismatch)
    ensures r.Ok? ==> r.value.Valid() && r.value.rows == a.rows && r.value.columns == b.columns
    ensures r.Ok? ==> forall i, j :: 0 <= i < a.rows && 0 <= j < b.columns ==>
              r.value.data[i][j] == Inner(a.data[i], Column(b.data, j))
  {
    if a.columns != b.rows then Err(InvalidArgument(DimensionMismatch))
    else Ok(Matrix(a.rows, b.columns, Product(a.data, b.data, b.columns)))
  }

  /** `multiplyByScalar`. */
  function MultiplyByScalar(m: Matrix, k: real): (r: Matrix)
    requires m.Valid()
    ensures r.Valid() && r.rows == m.rows && r.columns == m.columns
    ensures forall i, j :: 0 <= i < m.rows && 0 <= j < m.columns ==> r.data[i][j] == m.data[i][j] * k
  {
    Matrix(m.rows, m.columns, Scale(m.data, k, m.columns))
  }

  /** `divideByScalar`, refused for a zero divisor. */
  function DivideByScalar(m: Matrix, k: real): (r: Result<Matrix>)
    requires m.Valid()
    ensures r.Ok? <==> k != 0.0
    ensures r.Err? ==> r.error == InvalidArgument(DivisionByZero)
    ensures r.Ok? ==> r.value.Valid() && r.value.rows == m.rows && r.value.columns == m.columns
    ensures r.Ok? ==> forall i, j :: 0 <= i < m.rows && 0 <= j < m.columns ==>
              r.value.data[i][j] == m.data[i][j] / k
  {
    if k == 0.0 then Err(InvalidArgument(DivisionByZero))
    else Ok(Matrix(m.rows, m.columns, Divide(m.data, k, m.columns)))
  }

  /** Shared body of `add` and `subtract`: `a + sign * b`, entry by entry,
      refused unless the shapes agree. */
  function AddSigned(a: Matrix, b: Matrix, sign: real): (r: Result<Matrix>)
    requires a.Valid() && b.Valid()
    ensures r.Ok? <==> a.rows == b.rows && a.columns == b.columns
    ensures r.Err? ==> r.error == InvalidArgument(DimensionMismatch)
    ensures r.Ok? ==> r.value.Valid() && r.value.rows == a.rows && r.value.columns == a.columns
    ensures r.Ok? ==> forall i, j :: 0 <= i < a.rows && 0 <= j < a.columns ==>
              r.value.data[i][j] == a.data[i][j] + sign * b.data[i][j]
  {
    if a.rows != b.rows || a.columns != b.columns then Err(InvalidArgument(DimensionMismatch))
    else Ok(Matrix(a.rows, a.columns, Combine(a.data, b.data, sign, a.columns)))
  }

  /** `add`. */
  function Add(a: Matrix, b: Matrix): (r: Result<Matrix>)
    requires a.Valid() && b.Valid()
    ensures r.Ok? <==> a.rows == b.rows && a.columns == b.columns
    ensures r.Err? ==> r.error == InvalidArgument(DimensionMismatch)
    ensures r.Ok? ==> r.value.Valid() && r.value.rows == a.rows && r.value.columns == a.columns
    ensures r.Ok? ==> forall i, j :: 0 <= i < a.rows && 0 <= j < a.columns ==>
              r.value.data[i][j] == a.data[i][j] + b.data[i][j]
  {
    AddSigned(a, b, 1.0)
  }

  /** `subtract`. */
  function Subtract(a: Matrix, b: Matrix): (r: Result<Matrix>)
    requires a.Valid() && b.Valid()
    ensures r.Ok? <==> a.rows == b.rows && a.columns == b.columns
    ensures r.Err? ==> r.error == InvalidArgument(DimensionMismatch)
    ensures r.Ok? ==> r.value.Valid() && r.value.rows == a.rows && r.value.columns == a.columns
    ensures r.Ok? ==> forall i, j :: 0 <= i < a.rows && 0 <= j < a.columns ==>
              r.value.data[i][j] == a.data[i][j] - b.data[i][j]
  {
    AddSigned(a, b, -1.0)
  }

  /** `crossOut`: the matrix without row `row` and column `column`. Refused
      for an index outside the matrix and for a single row or column, whose
      minor would be empty. */
  function CrossOut(m: Matrix, row: nat, column: nat): (r: Result<Matrix>)
    requires m.Valid()
    ensures r.Ok? <==> row < m.rows && column < m.columns && m.rows >= 2 && m.columns >= 2
    ensures r.Err? && (row >= m.rows || column >= m.columns) ==> r.error == MatrixError(IndexOutOfRange)
    ensures r.Err? && row < m.rows && column < m.columns ==> r.error == MatrixError(EmptyMatrix)
    ensures r.Ok? ==> r.value.Valid() && r.value.rows == m.rows - 1 && r.value.columns == m.columns - 1
    ensures r.Ok? ==> forall i, j :: 0 <= i < m.rows - 1 && 0 <= j < m.columns - 1 ==>
              r.value.data[i][j] == m.data[if i < row then i else i + 1][if j < column then j else j + 1]
  {
    if row >= m.rows || column >= m.columns then Err(MatrixError(IndexOutOfRange))
    else if m.rows == 1 || m.columns == 1 then Err(MatrixError(EmptyMatrix))
    else Ok(Matrix(m.rows - 1, m.columns - 1, Minor(m.data, m.columns, row, column)))
  }

  /** `getDeterminant`, refused for a non-square matrix. */
  function GetDeterminant(m: Matrix): (r: Result<real>)
    requires m.Valid()
    ensures r.Ok? <==> m.rows == m.columns
    ensures r.Err? ==> r.error == MatrixError(NotSquare)
    ensures r.Ok? ==> Square(m.data) && r.value == Det(m.data)
  {
    if m.rows != m.columns then Err(MatrixError(NotSquare))
    else Ok(Det(m.data))
  }

  /** The cofactor matrix of a square matrix. */
  function CofactorMatrix(m: Matrix): (c: Matrix)
    requires m.Valid() && m.rows == m.columns
    ensures c.Valid() && c.rows == m.rows && c.columns == m.columns
  {
    Matrix(m.rows, m.columns, CofactorGrid(m.data))
  }

  /** `inverse`: the transposed cofactor matrix (the adjugate) divided by the
      determinant. Refused for a non-square matrix and for a zero determinant. */
  function Inverse(m: Matrix): (r: Result<Matrix>)
    requires m.Valid()
    ensures r.Ok? <==> m.rows == m.columns && Det(m.data) != 0.0
    ensures r.Err? && m.rows != m.columns ==> r.error == MatrixError(NotSquare)
    ensures r.Err? && m.rows == m.columns ==> r.error == MatrixError(Singular)
    ensures r.Ok? ==> r.value.Valid() && r.value.rows == m.rows && r.value.columns == m.columns
    ensures r.Ok? ==> forall i, j :: 0 <= i < m.rows && 0 <= j < m.rows ==>
              r.value.data[i][j] == Cofactor(m.data, j, i) / Det(m.data)
  {
    if m.rows != m.columns then Err(MatrixError(NotSquare))
    else
      var d := Det(m.data);
      if d == 0.0 then Err(MatrixError(Singular))
      else DivideByScalar(Transpose(CofactorMatrix(m)), d)
  }

  /** `Matrix::dot`: both operands taken as matrices, the first multiplied
      by the transpose of the second, and the first row of that product
      returned. For two flat lists this is their inner product as a
      one-element list. */
  function Dot(a: Input, b: Input): (r: Result<Row>)
    requires IsMatrixData(RowsOf(a)) && IsMatrixData(RowsOf(b))
    ensures r.Ok? <==> |RowsOf(a)[0]| == |RowsOf(b)[0]|
    ensures r.Err? ==> r.error == InvalidArgument(DimensionMismatch)
    ensures r.Ok? ==> |r.value| == |RowsOf(b)|
    ensures r.Ok? ==> forall j :: 0 <= j < |RowsOf(b)| ==> r.value[j] == Inner(RowsOf(a)[0], RowsOf(b)[j])
  {
    var ma := New(a).value;
    var mb := New(b).value;
    var p :- Multiply(ma, Transpose(mb));
    assert forall j :: 0 <= j < mb.rows ==> Column(Transpose(mb).data, j) == mb.data[j];
    Ok(p.data[0])
  }
}
