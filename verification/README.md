# Dense matrix value type (php-ml `Phpml\Math\Matrix`)

A Dafny model of the matrix class at the base of php-ml's numeric code: a
rectangular grid of numbers with at least one row and one column, built
from nested rows (or from a flat list, which becomes one row, or with
`fromFlatArray`, one column), queried for its shape, a column or its
top-left scalar, and combined by transpose, matrix product, scalar
multiplication and division, addition and subtraction, minor extraction
(`crossOut`), the cofactor-expansion determinant, the adjugate inverse and
the static `dot`. Every operation returns a new value.

Numbers are Dafny `real`s, so arithmetic is exact: the fixtures hold with
equality rather than within a floating-point tolerance. Failures are `Err`
results of one of two kinds, `InvalidArgument` or `MatrixError`, with a
`Fault` that says why. The kind matches the exception class the tests expect
for a ragged constructor input, a column index past the end, the determinant
or inverse of a non-square matrix, a singular inverse and a product of
mismatched shapes (MatrixTest.php lines 13, 33, 42, 89, 136 and 145); the
other refusals are choices of this model, listed under "## Left out".

Files:

- `errors.dfy` — `Errors`: fault tags, the two error kinds, `Result`.
- `grids.dfy` — `Grids`: raw nested arrays (rows, columns, transpose,
  inner product, product, minor, determinant, cofactors).
- `matrix.dfy` — `Matrices`: the `Matrix` value (cached `rows`, `columns`,
  `data`, with a `Valid` invariant) and its public operations.
- `loops.dfy` — `MatrixLoops`: index-loop implementations of the product
  and of crossing out, proved equal to the functional definitions.
- `algebra.dfy` — `MatrixAlgebra`: laws relating the operations.
- `determinant.dfy` — `Determinants`: closed forms and properties of the
  determinant.
- `sums.dfy` — `Sums`: finite sums of real terms and their rearrangements.
- `laplace.dfy` — `Laplace`: the expansion along any row equals the
  row-0 expansion that defines the determinant.
- `adjugate.dfy` — `Adjugates`: equal rows give determinant 0, a row
  against another row's cofactors sums to 0, and so `inverse` is an inverse.
- `fixtures.dfy` — `MatrixTestCases`: the library's test cases as lemmas.

The model follows what the class's test suite pins down; behaviours the
tests leave open are listed under "## Left out".

## Model

| member | source | states |
|---|---|---|
| Matrices.New | tests/Phpml/Math/MatrixTest.php:12-18 | construction succeeds exactly for non-empty rectangular rows; the matrix holds those rows with cached counts; a ragged input is an invalid-argument error; a flat list is one row |
| Matrices.FromFlatArray | tests/Phpml/Math/MatrixTest.php:20-30 | N values give an N x 1 matrix whose row i is [v[i]] |
| Matrices.GetColumnValues | tests/Phpml/Math/MatrixTest.php:32-39 | column `index` in row order, and a matrix error exactly when `index` is at or past the column count |
| Matrices.ToArray | tests/Phpml/Math/MatrixTest.php:26 | the data has `rows` rows of `columns` entries, and entry (i, j) is entry i of column j as `getColumnValues` returns it |
| Matrices.ToScalar | tests/Phpml/Math/MatrixTest.php:192-197 | the first value of column 0, the top-left entry |
| MatrixAlgebra.ToScalarOfTranspose | tests/Phpml/Math/MatrixTest.php:192-197 | transposing keeps the top-left scalar |
| Matrices.GetDeterminant | tests/Phpml/Math/MatrixTest.php:41-58 | a matrix error exactly for non-square input, otherwise the cofactor-expansion determinant |
| Matrices.Transpose | tests/Phpml/Math/MatrixTest.php:71-86 | a columns x rows matrix with entry (i, j) equal to source entry (j, i) |
| Matrices.TransposeArray | tests/Phpml/Math/MatrixTest.php:238-251 | the same mirroring on raw nested rows |
| Matrices.Multiply | tests/Phpml/Math/MatrixTest.php:88-118 | an invalid-argument error exactly when this.columns differs from other.rows; otherwise a rows x other.columns matrix of row-by-column sums |
| Matrices.DivideByScalar | tests/Phpml/Math/MatrixTest.php:120-133 | same shape, every entry divided by k; an error for k = 0 |
| Matrices.MultiplyByScalar | tests/Phpml/Math/MatrixTest.php:199-212 | same shape, every entry multiplied by k |
| Matrices.Add | tests/Phpml/Math/MatrixTest.php:214-224 | entry-wise sum of two matrices of one shape |
| Matrices.Subtract | tests/Phpml/Math/MatrixTest.php:226-236 | entry-wise difference of two matrices of one shape |
| Matrices.CrossOut | tests/Phpml/Math/MatrixTest.php:176-190 | the (rows-1) x (columns-1) matrix without the given row and column |
| Matrices.Inverse | tests/Phpml/Math/MatrixTest.php:135-174 | a matrix error for non-square input and for determinant zero; otherwise entry (i, j) is cofactor (j, i) over the determinant |
| Matrices.Dot | tests/Phpml/Math/MatrixTest.php:253-266 | entry j is the inner product of the first operand's first row with the second operand's row j; flat lists are single rows |
| MatrixLoops.MultiplyLoop | tests/Phpml/Math/MatrixTest.php:99-118 | the triple index loop accumulating row-by-column sums builds exactly the product |
| MatrixLoops.CrossOutLoop | tests/Phpml/Math/MatrixTest.php:176-190 | copying all rows but one and all entries but one builds exactly the minor |
| MatrixAlgebra.ConstructorRoundTrip | tests/Phpml/Math/MatrixTest.php:20-30 | the data read out of a matrix constructs the same matrix again |
| MatrixAlgebra.FlatArrayIsTransposedRow | tests/Phpml/Math/MatrixTest.php:214-224 | a flat list is a row for the constructor and a column for `fromFlatArray`: one is the transpose of the other |
| MatrixAlgebra.FlatArrayColumnRoundTrip | tests/Phpml/Math/MatrixTest.php:29 | column 0 of `fromFlatArray(v)` is v |
| MatrixAlgebra.TransposeInvolution | tests/Phpml/Math/MatrixTest.php:71-86 | transposing twice gives the matrix back |
| MatrixAlgebra.TransposeArrayInvolution | tests/Phpml/Math/MatrixTest.php:238-251 | the static transpose of non-empty rectangular rows is again non-empty and rectangular, and applying it twice gives the rows back |
| MatrixAlgebra.MultiplyIdentityRight | tests/Phpml/Math/MatrixTest.php:99-118 | multiplying by the identity on the right changes nothing |
| MatrixAlgebra.MultiplyIdentityLeft | tests/Phpml/Math/MatrixTest.php:99-118 | multiplying by the identity on the left changes nothing |
| MatrixAlgebra.TransposeOfProduct | tests/Phpml/Math/MatrixTest.php:88-118 | (AB) transposed is B transposed times A transposed |
| MatrixAlgebra.InnerCommutes | tests/Phpml/Math/MatrixTest.php:253-259 | the inner product is symmetric |
| MatrixAlgebra.ScalarIsScaledIdentity | tests/Phpml/Math/MatrixTest.php:199-212 | multiplying by k is the product with k times the identity |
| MatrixAlgebra.ScalarRoundTrip | tests/Phpml/Math/MatrixTest.php:120-133 | dividing by a non-zero k undoes multiplying by k |
| MatrixAlgebra.AddSubtractRoundTrip | tests/Phpml/Math/MatrixTest.php:214-236 | subtracting b undoes adding b |
| MatrixAlgebra.AddCommutes | tests/Phpml/Math/MatrixTest.php:214-224 | addition is commutative, errors included |
| MatrixAlgebra.SubtractIsAddNegated | tests/Phpml/Math/MatrixTest.php:226-236 | subtracting b is adding -1 times b, errors included |
| MatrixAlgebra.CrossOutTranspose | tests/Phpml/Math/MatrixTest.php:176-190 | crossing out (r, c) and transposing is crossing out (c, r) of the transpose |
| MatrixAlgebra.DotIsRowTimesColumn | tests/Phpml/Math/MatrixTest.php:253-259 | for flat lists, `dot` is the 1 x 1 product of a row and a column |
| MatrixAlgebra.DotCommutes | tests/Phpml/Math/MatrixTest.php:253-259 | for flat lists, `dot` is symmetric |
| Determinants.DetOfTwo | tests/Phpml/Math/MatrixTest.php:41-58 | the expansion of a 2 x 2 grid is ad - bc |
| Determinants.DetOfThree | tests/Phpml/Math/MatrixTest.php:50-58 | the expansion of a 3 x 3 grid written out along the first row |
| Determinants.DetIdentity | tests/Phpml/Math/MatrixTest.php:50-58 | the identity has determinant 1 |
| Determinants.DetZeroRow | tests/Phpml/Math/MatrixTest.php:144-156 | a grid with a zero row has determinant 0, so it is singular |
| Determinants.DetScale | tests/Phpml/Math/MatrixTest.php:50-58 | scaling every entry by k scales the determinant by k to the size |
| Laplace.RowExpansionIsDet | tests/Phpml/Math/MatrixTest.php:50-58 | expanding along any row r, entry (r, k) against cofactor (r, k), gives the same determinant as row 0 |
| Adjugates.DetEqualRows | tests/Phpml/Math/MatrixTest.php:144-156 | a grid with two equal rows has determinant 0 |
| Adjugates.AlienCofactors | tests/Phpml/Math/MatrixTest.php:158-174 | the entries of row i against the cofactors of a different row j sum to 0 |
| Adjugates.InverseIsRightInverse | tests/Phpml/Math/MatrixTest.php:158-174 | whenever `inverse` succeeds, the matrix times its inverse is the identity |
| MatrixTestCases.InvalidMatrixSupplied | tests/Phpml/Math/MatrixTest.php:12-18 | `[[1, 2], [3]]` is refused as ragged |
| MatrixTestCases.CreateMatrixFromFlatArray | tests/Phpml/Math/MatrixTest.php:20-30 | `fromFlatArray([1, 2, 3, 4])` is 4 x 1 with column 0 = [1, 2, 3, 4] |
| MatrixTestCases.InvalidColumnNumber | tests/Phpml/Math/MatrixTest.php:32-39 | column 4 of a 2 x 3 matrix is a matrix error |
| MatrixTestCases.DeterminantOfNonSquare | tests/Phpml/Math/MatrixTest.php:41-48 | a 2 x 3 matrix has no determinant |
| MatrixTestCases.MatrixDeterminant | tests/Phpml/Math/MatrixTest.php:50-58 | det [[3, 3, 3], [4, 2, 1], [5, 6, 7]] = -3 |
| MatrixTestCases.MatrixTranspose | tests/Phpml/Math/MatrixTest.php:71-86 | the transpose fixture |
| MatrixTestCases.MultiplyInconsistent | tests/Phpml/Math/MatrixTest.php:88-97 | 2 x 3 times 2 x 3 is an invalid-argument error |
| MatrixTestCases.MatrixMultiplyByMatrix | tests/Phpml/Math/MatrixTest.php:99-118 | the product fixture [[58, 64], [139, 154]] |
| MatrixTestCases.DivideByScalarCase | tests/Phpml/Math/MatrixTest.php:120-133 | the division fixture |
| MatrixTestCases.InverseOfNonSquare | tests/Phpml/Math/MatrixTest.php:135-142 | a 2 x 3 matrix has no inverse |
| MatrixTestCases.InverseOfSingular | tests/Phpml/Math/MatrixTest.php:144-156 | the 3 x 3 zero matrix is singular |
| MatrixTestCases.InverseMatrix | tests/Phpml/Math/MatrixTest.php:158-174 | the inverse fixture, exactly |
| MatrixTestCases.CrossOutCase | tests/Phpml/Math/MatrixTest.php:176-190 | crossing out (1, 1) gives [[3, 2], [1, 1]] |
| MatrixTestCases.ToScalarCase | tests/Phpml/Math/MatrixTest.php:192-197 | `toScalar` of a 2 x 3 matrix is its entry (0, 0) |
| MatrixTestCases.MultiplyByScalarCase | tests/Phpml/Math/MatrixTest.php:199-212 | the multiplication-by-(-2) fixture |
| MatrixTestCases.AddCase | tests/Phpml/Math/MatrixTest.php:214-224 | [1, 1, 1] + [2, 2, 2] has row 0 = [3, 3, 3] |
| MatrixTestCases.SubtractCase | tests/Phpml/Math/MatrixTest.php:226-236 | [1, 1, 1] - [2, 2, 2] has row 0 = [-1, -1, -1] |
| MatrixTestCases.TransposeArrayCase | tests/Phpml/Math/MatrixTest.php:238-251 | the `transposeArray` fixture |
| MatrixTestCases.DotOfVectors | tests/Phpml/Math/MatrixTest.php:253-259 | `dot([2, 2, 2], [3, 3, 3]) = [18]` |
| MatrixTestCases.DotOfMatrices | tests/Phpml/Math/MatrixTest.php:261-265 | `dot([[3, 3], [3, 3], [3, 3]], [[1, 1], [2, 2]]) = [6, 12]` |

## Left out

- The 6 x 6 determinant case (MatrixTest.php:60-68) asserts a floating-point result within 1e-4; with exact reals the model's determinant is exact, and the decimal fixture is not restated.
- Floating-point rounding, PHP's int/float coercion and `assertEquals` tolerances: numbers are exact reals.
- The exception class hierarchy and messages: an error is one of two constructors with a fault tag.
- Adjugates.InverseIsRightInverse: only the right inverse (the matrix times its inverse) is proved; that the inverse times the matrix is also the identity needs the expansion along columns, which is not proved.
- Matrices.New: empty input (no rows, or every row empty) is refused as `InvalidArgument(EmptyMatrix)`; no test covers an empty matrix.
- Matrices.FromFlatArray: an empty list is refused as `InvalidArgument(EmptyMatrix)`, the same choice as the constructor.
- Matrices.Add: operands of different shapes are refused as `InvalidArgument(DimensionMismatch)`; the tests only add matrices of one shape, and what the library does otherwise is not modelled.
- Matrices.Subtract: the same shape check as addition.
- Matrices.CrossOut: an index past the last row or column is `MatrixError(IndexOutOfRange)`, and a matrix one row or one column wide is `MatrixError(EmptyMatrix)`, since the result would have no entries; the tests only cross out inside a 3 x 3 matrix.
- Matrices.DivideByScalar: division by 0 is `InvalidArgument(DivisionByZero)`; no test says what the library raises, and exact reals have no infinity.
- Matrices.Inverse: the determinant of the 0 x 0 grid is 1, so the inverse of a 1 x 1 matrix [[a]] is [[1/a]]; no test covers a 1 x 1 inverse.
- Matrices.TransposeArray: requires non-empty rectangular rows; the library does not check its argument, and its behaviour on other input is not modelled.
- Matrices.Dot: requires non-empty rectangular operands, for the same reason; for nested operands it returns row 0 of a times the transpose of b, a rule consistent with the nested-dot test (MatrixTest.php:261-265), not a general matrix product.
- Matrices.GetColumnValues: indices are natural numbers, so a negative index cannot be expressed.
