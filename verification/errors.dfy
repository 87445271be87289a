/** Failures of the matrix component.

    Failures are of two kinds, after the library's two exception classes: an
    invalid-argument exception (bad input data, incompatible operands) and a
    matrix exception (an operation that is undefined for this matrix). Each
    failure carries a `Fault` saying which check refused the call. The kind
    is the library's class for a ragged constructor input, a column index
    past the end, the determinant or inverse of a non-square matrix, a
    singular inverse and a product of mismatched shapes; for the other
    faults the kind is this model's choice.
 */
module Errors {

  datatype Fault =
    | RaggedRows          // a row whose length differs from the first row's
    | EmptyMatrix         // no rows, no columns, or a result that would have none
    | DimensionMismatch   // operand shapes that do not fit the operation
    | ColumnOutOfRange    // a column index at or past the column count
    | IndexOutOfRange     // a row or column index outside the matrix
    | NotSquare           // determinant or inverse of a non-square matrix
    | Singular            // inverse of a matrix whose determinant is zero
    | DivisionByZero      // division of every entry by zero

  datatype Error =
    | InvalidArgument(fault: Fault)
    | MatrixError(fault: Fault)

  datatype Result<+T> = Ok(value: T) | Err(error: Error) {

    predicate IsFailure() {
      Err?
    }

    function PropagateFailure<U>(): Result<U>
      requires Err?
    {
      Err(error)
    }

    function Extract(): T
      requires Ok?
    {
      value
    }
  }
}
