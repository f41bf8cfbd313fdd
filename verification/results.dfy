/** Failure values of the matrix library.  Each `Error` stands for one
    way the library fails and names the exception it throws (several share
    an exception type); a `Result` is either the value an operation returns
    or the exception it raises instead. */
module Results {

  datatype Error =
    | DimensionTooSmall       // ArgumentOutOfRangeException: a row or column count below 1
    | IndexOutOfRange         // ArgumentOutOfRangeException: the read indexer's own bounds check
    | StorageIndexOutOfRange  // IndexOutOfRangeException: the runtime's bounds check on an array access
    | OffDiagonalWrite        // ArgumentOutOfRangeException: a write off the diagonal of a diagonal matrix
    | NullSource              // ArgumentNullException: a constructor's own check rejects a null source array
    | NullDereference         // NullReferenceException: a null source array is used before any check
    | NegativeSize            // OverflowException: allocating an array with a negative length
    | DimensionMismatch       // ArgumentException: the operands' shapes do not fit the operation
    | NotSquare               // ArgumentException: a square source was required
    | NotSymmetric            // ArgumentException: a symmetric source was required
    | MissingOperator         // NullReferenceException: calling an arithmetic delegate that was never compiled

  /** A reference that may be null. */
  datatype Option<+T> = None | Some(value: T)

  datatype Result<+T> = Ok(value: T) | Err(error: Error) {

    predicate IsFailure() {
      Err?
    }

    function PropagateFailure<U>(): Result<U>
      requires Err?
    {
      Err(error)
    }

    function Extract(): T
      requires Ok?
    {
      value
    }
  }
}
