/** Failure-carrying return values used in place of the exceptions the Python code raises. */
module Results {

  /** An optional value. */
  datatype Option<+T> = None | Some(value: T)

  /** Either a computed value or the error `teval` would raise instead. */
  datatype Result<+T, +E> = Success(value: T) | Failure(error: E)
}
