/** Failure-carrying values shared by the model. */
module Results {

  /** A value that may be absent (Python's `None`, or a lookup that failed). */
  datatype Option<+T> = None | Some(value: T)

  /** The outcome of an operation that raises on bad input in the program. */
  datatype Result<+R, +E> = Success(value: R) | Failure(error: E)
}
