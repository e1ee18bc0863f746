/** Failure-carrying values shared by every module of the model. */
module Results {

  /** A value that may be absent: Java's `null`. */
  datatype Option<+T> = None | Some(value: T)

  /** The outcome of an operation that may throw: `Failure` stands for the exception. */
  datatype Result<+R, +E> = Success(value: R) | Failure(error: E)
}
