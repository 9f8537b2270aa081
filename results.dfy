/** Failure-carrying values: the model's stand-in for Python exceptions. */
module Results {

  datatype Option<T> = None | Some(value: T)

  /** A computation that yields a value or fails with an error. */
  datatype Result<T, E> = Success(value: T) | Failure(error: E)

  /** A computation run for its effect that succeeds or fails with an error. */
  datatype Outcome<E> = Pass | Fail(error: E)
}
