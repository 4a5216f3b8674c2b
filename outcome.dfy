/** Optional values and success/failure results, used wherever the Python code
    returns None, raises an exception, or looks a key up with a default. */
module Outcome {

  datatype Option<T> = None | Some(value: T)

  /** A computation that either produces a value or stops with an error
      (the Python code raises an exception in that case). */
  datatype Result<T, E> = Success(value: T) | Failure(error: E)
}
