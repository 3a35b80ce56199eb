/** Optional values and results with an error, as the load generator's Go code returns them
    with `(value, bool)` and `(value, error)` pairs. */
module Wrappers {

  /** A value that may be absent: a nil pointer, or `found == false`. */
  datatype Option<+T> = None | Some(value: T)

  /** A value or the error that replaced it. */
  datatype Result<+R, +E> = Success(value: R) | Failure(error: E)
}
