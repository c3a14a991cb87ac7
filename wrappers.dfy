/** Optional values and error-carrying results used across the model. */
module Wrappers {

  /** A value that may be absent: a C# null reference or an empty `Nullable<T>`. */
  datatype Option<+T> = None | Some(value: T)

  /** The result of an operation that may throw instead of returning. */
  datatype Result<+R, +E> = Success(value: R) | Failure(error: E)

  /** The result of an operation that returns nothing but may throw. */
  datatype Outcome<+E> = Pass | Fail(error: E)
}
