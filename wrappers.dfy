/** Optional values and outcomes shared by the other modules. */
module Wrappers {

  /** A value that may be absent: JavaScript's `null`/`undefined` beside a value. */
  datatype Option<+T> = None | Some(value: T)

  /** The outcome of an operation that may throw. */
  datatype Result<+T, +E> = Success(value: T) | Failure(error: E)
}
