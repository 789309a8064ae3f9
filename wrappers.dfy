/** Optional values (the source's nullable references) and success-or-exception results. */
module Wrappers {

  /** A value that may be absent: C#'s `null` for a reference or a nullable value. */
  datatype Option<+T> = None | Some(value: T)

  /** The outcome of an operation that either returns a value or throws. */
  datatype Result<+R, +E> = Success(value: R) | Failure(error: E)
}
