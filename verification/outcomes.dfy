/** Failure-carrying wrappers shared by the cache and the plugin model. */
module Outcomes {

  /** A value that may be missing, such as a NULL pointer in the source. */
  datatype Option<+T> = None | Some(value: T)

  /** The result of an operation that may raise an error (`elog(ERROR, ...)`). */
  datatype Result<+T, +E> = Success(value: T) | Failure(error: E)
}
