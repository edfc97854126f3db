/** Optional values, results and outcomes shared by the rest of the model. */
module Wrappers {

  /** A value that may be absent: Java's nullable references. */
  datatype Option<+T> = None | Some(value: T)

  /** A computed value, or the exception that ended the computation. */
  datatype Result<+R, +E> = Success(value: R) | Failure(error: E)

  /** A computation with no result that either completes or ends in an exception. */
  datatype Outcome<+E> = Pass | Fail(error: E)
}
