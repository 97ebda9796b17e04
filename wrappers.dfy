/** Option, outcome and result types standing for the source's null returns and exceptions. */
module Wrappers {

  /** A value that may be absent; stands for a nullable reference. */
  datatype Option<+T> = None | Some(value: T)

  /** The outcome of a call that returns nothing: it completed, or it threw `error`. */
  datatype Outcome<+E> = Pass | Fail(error: E)

  /** The outcome of a call that returns a value or throws `error`. */
  datatype Result<+R, +E> = Success(value: R) | Failure(error: E)
}
