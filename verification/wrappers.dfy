/** Option and Result datatypes shared by the measurement and report modules. */
module Wrappers {

  /** A value that may be absent: a query result that did not arrive, a key
      that is not in a record, a mean over no rows. */
  datatype Option<+T> = None | Some(value: T)

  /** The outcome of a step that either produces a value or fails with an error. */
  datatype Result<+T, +E> = Success(value: T) | Failure(error: E)
}
