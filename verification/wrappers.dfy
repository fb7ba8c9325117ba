/** The optional-value and result types shared by every module of the booking engine. */
module Wrappers {

  /** A value that may be absent: an omitted request field, or a JavaScript NaN. */
  datatype Option<+T> = None | Some(value: T)

  /** The outcome of an operation: the new value, or the error the route answers with. */
  datatype Result<+R, +E> = Success(value: R) | Failure(error: E)
}
