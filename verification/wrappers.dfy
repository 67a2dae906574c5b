/** Failure-carrying datatypes shared by the rest of the model. */
module Wrappers {

  /** A value that may be absent (a missing file, a parser that gave up). */
  datatype Option<+T> = None | Some(value: T)

  /** Either a computed value or the error that Python would have raised instead. */
  datatype Result<+R, +E> = Success(value: R) | Failure(error: E)
}
