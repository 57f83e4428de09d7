/** The optional and throwing results of Swift, shared by every module of the model. */
module Wrappers {

  /** An optional value: Swift's `T?`. */
  datatype Option<+T> = None | Some(value: T)

  /** A value or the error a throwing call produced: Swift's `throws`. */
  datatype Result<+R, +E> = Success(value: R) | Failure(error: E)
}
