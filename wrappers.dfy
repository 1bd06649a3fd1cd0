/** Option and Result values shared by every module of the model. */
module Wrappers {

  /** An optional value: JavaScript's `undefined`, Go's "record not found". */
  datatype Option<+T> = None | Some(value: T)

  /** The outcome of an operation that can fail, such as a network exchange. */
  datatype Result<+R, +E> = Success(value: R) | Failure(error: E)
}
