/** Option and Result datatypes shared by the other modules. */
module Wrappers {
  /** PHP `null` versus a present value. */
  datatype Option<+T> = None | Some(value: T)

  /** The outcome of an operation that can throw. */
  datatype Result<+R, +E> = Success(value: R) | Failure(error: E)
}
