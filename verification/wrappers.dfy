/** Option and Result datatypes used throughout the model. */
module Wrappers {

  /** A value that may be absent: Redis's nil reply, Ruby's nil. */
  datatype Option<+T> = None | Some(value: T)

  /** Either a value or the error that stopped the computation. */
  datatype Result<+R, +E> = Success(value: R) | Failure(error: E)
}
