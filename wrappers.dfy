/** Absent values and error returns, as the storage layer and the parsers produce them. */
module Wrappers {

  /** `null` / `undefined` versus a present value. */
  datatype Option<+T> = None | Some(value: T)

  /** A value, or the error a call would have thrown. */
  datatype Result<+T, +E> = Success(value: T) | Failure(error: E)
}
