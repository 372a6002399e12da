/** Option and Result values used for the handler's nullable fields and its error paths. */
module Wrappers {

  datatype Option<+T> = None | Some(value: T)

  /** Success carries the value; Failure carries what the source throws or reports. */
  datatype Result<+R, +E> = Success(value: R) | Failure(error: E)
}
