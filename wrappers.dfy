/** The optional values and results shared by the model. */
module Wrappers {

  /** A JavaScript value that may be `null` or `undefined`. */
  datatype Option<+T> = None | Some(value: T)

  /** The outcome of an operation that may throw. */
  datatype Result<+T> = Success(value: T) | Failure(error: string)
}
