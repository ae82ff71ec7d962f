/** Option and Result, the two failure-carrying shapes the model needs. */
module Wrappers {

  /** A value that may be absent. */
  datatype Option<+T> = None | Some(value: T)

  /** The outcome of an async operation that either resolves with a value or
      rejects with an error whose message is a string. */
  datatype Result<+T> = Success(value: T) | Failure(message: string)
}
