/** Failure-compatible result types shared by the whole model. */
module Wrappers {

  /** A value that may be absent: JavaScript's `null`/`undefined`, Java's `Optional`. */
  datatype Option<+T> = None | Some(value: T)

  /** The outcome of an operation that can fail with a message. */
  datatype Result<+T> = Success(value: T) | Failure(error: string)
}
