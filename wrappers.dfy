/** Option and result types shared by the model. */
module Wrappers {

  /** A value that may be absent: TypeScript's `T | undefined`. */
  datatype Option<+T> = None | Some(value: T)

  /** The value of an operation, or the message of the error it raised. */
  datatype Result<+T, +E> = Success(value: T) | Failure(error: E)

  /** The completion of an awaited call that yields no value: it resolved, or it threw. */
  datatype Outcome<+E> = Pass | Fail(error: E)
}
