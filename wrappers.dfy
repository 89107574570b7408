/** Failure-carrying wrappers used throughout the model: an optional value, a value
    or an error, and a bare success-or-error outcome (an awaited promise that either
    resolves with nothing or rejects). */
module Wrappers {

  datatype Option<+T> = None | Some(value: T)

  datatype Result<+T, +E> = Success(value: T) | Failure(error: E)

  datatype Outcome<+E> = Pass | Fail(error: E)
}
