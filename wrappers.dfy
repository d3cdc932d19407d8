/**
 * Optional values and error outcomes: `Option` stands for Python's `None` where
 * the source returns or accepts one, `Result` and `Outcome` for an operation
 * that either completes or raises.
 */
module Wrappers {

  datatype Option<+T> = None | Some(value: T)

  datatype Result<+T, +E> = Success(value: T) | Failure(error: E)

  datatype Outcome<+E> = Pass | Fail(error: E)
}
