/** Failure-carrying result types shared by the engine and the handle. */
module Wrappers {

  /** An optional value; `None` also stands for an aborted (panicking) call. */
  datatype Option<+T> = None | Some(value: T)

  /** A result without a success value: Rust's `Result<(), E>`. */
  datatype Outcome<+E> = Pass | Fail(error: E)
}
