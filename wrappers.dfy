/** Failure-compatible result types shared by the model. */
module Wrappers {

  /** A value that may be absent: PHP's `false` or `null` returns. */
  datatype Option<+T> = None | Some(value: T)

  /** The outcome of an operation that either completes or raises an error. */
  datatype Outcome<+E> = Pass | Fail(error: E)
}
