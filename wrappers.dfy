/** Failure-compatible result types shared by the settings model. */
module Wrappers {

  /** A value that may be absent: Python's `Optional[T]` (`None` or a value). */
  datatype Option<+T> = None | Some(value: T)

  /** The outcome of a check that either passes or fails with an error value
      (a Python function that returns normally or raises). */
  datatype Outcome<+E> = Pass | Fail(error: E)
}
