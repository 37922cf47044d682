/** Option and Result: Python's `None` and the assertion failures of the source, as values. */
module Wrappers {

  /** A value that may be Python's `None`. */
  datatype Option<+T> = None | Some(value: T)

  /** The outcome of an operation whose guard (a Python `assert`) may fail. */
  datatype Result<+T, +E> = Ok(value: T) | Err(error: E)
}
