/** Failure-compatible wrappers: Python's None and raised exceptions become values. */
module Wrappers {

  /** A value that may be missing, as a Python `None` or an absent lookup. */
  datatype Option<+T> = None | Some(value: T)

  /** The outcome of an operation that may raise instead of returning. */
  datatype Result<+T, +E> = Ok(value: T) | Err(error: E)
}
