/** Failure-carrying values shared by every module of the model. */
module Wrappers {

  /** Python's `None` or a present value. */
  datatype Option<+T> = None | Some(value: T)

  /** A value, or the Python exception that the operation raises instead. */
  datatype Result<+T, +E> = Ok(value: T) | Err(error: E)

  /** The Python exception classes that the modelled code can raise or catch. */
  datatype PyError = ValueError | TypeError | KeyError
}
