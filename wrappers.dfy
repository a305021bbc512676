/** Plain wrapper datatypes for Python's `None` and for raised exceptions (no `:-` support). */
module Wrappers {

  /** A value that may be missing: Python's `None` or a present value. */
  datatype Option<+T> = None | Some(value: T)

  /** The outcome of an operation that either returns or raises. */
  datatype Result<+R, +E> = Success(value: R) | Failure(error: E)
}
