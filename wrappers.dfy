/** Option and Result values shared by the other modules. */
module Wrappers {

  /** Python's `Optional[T]`: `None` or a present value. */
  datatype Option<+T> = None | Some(value: T)

  /** The value of an operation that either returns normally or raises. */
  datatype Result<+T, +E> = Ok(value: T) | Err(error: E)
}
