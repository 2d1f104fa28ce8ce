/** Option and Result values: the model's stand-ins for Python's `None`
    and for an operation that either returns a value or raises. */
module Wrappers {

  datatype Option<+T> = None | Some(value: T)

  datatype Result<+T, +E> = Ok(value: T) | Err(error: E)
}
