/** Option and Result wrappers shared by the model. A missing observation
    (numpy's NaN) is `None`; an operation that can fail returns a Result. */
module Basics {

  datatype Option<T> = None | Some(value: T)

  datatype Result<T, E> = Ok(value: T) | Err(error: E)
}
