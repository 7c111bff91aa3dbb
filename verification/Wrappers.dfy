/** The two failure-carrying datatypes the model uses for the runtime's optional
    fields and for its error returns. */
module Wrappers {
  datatype Option<+T> = None | Some(value: T)

  datatype Result<+T, +E> = Ok(value: T) | Err(error: E)
}
