/** Option and Result values for the operations that can fail. In the Java
    source a failure is an exception (or a null return); here it is a value. */
module Outcomes {

  datatype Option<+T> = None | Some(value: T)

  datatype Result<+T, +E> = Ok(value: T) | Err(error: E)
}
