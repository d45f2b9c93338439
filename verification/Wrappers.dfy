/** Result types shared by the models. */
module Wrappers {

  datatype Option<+T> = None | Some(value: T)

  /** An exception is modelled by its message class only; the wording of a message is not. */
  datatype Result<+T> = Ok(value: T) | Err(error: Error)

  datatype Error = ValueError | RuntimeError | KeyError | TimeoutError
}
