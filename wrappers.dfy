/** Option and Result values shared by the modules of this model. */
module Wrappers {

  datatype Option<+T> = None | Some(value: T)

  /** `Err` carries an exception that the modelled Python code lets escape. */
  datatype Result<+T, +E> = Ok(value: T) | Err(error: E)
}
