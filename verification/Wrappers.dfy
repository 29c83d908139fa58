/** Result types shared by the models of the gate scripts. */
module Wrappers {
  datatype Option<+T> = None | Some(value: T)

  /** The outcome of a call that the source lets raise. */
  datatype Result<+T, +E> = Ok(value: T) | Err(error: E)
}
