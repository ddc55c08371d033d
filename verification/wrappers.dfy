/** The optional value and the startup outcome shared by the other modules. */
module Wrappers {

  /** A value that may be absent: the model's stand-in for a null pointer
      or a field that was never assigned. */
  datatype Option<+T> = None | Some(value: T)

  /** The outcome of a step that can end the process with `exit(1)`. */
  datatype Result<+R, +E> = Ok(value: R) | Err(error: E)
}
