/** Result types for the operations of the system that can fail or find nothing. */
module Wrappers {
  datatype Option<+T> = None | Some(value: T)

  datatype Result<+T, +E> = Ok(value: T) | Err(error: E)

  /** How an atomic file write ends: reported done, not done, or done with an error reported after it. */
  datatype Fault = Sound | NotWritten | Unreported

  /** A byte of a stored object or of a hashed message. */
  newtype byte = b: int | 0 <= b < 256

  type Bytes = seq<byte>
}
