/** Failure-carrying values and byte strings shared by the other modules. */
module Wrappers {

  newtype Byte = x: int | 0 <= x < 256

  type Bytes = seq<Byte>

  datatype Option<+T> = None | Some(value: T)

  datatype Result<+T, +E> = Ok(value: T) | Err(error: E)
}
