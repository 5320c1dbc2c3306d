/** Small types that several components share. */
module Wrappers {

  datatype Option<+T> = None | Some(value: T)

  datatype Result<+T, +E> = Ok(value: T) | Err(error: E)

  /** A half-open range of offsets. */
  datatype Range = Range(start: nat, end: nat)
}
