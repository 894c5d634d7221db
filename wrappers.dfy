/** Option and Result datatypes used for absent values and rejected input. */
module Wrappers {

  /** A value that may be absent, like JavaScript's `undefined`. */
  datatype Option<+T> = None | Some(value: T)

  /** Either a computed value or a rejection. */
  datatype Result<+T> = Ok(value: T) | Err
}
