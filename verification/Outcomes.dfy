/** Option and result types shared by every model. */
module Outcomes {

  datatype Option<+T> = None | Some(value: T)

  datatype Result<+T, +E> = Ok(value: T) | Err(error: E)

  type Bytes = seq<byte>

  newtype byte = n: int | 0 <= n < 256
}
