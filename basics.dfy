/** Small value types shared by the whole model: optional values, results
    carrying either a value or an error, and the byte type of the ledger. */
module Basics {

  datatype Option<+T> = None | Some(value: T)

  datatype Result<+T, +E> = Ok(value: T) | Err(error: E)

  /** One octet of a stored value. */
  newtype byte = x: int | 0 <= x < 256

  /** The raw value the ledger stores under a key. */
  type Bytes = seq<byte>
}
