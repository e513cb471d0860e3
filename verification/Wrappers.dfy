/** Shared by all: Go's (value, error) returns, optional values, bytes, and constants of more than one component. */
module Wrappers {

  datatype Option<+T> = None | Some(value: T)

  datatype Result<+T, +E> = Ok(value: T) | Err(error: E)

  type Byte = b: int | 0 <= b < 256
  type Bytes = seq<Byte>

  const TWO_32: nat := 0x1_0000_0000
  const TWO_63: nat := 0x8000_0000_0000_0000
  const TWO_64: nat := 0x1_0000_0000_0000_0000

  /** Between the tenant and the namespace of a storage namespace. */
  const TENANT_SEP: char := 0x1f as char
}
