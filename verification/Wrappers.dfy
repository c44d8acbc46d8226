/** What the other modules share. */
module Wrappers {
  datatype Option<+T> = None | Some(value: T)

  datatype Result<+T, +E> = Ok(value: T) | Err(error: E)

  function Min(a: nat, b: nat): nat {
    if a <= b then a else b
  }

  newtype byte = x: int | 0 <= x < 0x100
}
