/** The two result types shared by every module. */
module Wrappers {

  datatype Option<+T> = None | Some(value: T)

  datatype Result<+T, +E> = Ok(value: T) | Err(error: E)

  /** Moves an offset found in a suffix to an offset in the string that the suffix was cut from. */
  function Shift(k: nat, offset: Option<nat>): Option<nat> {
    if offset.Some? then Some(k + offset.value) else None
  }
}
