/** Shared vocabulary of the model. */
module Common {

  /** A value that may be absent: an unowned mutex, a null pointer, a search that failed. */
  datatype Option<+T> = None | Some(value: T)

  /** The number of values of a 32-bit `unsigned`. */
  const UINT_RANGE: nat := 0x1_0000_0000
}
