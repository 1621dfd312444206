/** Shared definitions. */
module Wrappers {
  /** The number of values of a 64-bit word. */
  const TWO64: nat := 0x1_0000_0000_0000_0000

  datatype Option<+T> = None | Some(value: T)
}
