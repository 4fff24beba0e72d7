/** Fixed-width integers of the C source, and the one datatype every module shares. */
module Words {

  newtype uint32 = x: int | 0 <= x < 0x1_0000_0000

  datatype Option<+T> = None | Some(value: T)

  /** `++x` on a uint32_t: wraps at 2^32. */
  function Increment(x: uint32): uint32 {
    if x == 0xFFFF_FFFF then 0 else x + 1
  }
}
