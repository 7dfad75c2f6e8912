/** Small shared vocabulary: an optional value and the integer bounds the programs use. */
module Basics {
  datatype Option<T> = None | Some(value: T)

  /** The largest integer a JSON number carries exactly, 2^53 - 1. */
  const MaxSafeInteger := 0x1F_FFFF_FFFF_FFFF

  /** The largest unsigned 64-bit integer. */
  const CounterMax := 0xFFFF_FFFF_FFFF_FFFF

  function Pow2(k: nat): nat {
    if k == 0 then 1 else 2 * Pow2(k - 1)
  }
}
