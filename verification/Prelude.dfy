/** What several modules share. */
module Prelude {

  datatype Option<T> = None | Some(value: T)

  /** The values of a 32-bit unsigned integer. */
  const WORD: nat := 0x1_0000_0000

  function Pow2(n: nat): (p: nat)
    ensures p > 0
  {
    if n == 0 then 1 else 2 * Pow2(n - 1)
  }
}
