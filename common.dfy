/** Machine words and small helper types shared by the firmware model. */
module Common {

  /** An unsigned 32-bit word (`uint32_t`). */
  newtype u32 = x: int | 0 <= x < 0x1_0000_0000

  const WORD_MOD: int := 0x1_0000_0000

  /** `uint32_t` addition: wraps around modulo 2^32. */
  function Add32(a: u32, b: u32): u32
  {
    ((a as int + b as int) % WORD_MOD) as u32
  }

  /** `uint32_t` multiplication: wraps around modulo 2^32. */
  function Mul32(a: u32, b: u32): u32
  {
    ((a as int * b as int) % WORD_MOD) as u32
  }

  /** `x++` on a `uint32_t`. */
  function Inc32(a: u32): u32
  {
    Add32(a, 1)
  }

  /** A nullable pointer or an optional result. */
  datatype Option<T> = None | Some(value: T)

  function Min(a: int, b: int): int
  {
    if a <= b then a else b
  }
}
