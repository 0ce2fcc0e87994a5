/** Machine integers where the code depends on their width: the bounds and the
    saturating operations over signed 64-bit values. */
module Int64 {
  const I64_MAX: int := 0x7fff_ffff_ffff_ffff
  const I64_MIN: int := -0x8000_0000_0000_0000
  const U64_MAX: int := 0xffff_ffff_ffff_ffff

  type I64 = x: int | I64_MIN <= x <= I64_MAX
  type U64 = x: int | 0 <= x <= U64_MAX
  type Byte = x: int | 0 <= x < 256

  function Saturate(x: int): I64 {
    if x > I64_MAX then I64_MAX else if x < I64_MIN then I64_MIN else x
  }

  function SaturateUnsigned(x: int): U64 {
    if x > U64_MAX then U64_MAX else if x < 0 then 0 else x
  }

  /** to.saturating_sub(from) over millisecond timestamps. */
  function Elapsed(since: int, now: int): I64 {
    Saturate(now - since)
  }

  function Min(a: int, b: int): int {
    if a < b then a else b
  }

  function Max(a: int, b: int): int {
    if a > b then a else b
  }
}
