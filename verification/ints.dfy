/** Machine integer widths used by the game state: positions are signed
    64-bit, the snake length and the per-segment countdowns unsigned 64-bit. */
module Ints {

  const I64_MIN: int := -0x8000_0000_0000_0000
  const I64_MAX: int := 0x7fff_ffff_ffff_ffff
  const U64_MAX: int := 0xffff_ffff_ffff_ffff

  type i64 = x: int | I64_MIN <= x <= I64_MAX

  type u64 = x: int | 0 <= x <= U64_MAX
}
