/** The machine integers of the sources. */
module Words {
  type byte = x: int | 0 <= x < 0x100
  type u16 = x: int | 0 <= x < 0x1_0000
  type u32 = x: int | 0 <= x < 0x1_0000_0000
  type i32 = x: int | -0x8000_0000 <= x < 0x8000_0000
  type u64 = x: int | 0 <= x < 0x1_0000_0000_0000_0000
  type ulong = u64

  const U64_RANGE: int := 0x1_0000_0000_0000_0000
  const ULONG_MAX: int := 0xFFFF_FFFF_FFFF_FFFF

  /** What 64-bit arithmetic leaves of a result. */
  function WrapU64(x: int): u64 {
    x % U64_RANGE
  }
}
