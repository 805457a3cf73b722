/** Fixed-width machine integers, with the wrap-around the Rust code relies
    on written out, and the Option/Result wrappers the library's API returns. */
module Prelude {

  const U32_MOD: int := 0x1_0000_0000
  const U64_MOD: int := 0x1_0000_0000_0000_0000
  const I32_MIN: int := -0x8000_0000
  const I32_MAX: int := 0x7fff_ffff

  type uint32 = x: int | 0 <= x < U32_MOD
  type uint64 = x: int | 0 <= x < U64_MOD
  type int32 = x: int | I32_MIN <= x <= I32_MAX

  /** `u32::wrapping_add` */
  function WrappingAdd32(a: uint32, b: uint32): (r: uint32)
    ensures a + b < U32_MOD ==> r == a + b
    ensures a + b >= U32_MOD ==> r == a + b - U32_MOD
  {
    (a + b) % U32_MOD
  }

  /** `u32::wrapping_sub`; also the release-build meaning of a plain `-` on `u32`. */
  function WrappingSub32(a: uint32, b: uint32): (r: uint32)
    ensures b <= a ==> r == a - b
    ensures a < b ==> r == a - b + U32_MOD
  {
    (a - b) % U32_MOD
  }

  /** `u64::wrapping_add` */
  function WrappingAdd64(a: uint64, b: uint64): (r: uint64)
    ensures a + b < U64_MOD ==> r == a + b
    ensures a + b >= U64_MOD ==> r == a + b - U64_MOD
  {
    (a + b) % U64_MOD
  }

  /** Unary minus on `i32` as a release build computes it: only `i32::MIN`
      overflows, and it wraps to itself. */
  function Neg32(x: int32): (r: int32)
    ensures x != I32_MIN ==> r == -x
    ensures x == I32_MIN ==> r == x
  {
    if x == I32_MIN then x else -x
  }

  datatype Option<+T> = None | Some(value: T)

  datatype Result<+T, +E> = Ok(value: T) | Err(error: E)
}
