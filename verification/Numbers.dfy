/** Machine integers, saturating counters and the real-number helpers the policy uses. */
module Numbers {
  const U32_MAX := 0xFFFF_FFFF
  const U64_MAX := 0xFFFF_FFFF_FFFF_FFFF

  type u32 = x: int | 0 <= x <= 0xFFFF_FFFF
  type u64 = x: int | 0 <= x <= 0xFFFF_FFFF_FFFF_FFFF

  /** `saturating_add(1)` on 32 bits. */
  function Succ32(x: u32): u32 {
    if x == U32_MAX then x else x + 1
  }

  /** `saturating_add(1)` on 64 bits. */
  function Succ64(x: u64): u64 {
    if x == U64_MAX then x else x + 1
  }

  /** `saturating_sub`. */
  function SatSub(x: nat, y: nat): nat {
    if x >= y then x - y else 0
  }

  function Min(x: int, y: int): int {
    if x <= y then x else y
  }

  function MaxReal(x: real, y: real): real {
    if x >= y then x else y
  }

  function MinReal(x: real, y: real): real {
    if x <= y then x else y
  }

  function Abs(x: real): real {
    if x >= 0.0 then x else -x
  }

  function Clamp(x: real, lo: real, hi: real): real {
    if x < lo then lo else if x > hi then hi else x
  }

  predicate InUnit(x: real) {
    0.0 <= x <= 1.0
  }
}
