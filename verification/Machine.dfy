/**
 The fixed-width arithmetic of the source language, written out over `int`.

 Instants and durations are unsigned 64-bit milliseconds that saturate. Readings
 are unsigned 32-bit millivolts that the arithmetic casts to signed 32 bits,
 where it wraps (the release profile turns overflow checks off).
 */
module Machine {

  datatype Option<+T> = None | Some(value: T)

  const U64_MAX: nat := 0xFFFF_FFFF_FFFF_FFFF
  const U32_MAX: nat := 0xFFFF_FFFF

  /** Instants up to here are so far from the end of the 64-bit range that no
      deadline computed from them saturates: 292 million years of uptime. */
  const HORIZON: nat := 0x8000_0000_0000_0000

  type U32 = x: nat | x <= 0xFFFF_FFFF
  type U8 = x: nat | x <= 0xFF

  function Min(a: int, b: int): int { if a <= b then a else b }

  function Max(a: int, b: int): int { if a >= b then a else b }

  function AbsDiff(a: nat, b: nat): nat { if a >= b then a - b else b - a }

  /** `Instant::saturating_add`. */
  function SatAdd(t: nat, d: nat): (r: nat)
  {
    Min(t + d, U64_MAX)
  }

  /** `Instant::saturating_since`: zero when `earlier` is later. */
  function Since(t: nat, earlier: nat): nat
  {
    if t >= earlier then t - earlier else 0
  }

  /** Two's complement truncation to 32 bits. */
  function WrapI32(x: int): (r: int)
  {
    (x + 0x8000_0000) % 0x1_0000_0000 - 0x8000_0000
  }

  /** Truncation to an unsigned 32-bit counter. */
  function WrapU32(x: nat): U32 { x % 0x1_0000_0000 }

  predicate FitsI32(x: int) { -0x8000_0000 <= x < 0x8000_0000 }

  predicate FitsI64(x: int) { -0x8000_0000_0000_0000 <= x < 0x8000_0000_0000_0000 }

  /** The `as i32` cast of an unsigned reading. */
  function AsI32(x: U32): int { WrapI32(x) }

  /** Division that rounds towards zero, as the source's `/` does. */
  function TruncDiv(a: int, b: int): int
    requires b != 0
  {
    if a >= 0 then (if b > 0 then a / b else -(a / -b))
    else if b > 0 then -(-a / b) else -a / -b
  }

  /** Arithmetic that stays in range does not wrap. */
  lemma WrapIsExact(x: int)
    requires FitsI32(x)
    ensures WrapI32(x) == x
  {
  }
}
