/** Options, results and the time types shared by every module. */
module Wrappers {

  /** A point on the monotonic clock and a span of it, both in nanoseconds. */
  type Instant = nat
  type Duration = nat

  datatype Option<+T> = None | Some(value: T)

  datatype Result<+T, +E> = Success(value: T) | Failure(error: E)

  const SECOND: Duration := 1_000_000_000

  /** Largest unsigned 64-bit value; counters saturate here instead of wrapping. */
  const U64_MAX: nat := 0xFFFF_FFFF_FFFF_FFFF

  function SaturatingAdd(a: nat, b: nat): nat {
    if a + b > U64_MAX then U64_MAX else a + b
  }

  function Min(a: int, b: int): int {
    if a <= b then a else b
  }

  function Max(a: int, b: int): int {
    if a >= b then a else b
  }

  /** Order on optional instants in which a missing one comes before every other. */
  predicate AtMost(a: Option<Instant>, b: Option<Instant>) {
    a.None? || (b.Some? && a.value <= b.value)
  }
}
