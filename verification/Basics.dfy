/** Vocabulary every other module shares. */
module Basics {

  datatype Option<+T> = None | Some(value: T)

  /** An unsigned byte, the width of every duty the kernel takes. */
  type byte = x: int | 0 <= x < 256

  /** A point on the monotonic clock, in nanoseconds. */
  type Instant = int

  const NANOS_PER_MILLI: int := 1_000_000

  /** `Instant::saturating_duration_since`: a clock that went backwards reads as no time at all. */
  function SaturatingSince(now: Instant, earlier: Instant): nat {
    if now <= earlier then 0 else now - earlier
  }

  function Min(a: int, b: int): int {
    if a <= b then a else b
  }

  function Max(a: int, b: int): int {
    if a <= b then b else a
  }

  function Clamp(x: int, low: int, high: int): int {
    Max(low, Min(x, high))
  }
}
