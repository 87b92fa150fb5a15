/** Shared value types and numeric limits. */
module Base {

  datatype Option<+T> = None | Some(value: T)

  datatype Result<+T, +E> = Ok(value: T) | Err(error: E)

  /** Largest value of Go's int64; several tables and wire fields stop here. */
  const MAX_INT64: int := 0x7FFF_FFFF_FFFF_FFFF

  function Max(a: int, b: int): (m: int)
    ensures m >= a && m >= b && (m == a || m == b)
  {
    if a < b then b else a
  }

  function Min(a: int, b: int): (m: int)
    ensures m <= a && m <= b && (m == a || m == b)
  {
    if a < b then a else b
  }

  /** Nanoseconds since the Unix epoch. */
  type Instant = int

  /** Go's zero time, January 1 of year 1. */
  const ZERO_INSTANT: Instant := -62135596800 * 1_000_000_000

  /** Time.UnixMilli: rounds towards the past. */
  function Millis(t: Instant): int {
    t / 1_000_000
  }
}
