/** Vocabulary shared by every component of the proxy model. */
module Common {

  datatype Option<+T> = None | Some(value: T)

  datatype Result<+T, +E> = Ok(value: T) | Err(error: E)

  type Byte = x: int | 0 <= x < 256

  type Bytes = seq<Byte>

  /** Largest value of the 64-bit `usize` and `u64` counters of the source. */
  const MAX_U64: nat := 0xFFFF_FFFF_FFFF_FFFF

  /** Nanoseconds in a second; clocks other than the rate limiter's count nanoseconds. */
  const NANOS_PER_SEC: nat := 1_000_000_000

  lemma SmallerSet<T>(a: set<T>, b: set<T>)
    requires a <= b
    ensures |a| <= |b|
  {
    assert b == a + (b - a);
  }
}
