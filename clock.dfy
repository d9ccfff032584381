/**
 * The monotonic clock. Instants are integer ticks of high_resolution_clock,
 * whose period is one nanosecond; the core only ever looks at the difference
 * of two instants converted to whole milliseconds by duration_cast, which
 * truncates toward zero.
 */
module Clock {

  /** Clock ticks in one millisecond. */
  const TicksPerMs: int := 1_000_000

  /** duration_cast<milliseconds>(to - from).count(): whole milliseconds, truncated toward zero. */
  function ElapsedMs(from: int, to: int): (ms: int)
    ensures to >= from ==> 0 <= ms && ms * TicksPerMs <= to - from < (ms + 1) * TicksPerMs
    ensures to < from ==> ms <= 0 && (ms - 1) * TicksPerMs < to - from <= ms * TicksPerMs
  {
    var d := to - from;
    if d >= 0 then d / TicksPerMs else -((-d) / TicksPerMs)
  }

  /** More than k whole milliseconds have elapsed exactly when at least k + 1 full milliseconds of ticks lie between the instants. */
  lemma ElapsedExceeds(from: int, to: int, k: nat)
    ensures ElapsedMs(from, to) > k <==> to - from >= (k + 1) * TicksPerMs
  {
    var ms := ElapsedMs(from, to);
    if to >= from {
      if ms > k {
        assert (k + 1) * TicksPerMs <= ms * TicksPerMs;
      } else {
        assert (ms + 1) * TicksPerMs <= (k + 1) * TicksPerMs;
      }
    }
  }
}
