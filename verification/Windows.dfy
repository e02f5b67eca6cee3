/** Tumbling one-minute windows: crates/common/src/window.rs. */
module Windows {
  /** An instant, in nanoseconds since the Unix epoch (chrono's resolution). */
  type Time = int

  const SECOND: int := 1_000_000_000
  const WINDOW_SIZE: int := 60 * SECOND
  const ALLOWED_LATENESS: int := 30 * SECOND
  const IDLE_PARTITION_TIMEOUT: int := 10 * SECOND
  const DAY: int := 86_400 * SECOND

  predicate Aligned(t: Time) {
    t % WINDOW_SIZE == 0
  }

  lemma {:induction false} MultipleAligned(t: Time, n: int)
    requires t == WINDOW_SIZE * n
    ensures Aligned(t)
  {
    assert t / WINDOW_SIZE == n;
  }

  /** Rust's `%` by the window size: the remainder takes the dividend's sign. */
  function Remainder(a: int): (r: int)
    ensures -WINDOW_SIZE < r < WINDOW_SIZE && Aligned(a - r)
    ensures a >= 0 ==> r >= 0
    ensures a < 0 ==> r <= 0
  {
    MultipleAligned(a - Truncated(a), Quotient(a));
    Truncated(a)
  }

  /** Division by the window size, truncated toward zero, and its remainder. */
  function Quotient(a: int): int {
    if a >= 0 then a / WINDOW_SIZE else -((-a) / WINDOW_SIZE)
  }

  function Truncated(a: int): (r: int)
    ensures a == WINDOW_SIZE * Quotient(a) + r && -WINDOW_SIZE < r < WINDOW_SIZE
    ensures if a >= 0 then r >= 0 else r <= 0
  {
    if a >= 0 then a % WINDOW_SIZE else -((-a) % WINDOW_SIZE)
  }

  /** chrono's `duration_trunc`, whose three branches together floor on both
      sides of the epoch. */
  function WindowStart(ts: Time): (start: Time)
    ensures Aligned(start) && start <= ts < WindowEnd(start)
  {
    var down := Remainder(ts);
    if down == 0 then ts
    else if down > 0 then ts - down
    else ts - (WINDOW_SIZE - -down)
  }

  function WindowEnd(start: Time): Time {
    start + WINDOW_SIZE
  }

  lemma {:induction false} WindowEndAligned(start: Time)
    requires Aligned(start)
    ensures Aligned(WindowEnd(start))
  {
  }

  /** The window start is the only aligned instant within a window of the timestamp. */
  lemma {:induction false} WindowStartUnique(ts: Time, start: Time)
    requires Aligned(start) && start <= ts < WindowEnd(start)
    ensures start == WindowStart(ts)
  {
  }

  /** The window start is the greatest aligned instant not past the timestamp. */
  lemma {:induction false} WindowStartGreatest(ts: Time, t: Time)
    requires Aligned(t) && t <= ts
    ensures t <= WindowStart(ts)
  {
  }
}
