/** The clocks of the daemon and of the database. */
module Clock {
  /** Nanoseconds on the monotonic clock. */
  type Instant = int

  const SECOND: Instant := 1_000_000_000

  /** Microseconds since the Unix epoch. */
  type Time = int
}
