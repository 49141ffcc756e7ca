/** Instants and durations, in microseconds on one line. */
module Clock {
  type Time = int

  const SECOND: Time := 1_000_000
}
