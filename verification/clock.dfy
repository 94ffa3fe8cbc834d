/** Instants and durations. Go's `time.Time` and `time.Duration` are
    modelled as whole milliseconds; the clock itself is always an input. */
module Clock {
  /** An instant or a duration, in milliseconds. */
  type Millis = int

  const Second: Millis := 1000
  const Minute: Millis := 60 * Second
}
