/** Instants are integer milliseconds since the epoch; dates are day numbers. */
module Calendar {
  type Time = int
  type Day = int

  const SECOND_MS: int := 1000
  const HOUR_MS: int := 3600 * SECOND_MS
  const DAY_MS: int := 86_400_000

  /** The UTC date of an instant: toISOString().split('T')[0]. */
  function DayOf(t: Time): (d: Day)
    ensures d * DAY_MS <= t < (d + 1) * DAY_MS
  {
    t / DAY_MS
  }

  lemma DayOfMonotone(s: Time, t: Time)
    requires s <= t
    ensures DayOf(s) <= DayOf(t)
  {
  }
}
