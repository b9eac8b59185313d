/** How the application's dates, times and amounts are represented here. */
module Units {

  /** A point in time (a `DateTimeField` value), in whole seconds since the epoch, UTC. */
  type Instant = int

  /** A calendar date (a `DateField` value), as a day number. */
  type Date = int

  /** An amount of money (a `DecimalField` with two decimal places), in cents. */
  type Money = int

  const SecondsPerMinute: nat := 60
  const SecondsPerHour: nat := 3600
  const SecondsPerDay: nat := 86400

  /** The calendar date of an instant, as a `__date` lookup gives it. */
  function DayOf(t: Instant): (d: Date)
    ensures d * SecondsPerDay <= t < (d + 1) * SecondsPerDay
  {
    t / SecondsPerDay
  }
}
