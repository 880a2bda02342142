/** Calendar arithmetic on integer day numbers and the fixed Asia/Kolkata offset.

    A UTC instant is a whole number of seconds since 1970-01-01T00:00:00Z.
    A calendar date is a day number: day 0 is 1970-01-01 (a Thursday), day
    19737 is 2024-01-15 (a Monday). Week days are numbered as Python's
    `date.weekday()` numbers them: Monday is 0, Saturday 5, Sunday 6.
 */
module Calendar {

  const SECONDS_PER_DAY: int := 86400

  /** Asia/Kolkata is UTC+05:30 all year round (no daylight saving): 330 minutes. */
  const KOLKATA_OFFSET_SECONDS: int := 330 * 60

  const MONDAY: int := 0
  const FRIDAY: int := 4
  const SATURDAY: int := 5
  const SUNDAY: int := 6

  /** Day number of Monday 2024-01-15, used to anchor the week. */
  const MONDAY_2024_01_15: int := 19737

  /** A local wall-clock reading: a calendar date and the second of that day. */
  datatype LocalDateTime = LocalDateTime(date: int, secondOfDay: int)

  /** The day of the week of `day`, Monday = 0 ... Sunday = 6 (1970-01-01 was a Thursday, 3). */
  function Weekday(day: int): (w: int)
    ensures MONDAY <= w <= SUNDAY
  {
    (day + 3) % 7
  }

  predicate IsWeekend(day: int) {
    Weekday(day) >= SATURDAY
  }

  /** The week has period seven and is anchored at Monday 2024-01-15: the day
      `k` days into any week counted from that Monday has week day `k`. */
  lemma WeekdayPeriodic(n: int, k: int)
    requires 0 <= k < 7
    ensures Weekday(MONDAY_2024_01_15 + 7 * n + k) == k
  {
  }

  /** Converting a UTC instant to Kolkata local time: the wall-clock date and
      second of day of the instant shifted by +05:30. */
  function ToKolkata(utcSeconds: int): (t: LocalDateTime)
    ensures 0 <= t.secondOfDay < SECONDS_PER_DAY
    ensures t.date * SECONDS_PER_DAY + t.secondOfDay == utcSeconds + KOLKATA_OFFSET_SECONDS
  {
    var local := utcSeconds + KOLKATA_OFFSET_SECONDS;
    LocalDateTime(local / SECONDS_PER_DAY, local % SECONDS_PER_DAY)
  }

  /** The local reading is the only date and second of day that the shifted instant splits into. */
  lemma ToKolkataUnique(utcSeconds: int, date: int, secondOfDay: int)
    requires 0 <= secondOfDay < SECONDS_PER_DAY
    requires date * SECONDS_PER_DAY + secondOfDay == utcSeconds + KOLKATA_OFFSET_SECONDS
    ensures ToKolkata(utcSeconds) == LocalDateTime(date, secondOfDay)
  {
  }
}
