/** Wall-clock time as whole minutes.
    An instant is a count of minutes on the server's (or browser's) local
    clock; there are no time zones and no daylight-saving shifts. */
module Time {

  type Instant = int

  const MinutesPerHour := 60
  const HoursPerDay := 24
  const MinutesPerDay := 1440
  const DaysPerWeek := 7
  const MinutesPerWeek := 10080

  /** The hour of the day, as `Date.getHours` reads it. */
  function Hour(t: Instant): (h: int)
    ensures 0 <= h < HoursPerDay
  {
    (t / MinutesPerHour) % HoursPerDay
  }

  /** The minute of the hour, as `Date.getMinutes` reads it. */
  function Minute(t: Instant): (m: int)
    ensures 0 <= m < MinutesPerHour
  {
    t % MinutesPerHour
  }

  /** Midnight at the start of the day that contains `t`. */
  function DayStart(t: Instant): (d: Instant)
    ensures d <= t < d + MinutesPerDay
    ensures d % MinutesPerDay == 0
  {
    t - t % MinutesPerDay
  }

  /** `isSameDay` of date-fns. */
  predicate SameDay(a: Instant, b: Instant)
  {
    DayStart(a) == DayStart(b)
  }

  /** Reading the clock fields of an instant that lies `offset` minutes
      after a midnight. */
  lemma ClockAt(midnight: Instant, offset: int)
    requires midnight % MinutesPerDay == 0
    requires 0 <= offset < MinutesPerDay
    ensures DayStart(midnight + offset) == midnight
    ensures Hour(midnight + offset) == offset / MinutesPerHour
    ensures Minute(midnight + offset) == offset % MinutesPerHour
  {
    var q := midnight / MinutesPerDay;
    assert midnight == MinutesPerDay * q;
    var h, m := offset / MinutesPerHour, offset % MinutesPerHour;
    assert 0 <= h < HoursPerDay;
    assert midnight + offset == MinutesPerHour * (HoursPerDay * q + h) + m;
    assert (midnight + offset) / MinutesPerHour == HoursPerDay * q + h;
    assert (midnight + offset) % MinutesPerDay == offset;
  }

  /** Moving by whole days moves the midnight by the same amount. */
  lemma DayStartShift(t: Instant, days: int)
    ensures DayStart(t + days * MinutesPerDay) == DayStart(t) + days * MinutesPerDay
  {
    var d := DayStart(t);
    assert (d + days * MinutesPerDay) % MinutesPerDay == 0;
    var off := t - d;
    assert t + days * MinutesPerDay == (d + days * MinutesPerDay) + off;
    ClockAt(d + days * MinutesPerDay, off);
  }
}
