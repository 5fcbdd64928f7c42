/** Civil time as the engine sees it: integer seconds of the day, the
    elapsed time between two recorded times, and the lateness rule for
    "Start Work". Time-zone conversion and date parsing are outside the
    model; the clock is an input, never a side effect. */
module Clock {
  import opened Wrappers
  import opened DivMod

  const SecondsPerDay: int := 86400

  /** A time of day, `HH:MM:SS` in the fixed civil time zone, as seconds. */
  type TimeOfDaySeconds = t: int | 0 <= t < SecondsPerDay

  /** 0 = Sunday, 1 = Monday, ... as returned by `Date.getDay`. */
  type Weekday = d: int | 0 <= d < 7
  type Hour = h: int | 0 <= h < 24
  type Sixty = m: int | 0 <= m < 60

  /** The civil moment at which an event is processed. */
  datatype Moment = Moment(day: Weekday, hour: Hour, minute: Sixty, second: Sixty)

  /** The time-of-day string the handler stamps on entries (`getTime`). */
  function TimeOfDay(m: Moment): (t: TimeOfDaySeconds)
    ensures m.hour * 3600 <= t < (m.hour + 1) * 3600
  {
    m.hour * 3600 + m.minute * 60 + m.second
  }

  /** The seconds-of-day value reads back as the moment's hour, minute and second. */
  lemma TimeOfDayReadsBack(m: Moment)
    ensures var t := TimeOfDay(m); t / 3600 == m.hour && (t / 60) % 60 == m.minute && t % 60 == m.second
  {
    var t := TimeOfDay(m);
    var minutes := m.hour * 60 + m.minute;
    assert t == minutes * 60 + m.second;
    DivModUnique(t, 60, minutes, m.second);
    DivModUnique(minutes, 60, m.hour, m.minute);
    DivModUnique(t, 3600, m.hour, m.minute * 60 + m.second);
  }

  /** Elapsed seconds from `start` to `end` on the same civil date
      (`getDurationMinutes`, in seconds). Either time missing gives 0. No
      day roll-over is inferred, so an end before its start is negative. */
  function Elapsed(start: Option<TimeOfDaySeconds>, end: Option<TimeOfDaySeconds>): (d: int)
    ensures start.None? || end.None? ==> d == 0
    ensures start.Some? && end.Some? ==> start.value + d == end.value
    ensures start == end ==> d == 0
    ensures start.Some? && end.Some? && start.value <= end.value ==> d >= 0
    ensures -SecondsPerDay < d < SecondsPerDay
  {
    if start.None? || end.None? then 0 else end.value - start.value
  }

  /** The hour by which work must have started: 14:00 on Sunday, 11:00 otherwise. */
  function DeadlineHour(day: Weekday): (h: Hour)
    ensures day == 0 ==> h == 14
    ensures day != 0 ==> h == 11
  {
    if day == 0 then 14 else 11
  }

  /** The lateness rule of `getLatenessWarning`: late when the hour is past
      the deadline hour, or equal to it with any minute or second elapsed.
      Equivalently: strictly after the top of the deadline hour, no grace. */
  predicate IsLate(m: Moment)
    ensures IsLate(m) <==> TimeOfDay(m) > DeadlineHour(m.day) * 3600
  {
    var limit := DeadlineHour(m.day);
    if m.hour > limit then true
    else if m.hour == limit then m.minute > 0 || m.second > 0
    else false
  }
}
