/** Calendar days, weekdays and stored timestamps, as the gap detector in
    `find_missing_data.py` uses them through `datetime` and `pandas`. */
module Calendar {

  /** A calendar date: the number of days since 1970-01-01, a Thursday. */
  type Day = int

  /** A stored `datetime`: microseconds since 1970-01-01 00:00:00. */
  type Timestamp = int

  const MicrosPerDay: int := 86_400_000_000

  /** `date.weekday()`: Monday is 0 and Sunday is 6. */
  function Weekday(d: Day): (w: int)
    ensures 0 <= w < 7
  {
    (d + 3) % 7
  }

  /** The numbering is anchored: day 0, 1970-01-01, is a Thursday, and
      day 20089, 2025-01-01, is a Wednesday. */
  lemma WeekdayAnchors()
    ensures Weekday(0) == 3
    ensures Weekday(20089) == 2
  {
  }

  /** A Monday-to-Friday date, the days `pandas.bdate_range` yields. */
  predicate IsBusinessDay(d: Day)
  {
    Weekday(d) < 5
  }

  /** `datetime.date()`: the calendar day of a timestamp, time of day dropped. */
  function DayOf(t: Timestamp): Day
  {
    t / MicrosPerDay
  }

  /** `datetime.combine(d, time.min)`. */
  function StartOfDay(d: Day): Timestamp
  {
    d * MicrosPerDay
  }

  /** `datetime.combine(d, time.max)`, one microsecond before the next midnight. */
  function EndOfDay(d: Day): Timestamp
  {
    d * MicrosPerDay + MicrosPerDay - 1
  }

  /** A timestamp lies between the first and the last instant of a day
      exactly when `.date()` of it is that day: comparing at day granularity
      discards the time of day. */
  lemma DayOfWithinDay(t: Timestamp, d: Day)
    ensures StartOfDay(d) <= t <= EndOfDay(d) <==> DayOf(t) == d
  {
    var q, r := t / MicrosPerDay, t % MicrosPerDay;
    assert t == q * MicrosPerDay + r && 0 <= r < MicrosPerDay;
    if q < d {
      assert q * MicrosPerDay <= (d - 1) * MicrosPerDay;
    } else if q > d {
      assert q * MicrosPerDay >= (d + 1) * MicrosPerDay;
    }
  }

  /** The weekday advances by one, Sunday wrapping to Monday. */
  lemma WeekdayNext(d: Day)
    ensures Weekday(d + 1) == (Weekday(d) + 1) % 7
  {
  }

  /** After any business day the next business day comes at most three
      calendar days later (Friday to Monday): consecutive business days are
      never more than three days apart, so a run of consecutive missing
      business days is never split into two ranges. */
  lemma NextBusinessDayWithinThree(d: Day)
    requires IsBusinessDay(d)
    ensures IsBusinessDay(d + 1) || IsBusinessDay(d + 3)
    ensures !IsBusinessDay(d + 1) ==> !IsBusinessDay(d + 2) && Weekday(d) == 4
  {
    WeekdayNext(d);
    WeekdayNext(d + 1);
    WeekdayNext(d + 2);
  }

  /** The first business day after `d`. */
  function NextBusinessDay(d: Day): (n: Day)
    ensures d < n <= d + 3
    ensures IsBusinessDay(n)
    ensures forall e :: d < e < n ==> !IsBusinessDay(e)
  {
    WeekdayNext(d);
    WeekdayNext(d + 1);
    WeekdayNext(d + 2);
    if IsBusinessDay(d + 1) then d + 1
    else if IsBusinessDay(d + 2) then d + 2
    else d + 3
  }
}
