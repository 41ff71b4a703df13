/** `find_missing_dates` in `find_missing_data.py`: the Monday-to-Friday
    dates of a window that have no stored price record for a symbol. The
    database query becomes its answer, an input: the stored timestamps of the
    symbol, or `None` when the query raised. */
module MissingDates {
  import opened Wrappers
  import opened Calendar
  import opened Sequences

  /** `pd.bdate_range(start, end)`: every Monday-to-Friday date from `start`
      to `end`, both inclusive (none when `end < start`). */
  function ExpectedDates(start: Day, end: Day): set<Day>
  {
    set d: int | start <= d <= end && IsBusinessDay(d)
  }

  /** The calendar days of the stored timestamps. */
  function PresentDays(stored: set<Timestamp>): set<Day>
  {
    set t | t in stored :: DayOf(t)
  }

  /** What the query returns: the stored timestamps from the first instant
      of `start` to the last instant of `end`. */
  function QueryWindow(stored: set<Timestamp>, start: Day, end: Day): set<Timestamp>
  {
    set t | t in stored && StartOfDay(start) <= t <= EndOfDay(end)
  }

  /** The business days from `lo` to `hi` that are not in `present`, walked
      in ascending order. */
  function AbsentBusinessDays(lo: Day, hi: Day, present: set<Day>): (r: seq<Day>)
    ensures |r| <= if lo <= hi then hi - lo + 1 else 0
    decreases hi - lo
  {
    if lo > hi then []
    else
      var rest := AbsentBusinessDays(lo + 1, hi, present);
      if IsBusinessDay(lo) && lo !in present then [lo] + rest else rest
  }

  /** The walk lists, in strictly ascending order and within `lo..hi`,
      exactly the business days that are not in `present`. */
  lemma {:induction false} AbsentBusinessDaysSpec(lo: Day, hi: Day, present: set<Day>)
    ensures var r := AbsentBusinessDays(lo, hi, present);
      && StrictlyIncreasing(r)
      && (forall i :: 0 <= i < |r| ==> lo <= r[i] <= hi)
      && (forall d :: d in r <==> lo <= d <= hi && IsBusinessDay(d) && d !in present)
    decreases hi - lo
  {
    if lo <= hi {
      AbsentBusinessDaysSpec(lo + 1, hi, present);
      var rest := AbsentBusinessDays(lo + 1, hi, present);
      if IsBusinessDay(lo) && lo !in present {
        var r := [lo] + rest;
        assert forall i :: 1 <= i < |r| ==> r[i] == rest[i - 1];
      }
    }
  }

  /** Restricting the query to the window does not change which expected
      dates count as present. */
  lemma WindowKeepsExpectedDays(stored: set<Timestamp>, start: Day, end: Day, d: Day)
    requires start <= d <= end
    ensures d in PresentDays(QueryWindow(stored, start, end)) <==> d in PresentDays(stored)
  {
    if d in PresentDays(stored) {
      var t :| t in stored && DayOf(t) == d;
      DayOfWithinDay(t, d);
      assert StartOfDay(start) <= StartOfDay(d) && EndOfDay(d) <= EndOfDay(end);
      assert t in QueryWindow(stored, start, end);
    }
  }

  /** `find_missing_dates(symbol, start, end, ...)`: the business days of
      the window without a stored record, walked in ascending order; a failed
      query gives the empty list. */
  function FindMissingDates(start: Day, end: Day, stored: Option<set<Timestamp>>): (r: seq<Day>)
    ensures stored.None? ==> r == []
    ensures |r| <= if start <= end then end - start + 1 else 0
  {
    match stored
    case None => []
    case Some(ts) => AbsentBusinessDays(start, end, PresentDays(QueryWindow(ts, start, end)))
  }

  /** The result lists, in strictly ascending order, exactly the set
      difference of the expected business days and the days present in
      storage. */
  lemma FindMissingDatesSpec(start: Day, end: Day, stored: set<Timestamp>)
    ensures var r := FindMissingDates(start, end, Some(stored));
      && StrictlyIncreasing(r)
      && forall d :: d in r <==> d in ExpectedDates(start, end) && d !in PresentDays(stored)
  {
    var present := PresentDays(QueryWindow(stored, start, end));
    AbsentBusinessDaysSpec(start, end, present);
    forall d | start <= d <= end
      ensures d in present <==> d in PresentDays(stored)
    {
      WindowKeepsExpectedDays(stored, start, end, d);
    }
  }

  /** The missing list is `sorted(expected - present)`: any strictly
      ascending list of exactly those dates is this list. */
  lemma FindMissingDatesIsSortedDifference(start: Day, end: Day, stored: set<Timestamp>, s: seq<Day>)
    requires StrictlyIncreasing(s)
    requires forall d :: d in s <==> d in ExpectedDates(start, end) - PresentDays(stored)
    ensures FindMissingDates(start, end, Some(stored)) == s
  {
    FindMissingDatesSpec(start, end, stored);
    StrictlyIncreasingUnique(FindMissingDates(start, end, Some(stored)), s);
  }

  /** Every missing date is a business day of the window with no stored
      record on that calendar day, whatever its time of day. */
  lemma MissingDateIsUncoveredWeekday(start: Day, end: Day, stored: set<Timestamp>, i: nat)
    requires i < |FindMissingDates(start, end, Some(stored))|
    ensures var d := FindMissingDates(start, end, Some(stored))[i];
      && start <= d <= end && IsBusinessDay(d)
      && forall t :: t in stored ==> !(StartOfDay(d) <= t <= EndOfDay(d))
  {
    FindMissingDatesSpec(start, end, stored);
    var d := FindMissingDates(start, end, Some(stored))[i];
    assert d in FindMissingDates(start, end, Some(stored));
    forall t | t in stored
      ensures !(StartOfDay(d) <= t <= EndOfDay(d))
    {
      DayOfWithinDay(t, d);
      assert DayOf(t) in PresentDays(stored);
    }
  }

  /** No date is missing exactly when every business day of the window has
      some stored record, at whatever time of that day: the symbol is up to
      date. */
  lemma CompleteCoverageHasNoGaps(start: Day, end: Day, stored: set<Timestamp>)
    ensures FindMissingDates(start, end, Some(stored)) == []
        <==> forall d :: start <= d <= end && IsBusinessDay(d) ==> exists t :: t in stored && DayOf(t) == d
  {
    FindMissingDatesSpec(start, end, stored);
    var r := FindMissingDates(start, end, Some(stored));
    if r == [] {
      forall d | start <= d <= end && IsBusinessDay(d)
        ensures exists t :: t in stored && DayOf(t) == d
      {
        assert d in ExpectedDates(start, end);
        assert d !in r;
        assert d in PresentDays(stored);
      }
    } else {
      assert r[0] in r;
      assert r[0] in ExpectedDates(start, end) && r[0] !in PresentDays(stored);
      assert !(exists t :: t in stored && DayOf(t) == r[0]);
    }
  }
}
