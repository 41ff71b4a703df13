/** `group_missing_dates` in `find_missing_data.py`: the sorted missing
    dates of one symbol merged into date ranges. A date joins the current
    range when it is at most three calendar days after the range's end, so a
    weekend does not split a range; otherwise it starts a new range. Every
    range is kept, single-day ones included. */
module DateRanges {
  import opened Calendar
  import opened Sequences

  /** One `{"start": ..., "end": ...}` entry of the report. */
  datatype DateRange = DateRange(start: Day, end: Day)

  /** The largest calendar-day step that still extends a range. */
  const MaxGapDays: int := 3

  predicate InRange(r: DateRange, d: Day)
  {
    r.start <= d <= r.end
  }

  /** The loop's state: the ranges appended so far (`ranges`) and the open
      range (`current_start`, `current_end`). */
  datatype Grouping = Grouping(closed: seq<DateRange>, current: DateRange)

  /** The list returned once the open range is appended. */
  function Ranges(g: Grouping): seq<DateRange>
  {
    g.closed + [g.current]
  }

  /** One iteration of the loop with `next_dt`: extend the open range, or
      close it and open a single-day range. */
  function Extend(g: Grouping, next: Day): Grouping
  {
    if next - g.current.end <= MaxGapDays then Grouping(g.closed, DateRange(g.current.start, next))
    else Grouping(g.closed + [g.current], DateRange(next, next))
  }

  /** The state after reading every date of a non-empty list. */
  function Scan(dates: seq<Day>): Grouping
    requires dates != []
    decreases |dates|
  {
    if |dates| == 1 then Grouping([], DateRange(dates[0], dates[0]))
    else Extend(Scan(dates[..|dates| - 1]), dates[|dates| - 1])
  }

  /** The open range ends at the last date read, and fewer ranges are
      closed than dates read. */
  lemma {:induction false} ScanShape(dates: seq<Day>)
    requires dates != []
    ensures Scan(dates).current.end == dates[|dates| - 1]
    ensures |Scan(dates).closed| < |dates|
    decreases |dates|
  {
    if |dates| > 1 {
      ScanShape(dates[..|dates| - 1]);
    }
  }

  /** The ranges `group_missing_dates` returns. */
  function Group(dates: seq<Day>): seq<DateRange>
  {
    if dates == [] then [] else Ranges(Scan(dates))
  }

  /** There are no more ranges than dates, none exactly for an empty list,
      and the last range ends at the last date. */
  lemma GroupShape(dates: seq<Day>)
    ensures |Group(dates)| <= |dates|
    ensures Group(dates) == [] <==> dates == []
    ensures dates != [] ==> Group(dates)[|Group(dates)| - 1].end == dates[|dates| - 1]
  {
    if dates != [] {
      ScanShape(dates);
    }
  }

  /** `group_missing_dates(missing_dates)`, as the source's loop over
      `current_start` and `current_end`. */
  method GroupMissingDates(missingDates: seq<Day>) returns (ranges: seq<DateRange>)
    ensures ranges == Group(missingDates)
  {
    if |missingDates| == 0 {
      return [];
    }
    ranges := [];
    var currentStart := missingDates[0];
    var currentEnd := missingDates[0];
    for i := 1 to |missingDates|
      invariant Scan(missingDates[..i]) == Grouping(ranges, DateRange(currentStart, currentEnd))
    {
      var nextDt := missingDates[i];
      assert missingDates[..i + 1][..i] == missingDates[..i];
      var diff := nextDt - currentEnd;
      if diff <= MaxGapDays {
        currentEnd := nextDt;
      } else {
        ranges := ranges + [DateRange(currentStart, currentEnd)];
        currentStart := nextDt;
        currentEnd := nextDt;
      }
    }
    assert missingDates[..|missingDates|] == missingDates;
    ranges := ranges + [DateRange(currentStart, currentEnd)];
  }

  /** What the source promises of its ranges, for a strictly ascending list
      of dates. */
  ghost predicate ValidGrouping(dates: seq<Day>, r: seq<DateRange>)
  {
    && NonEmptyRanges(r)
    && EndsAreInputDates(dates, r)
    && RangesSeparated(r)
    && CoversAllDates(dates, r)
    && CloseWithinRange(dates, r)
  }

  /** Every range has `start <= end`. */
  ghost predicate NonEmptyRanges(r: seq<DateRange>)
  {
    forall k :: 0 <= k < |r| ==> r[k].start <= r[k].end
  }

  /** Range starts and ends are input dates. */
  ghost predicate EndsAreInputDates(dates: seq<Day>, r: seq<DateRange>)
  {
    forall k :: 0 <= k < |r| ==> r[k].start in dates && r[k].end in dates
  }

  /** The next range starts more than `MaxGapDays` after the previous one
      ends: ranges are ascending and could not have been merged. */
  ghost predicate RangesSeparated(r: seq<DateRange>)
  {
    forall k :: 0 <= k < |r| - 1 ==> Separation(r, k) > MaxGapDays
  }

  /** Every input date lies in some range. */
  ghost predicate CoversAllDates(dates: seq<Day>, r: seq<DateRange>)
  {
    forall i :: 0 <= i < |dates| ==> exists k :: 0 <= k < |r| && InRange(r[k], dates[i])
  }

  /** Two adjacent input dates that lie in one range are at most
      `MaxGapDays` apart. */
  ghost predicate CloseWithinRange(dates: seq<Day>, r: seq<DateRange>)
  {
    forall i, k {:trigger SpansStep(r[k], dates, i)} ::
      0 <= i < |dates| - 1 && 0 <= k < |r| && SpansStep(r[k], dates, i) ==> Step(dates, i) <= MaxGapDays
  }

  /** Calendar days from the end of range `k` to the start of range `k + 1`. */
  function Separation(r: seq<DateRange>, k: int): int
    requires 0 <= k < |r| - 1
  {
    r[k + 1].start - r[k].end
  }

  /** Calendar days from input date `i` to input date `i + 1`. */
  function Step(dates: seq<Day>, i: int): int
    requires 0 <= i < |dates| - 1
  {
    dates[i + 1] - dates[i]
  }

  /** Input dates `i` and `i + 1` both lie in range `g`. */
  predicate SpansStep(g: DateRange, dates: seq<Day>, i: int)
    requires 0 <= i < |dates| - 1
  {
    g.start <= dates[i] && dates[i + 1] <= g.end
  }

  /** How many adjacent input dates are more than `MaxGapDays` apart. */
  function WideSteps(dates: seq<Day>): nat
    decreases |dates|
  {
    if |dates| <= 1 then 0
    else
      WideSteps(dates[..|dates| - 1])
        + (if dates[|dates| - 1] - dates[|dates| - 2] > MaxGapDays then 1 else 0)
  }

  /** Reading one more date is one more loop iteration. */
  lemma ScanSnoc(init: seq<Day>, next: Day)
    requires init != []
    ensures Scan(init + [next]) == Extend(Scan(init), next)
  {
    assert (init + [next])[..|init|] == init;
  }

  /** A non-empty list gives one range plus one more for every step wider
      than `MaxGapDays`; this holds for any input order. */
  lemma {:induction false} GroupCount(dates: seq<Day>)
    requires dates != []
    ensures |Group(dates)| == 1 + WideSteps(dates)
    decreases |dates|
  {
    if |dates| > 1 {
      var init := dates[..|dates| - 1];
      GroupCount(init);
      assert init[|init| - 1] == dates[|dates| - 2];
    }
  }

  /** Ranges are ascending and pairwise disjoint. */
  lemma RangesAscending(r: seq<DateRange>, k1: int, k2: int)
    requires NonEmptyRanges(r) && RangesSeparated(r)
    requires 0 <= k1 < k2 < |r|
    ensures r[k1].end < r[k2].start
    decreases k2 - k1
  {
    assert Separation(r, k1) > MaxGapDays;
    if k1 + 1 < k2 {
      RangesAscending(r, k1 + 1, k2);
    }
  }

  /** Every input date lies in exactly one range of `Group`. */
  lemma GroupPartitions(dates: seq<Day>, i: int)
    requires StrictlyIncreasing(dates)
    requires 0 <= i < |dates|
    ensures exists k :: 0 <= k < |Group(dates)| && InRange(Group(dates)[k], dates[i])
    ensures forall k1, k2 ::
      (0 <= k1 < |Group(dates)| && 0 <= k2 < |Group(dates)|
       && InRange(Group(dates)[k1], dates[i]) && InRange(Group(dates)[k2], dates[i])) ==> k1 == k2
  {
    var r := Group(dates);
    GroupCoversAllDates(dates);
    GroupNonEmptyRanges(dates);
    GroupRangesSeparated(dates);
    forall k1, k2 | 0 <= k1 < |r| && 0 <= k2 < |r| && InRange(r[k1], dates[i]) && InRange(r[k2], dates[i])
      ensures k1 == k2
    {
      if k1 < k2 {
        RangesAscending(r, k1, k2);
      } else if k2 < k1 {
        RangesAscending(r, k2, k1);
      }
    }
  }

  /** A date more than `MaxGapDays` away from both of its neighbours forms
      a range of its own, with `start == end`: single-day ranges are kept. */
  lemma IsolatedDateIsOwnRange(dates: seq<Day>, i: int)
    requires StrictlyIncreasing(dates)
    requires 0 <= i < |dates|
    requires i > 0 ==> dates[i] - dates[i - 1] > MaxGapDays
    requires i < |dates| - 1 ==> dates[i + 1] - dates[i] > MaxGapDays
    ensures DateRange(dates[i], dates[i]) in Group(dates)
  {
    var r := Group(dates);
    assert exists k :: 0 <= k < |r| && InRange(r[k], dates[i]) by {
      GroupCoversAllDates(dates);
    }
    var k :| 0 <= k < |r| && InRange(r[k], dates[i]);
    assert r[k].start in dates && r[k].end in dates by {
      GroupEndsAreInputDates(dates);
    }
    var a :| 0 <= a < |dates| && dates[a] == r[k].start;
    var b :| 0 <= b < |dates| && dates[b] == r[k].end;
    assert a <= i <= b;
    assert a < i ==> dates[a] <= dates[i - 1] && SpansStep(r[k], dates, i - 1);
    assert i < b ==> dates[i + 1] <= dates[b] && SpansStep(r[k], dates, i);
    GroupCloseWithinRange(dates);
    assert r[k] == DateRange(dates[i], dates[i]);
  }

  /** Missing dates that follow one another business day by business day,
      across weekends, make a single range from the first to the last. */
  lemma {:induction false} BusinessDayRunIsOneRange(dates: seq<Day>)
    requires dates != []
    requires forall i :: 0 <= i < |dates| - 1 ==> dates[i + 1] == NextBusinessDay(dates[i])
    ensures Group(dates) == [DateRange(dates[0], dates[|dates| - 1])]
    decreases |dates|
  {
    if |dates| > 1 {
      var init := dates[..|dates| - 1];
      assert forall i :: 0 <= i < |init| ==> init[i] == dates[i];
      BusinessDayRunIsOneRange(init);
      var g := Scan(init);
      assert Ranges(g) == [DateRange(dates[0], dates[|dates| - 2])];
      assert Ranges(g)[|g.closed|] == g.current;
      assert dates[|dates| - 1] == NextBusinessDay(dates[|dates| - 2]);
    }
  }

  /** `Group` meets every promise above. */
  lemma GroupIsValid(dates: seq<Day>)
    requires StrictlyIncreasing(dates)
    ensures ValidGrouping(dates, Group(dates))
  {
    GroupNonEmptyRanges(dates);
    GroupEndsAreInputDates(dates);
    GroupRangesSeparated(dates);
    GroupCoversAllDates(dates);
    GroupCloseWithinRange(dates);
  }

  /** The facts about a list that the inductive steps below rely on: the
      last date of `init` is its largest, and `next` is later still. */
  lemma SortedSnoc(dates: seq<Day>)
    requires StrictlyIncreasing(dates) && |dates| > 1
    ensures var init, next := dates[..|dates| - 1], dates[|dates| - 1];
      && dates == init + [next]
      && StrictlyIncreasing(init)
      && (forall j :: 0 <= j < |init| ==> init[j] <= init[|init| - 1] < next)
  {
  }

  lemma {:induction false} GroupNonEmptyRanges(dates: seq<Day>)
    requires StrictlyIncreasing(dates)
    ensures NonEmptyRanges(Group(dates))
    decreases |dates|
  {
    if |dates| > 1 {
      var init := dates[..|dates| - 1];
      SortedSnoc(dates);
      GroupNonEmptyRanges(init);
      NonEmptyStep(Scan(init), dates[|dates| - 1]);
    }
  }

  lemma NonEmptyStep(g: Grouping, next: Day)
    requires NonEmptyRanges(Ranges(g))
    requires g.current.end < next
    ensures NonEmptyRanges(Ranges(Extend(g, next)))
  {
    var r, r' := Ranges(g), Ranges(Extend(g, next));
    assert r[|r| - 1] == g.current;
    assert forall k :: 0 <= k < |g.closed| ==> r[k] == g.closed[k] && r'[k] == g.closed[k];
  }

  lemma {:induction false} GroupEndsAreInputDates(dates: seq<Day>)
    ensures EndsAreInputDates(dates, Group(dates))
    decreases |dates|
  {
    if |dates| > 1 {
      var init := dates[..|dates| - 1];
      assert dates == init + [dates[|dates| - 1]];
      GroupEndsAreInputDates(init);
      EndsStep(init, dates[|dates| - 1], Scan(init));
    }
  }

  lemma EndsStep(init: seq<Day>, next: Day, g: Grouping)
    requires EndsAreInputDates(init, Ranges(g))
    ensures EndsAreInputDates(init + [next], Ranges(Extend(g, next)))
  {
    var r, r' := Ranges(g), Ranges(Extend(g, next));
    assert forall x :: x in init ==> x in init + [next];
    assert next in init + [next];
    assert r[|r| - 1] == g.current;
    assert forall k :: 0 <= k < |g.closed| ==> r[k] == g.closed[k] && r'[k] == g.closed[k];
  }

  lemma {:induction false} GroupRangesSeparated(dates: seq<Day>)
    ensures RangesSeparated(Group(dates))
    decreases |dates|
  {
    if |dates| > 1 {
      var init := dates[..|dates| - 1];
      GroupRangesSeparated(init);
      SeparatedStep(Scan(init), dates[|dates| - 1]);
    }
  }

  lemma SeparatedStep(g: Grouping, next: Day)
    requires RangesSeparated(Ranges(g))
    ensures RangesSeparated(Ranges(Extend(g, next)))
  {
    var r, r' := Ranges(g), Ranges(Extend(g, next));
    assert r[|r| - 1] == g.current;
    assert forall k :: 0 <= k < |g.closed| ==> r[k] == g.closed[k] && r'[k] == g.closed[k];
    forall k | 0 <= k < |r'| - 1
      ensures Separation(r', k) > MaxGapDays
    {
      if k < |r| - 1 {
        assert Separation(r, k) > MaxGapDays;
      }
    }
  }

  lemma {:induction false} GroupCoversAllDates(dates: seq<Day>)
    requires StrictlyIncreasing(dates)
    ensures CoversAllDates(dates, Group(dates))
    decreases |dates|
  {
    if |dates| > 1 {
      var init := dates[..|dates| - 1];
      SortedSnoc(dates);
      GroupCoversAllDates(init);
      GroupNonEmptyRanges(init);
      ScanShape(init);
      assert Group(init)[|Group(init)| - 1] == Scan(init).current;
      CoverStep(init, dates[|dates| - 1], Scan(init));
      assert dates == init + [dates[|dates| - 1]];
      assert Group(dates) == Ranges(Extend(Scan(init), dates[|dates| - 1]));
    } else if |dates| == 1 {
      assert Group(dates)[0] == DateRange(dates[0], dates[0]);
    }
  }

  lemma CoverStep(init: seq<Day>, next: Day, g: Grouping)
    requires CoversAllDates(init, Ranges(g))
    requires g.current.start <= g.current.end < next
    ensures CoversAllDates(init + [next], Ranges(Extend(g, next)))
  {
    var dates, r, r' := init + [next], Ranges(g), Ranges(Extend(g, next));
    assert r[|r| - 1] == g.current;
    assert InRange(r'[|r'| - 1], next);
    forall i | 0 <= i < |dates|
      ensures exists k :: 0 <= k < |r'| && InRange(r'[k], dates[i])
    {
      if i < |init| {
        assert dates[i] == init[i];
        var k :| 0 <= k < |r| && InRange(r[k], init[i]);
        if k < |g.closed| {
          assert r'[k] == g.closed[k] == r[k];
        } else {
          assert InRange(r'[k], dates[i]);
        }
      } else {
        assert InRange(r'[|r'| - 1], dates[i]);
      }
    }
  }

  lemma {:induction false} GroupCloseWithinRange(dates: seq<Day>)
    requires StrictlyIncreasing(dates)
    ensures CloseWithinRange(dates, Group(dates))
    decreases |dates|
  {
    if |dates| > 1 {
      var init := dates[..|dates| - 1];
      var g := Scan(init);
      SortedSnoc(dates);
      GroupCloseWithinRange(init);
      GroupEndsAreInputDates(init);
      EndsAtMost(init, Ranges(g));
      CloseStep(init, dates[|dates| - 1], g);
    }
  }

  /** Every range whose ends are input dates ends at or before the last,
      largest, input date. */
  lemma EndsAtMost(init: seq<Day>, r: seq<DateRange>)
    requires init != []
    requires forall j :: 0 <= j < |init| ==> init[j] <= init[|init| - 1]
    requires EndsAreInputDates(init, r)
    ensures forall k :: 0 <= k < |r| ==> r[k].end <= init[|init| - 1]
  {
    forall k | 0 <= k < |r|
      ensures r[k].end <= init[|init| - 1]
    {
      assert r[k].end in init;
    }
  }

  lemma CloseStep(init: seq<Day>, next: Day, g: Grouping)
    requires init != [] && g.current.end == init[|init| - 1] < next
    requires forall j :: 0 <= j < |init| ==> init[j] <= g.current.end
    requires forall k :: 0 <= k < |Ranges(g)| ==> Ranges(g)[k].end <= g.current.end
    requires CloseWithinRange(init, Ranges(g))
    ensures CloseWithinRange(init + [next], Ranges(Extend(g, next)))
  {
    var dates, r, r' := init + [next], Ranges(g), Ranges(Extend(g, next));
    assert r[|r| - 1] == g.current;
    assert forall k :: 0 <= k < |g.closed| ==> r[k] == g.closed[k] && r'[k] == g.closed[k];
    forall i, k | 0 <= i < |dates| - 1 && 0 <= k < |r'| && SpansStep(r'[k], dates, i)
      ensures Step(dates, i) <= MaxGapDays
    {
      if i < |init| - 1 {
        assert dates[i] == init[i] && dates[i + 1] == init[i + 1];
        if k < |g.closed| {
          assert SpansStep(r[k], init, i);
        } else {
          assert SpansStep(r[|r| - 1], init, i);
        }
      } else {
        assert dates[i] == g.current.end && dates[i + 1] == next;
      }
    }
  }
}
