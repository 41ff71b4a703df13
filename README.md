# psx-data-reader core, modelled in Dafny

This project models the decision logic of four scripts of the PSX data
reader. None of the database or network I/O is modelled.

- **Gap detector** (`find_missing_data.py`):
  - `find_missing_dates` lists the Monday-to-Friday dates of a window that
    have no stored price record for a symbol.
  - `group_missing_dates` merges a sorted list of dates into ranges. A date
    at most three calendar days after the current range's end extends that
    range; any other date opens a new range.
  - The batch loop of `main` reads the `stocks` collection one batch at a
    time through `get_stock_symbols`. It records the grouped ranges of every
    symbol that has gaps, counts those symbols, and stops at the first empty
    batch or after `max(FINHISAAB_MAX_BATCHES, 1)` batches: the cap is
    tested only after a batch, so a cap of 0 still processes one.
- **Dividend scraper** (`dividend_scraper.py`) turns the records of the
  announcements endpoint into announcement rows:
  - `_parse_records` walks the record list;
  - `parse_announcement` handles one record;
  - `parse_date` tries six formats in order;
  - `_parse_percentage` reads the dividend text as a number.
- **Dividend store** (`dividend_store.py`): `process_announcements` splits
  the rows into dividend documents and bonus documents.
- **Symbol sync** (`sync_symbols.py`), in `main`:
  - it filters the upstream symbol list into a dictionary, where a later
    record with the same symbol replaces an earlier one;
  - it finds the symbols the collection lacks;
  - it stops when there are none;
  - otherwise it builds the insert list in ascending symbol order.

  `add_missing_symbols` returns early on an empty list.

Modelling conventions:

- **Dates** are integers counting days from 1970-01-01, a Thursday.
  Stored `datetime`s are integers counting microseconds.
- **Monetary amounts** are `real`.
- **Inputs that stand in for the database:**
  - the stored timestamps of a symbol, or `None` when the query raised;
  - the list of stocks in query order;
  - the set of batch numbers whose query raises;
  - the stored `stocks` collection.
- **Library calls that become parameters:** `datetime.strptime` and `float`.
  Each returns `None` where Python raises `ValueError`.
- **Shape of the model:**
  - every Python loop is a Dafny method with a loop;
  - each method is proved equal to a specification function, or its
    `ensures` states the property directly;
  - the lemmas prove what the scripts promise about those functions.

Two facts about the grouping are easy to miss:

- `group_missing_dates` keeps single-day ranges and knows no holiday
  calendar: every Monday-to-Friday date is expected
  (`IsolatedDateIsOwnRange`).
- The three-day tolerance compares calendar days. Two missing dates two
  days apart therefore share a range even when the business day between
  them is stored (`StoredDayInsideRange`).

## Model

| member | source | states |
|---|---|---|
| Calendar.Weekday | src/psx/find_missing_data.py:79-80 | the weekday of a date lies in 0..6; the numbering is `date.weekday()`'s, by `WeekdayAnchors` |
| Calendar.WeekdayAnchors | src/psx/find_missing_data.py:79-80 | day 0 (1970-01-01) has weekday 3, a Thursday, and day 20089 (2025-01-01) weekday 2, a Wednesday |
| Calendar.IsBusinessDay | src/psx/find_missing_data.py:79-80 | the Monday-to-Friday filter of `bdate_range`; proved in `NextBusinessDayWithinThree`, `AbsentBusinessDaysSpec` |
| Calendar.DayOf | src/psx/find_missing_data.py:76 | `.date()` of a stored timestamp; proved in `DayOfWithinDay` |
| Calendar.StartOfDay | src/psx/find_missing_data.py:62 | `combine(d, time.min)`; proved in `DayOfWithinDay` |
| Calendar.EndOfDay | src/psx/find_missing_data.py:63 | `combine(d, time.max)`; proved in `DayOfWithinDay` |
| Calendar.WeekdayNext | src/psx/find_missing_data.py:79-80 | the weekday advances by one a day, Sunday wrapping to Monday |
| Calendar.DayOfWithinDay | src/psx/find_missing_data.py:62-76 | a timestamp lies between `combine(d, time.min)` and `combine(d, time.max)` exactly when its `.date()` is `d` |
| Calendar.NextBusinessDayWithinThree | src/psx/find_missing_data.py:109-112 | after a business day the next business day comes one or three days later, three only from a Friday |
| Calendar.NextBusinessDay | src/psx/find_missing_data.py:109-112 | the first business day after `d` is at most three days later, with no business day in between |
| Text.IsSpace | src/psx/sync_symbols.py:66 | the characters `str.isspace()` accepts, which `strip()` removes; proved in `Strip` |
| Text.Strip | src/psx/sync_symbols.py:66 | `strip()` keeps a contiguous middle whose cut ends are all whitespace, does not start or end with whitespace, and is empty exactly for all-whitespace input |
| Text.StripIdempotent | src/psx/dividend_store.py:64 | stripping an already stripped string changes nothing |
| Text.RemoveAll | src/psx/dividend_scraper.py:276 | `replace('%', '')` keeps every other character with its multiplicity, removes every `c`, returns a string without `c` unchanged, and never lengthens the string |
| Text.RemoveAllSingle | src/psx/dividend_scraper.py:276 | on one character, `replace` drops it exactly when it is `c`; with `RemoveAllAppend` this fixes the result, order included, on every string |
| Text.RemoveAllAppend | src/psx/dividend_scraper.py:276 | removing `%` from `a + b` removes it from each part |
| Text.LowerAscii | src/psx/sync_symbols.py:67 | `LowerAscii` keeps the length and lowercases each ASCII letter in place; `LowerFindsEitherCase` is what the name test relies on |
| Text.LowerFindsEitherCase | src/psx/sync_symbols.py:67 | `'(r)' in name.lower()` holds exactly when the name contains `(r)` or `(R)` |
| Text.Contains | src/psx/sync_symbols.py:67 | Python's `sub in s`: `sub` occurs at some position of `s`; proved in `LowerFindsEitherCase` |
| Sequences.FilterMap | src/psx/dividend_scraper.py:142-150 | a loop that appends what each input yields builds a list no longer than its input |
| Sequences.FilterMapSnoc | src/psx/dividend_scraper.py:143-147 | one more input appends exactly what it yields |
| Sequences.FilterMapPrefix | src/psx/dividend_store.py:58-109 | one loop iteration over input `i` extends the list by what input `i` yields |
| Sequences.FilterMapAppend | src/psx/dividend_scraper.py:142-150 | the list for `xs + ys` is the list for `xs` followed by the list for `ys`, so input order is kept |
| Sequences.FilterMapMember | src/psx/dividend_scraper.py:142-150 | an element is in the list exactly when some input yields it |
| Sequences.FilterMapEmpty | src/psx/dividend_scraper.py:142-150 | the list is empty exactly when no input yields anything |
| Sequences.StrictlyIncreasingUnique | src/psx/find_missing_data.py:83 | a set of dates has only one strictly ascending listing, so `sorted(list(...))` is well defined |
| MissingDates.ExpectedDates | src/psx/find_missing_data.py:79-80 | `pd.bdate_range(start, end)` as a set: the Monday-to-Friday dates from `start` to `end` inclusive; proved in `AbsentBusinessDaysSpec` |
| MissingDates.PresentDays | src/psx/find_missing_data.py:76 | `{doc['date'].date() for doc in docs}`: the calendar days of the stored timestamps; proved in `AbsentBusinessDaysSpec`, `FindMissingDatesSpec` |
| MissingDates.QueryWindow | src/psx/find_missing_data.py:62-73 | the stored timestamps the query returns, from the first instant of `start` to the last instant of `end`; proved in `WindowKeepsExpectedDays` |
| MissingDates.AbsentBusinessDays | src/psx/find_missing_data.py:79-83 | the walk over `lo..hi` yields at most one date per calendar day |
| MissingDates.AbsentBusinessDaysSpec | src/psx/find_missing_data.py:79-83 | the walk lists in strictly ascending order exactly the business days of `lo..hi` absent from the present days |
| MissingDates.WindowKeepsExpectedDays | src/psx/find_missing_data.py:62-76 | restricting the query to `[start 00:00, end 23:59:59.999999]` does not change which days of the window count as present |
| MissingDates.FindMissingDates | src/psx/find_missing_data.py:50-92 | a failed query gives `[]`; the result has at most one date per day of the window |
| MissingDates.FindMissingDatesSpec | src/psx/find_missing_data.py:76-85 | the result is strictly ascending and holds exactly the expected business days with no stored record, whatever the time of day |
| MissingDates.FindMissingDatesIsSortedDifference | src/psx/find_missing_data.py:83 | the result equals any strictly ascending listing of `expected - present`, which is what `sorted` returns |
| MissingDates.MissingDateIsUncoveredWeekday | src/psx/find_missing_data.py:76-83 | each missing date is a business day of the window, and no stored timestamp falls anywhere in that day |
| MissingDates.CompleteCoverageHasNoGaps | src/psx/find_missing_data.py:76-85 | no date is missing exactly when every business day of the window has a stored record at some time of that day |
| DateRanges.Extend | src/psx/find_missing_data.py:107-120 | one loop iteration: a date at most three days after the open range's end extends it, any other date closes it and opens a single-day range; proved in `ScanSnoc`, `GroupPartitions` |
| DateRanges.Scan | src/psx/find_missing_data.py:102-120 | the loop state after reading every date, starting from a single-day range on the first date; proved in `ScanShape`, `GroupPartitions` |
| DateRanges.Ranges | src/psx/find_missing_data.py:122-128 | the closed ranges with the open one appended last; proved in `GroupShape` |
| DateRanges.Group | src/psx/find_missing_data.py:99-128 | `[]` for no dates; otherwise the closed ranges followed by the open one; proved in `GroupIsValid`, `GroupPartitions`, `GroupCoversAllDates` |
| DateRanges.ScanShape | src/psx/find_missing_data.py:103-120 | the open range ends at the last date read, and fewer ranges are closed than dates read |
| DateRanges.GroupShape | src/psx/find_missing_data.py:99-128 | there are no more ranges than dates, none exactly for an empty list, and the last range ends at the last date |
| DateRanges.GroupMissingDates | src/psx/find_missing_data.py:94-128 | the loop over `current_start`/`current_end` returns exactly `Group` of its input |
| DateRanges.ScanSnoc | src/psx/find_missing_data.py:106-120 | reading one more date is one more loop iteration |
| DateRanges.GroupCount | src/psx/find_missing_data.py:111-120 | there is one range plus one more for every step wider than three days, for any input |
| DateRanges.RangesAscending | src/psx/find_missing_data.py:112-120 | proper, separated ranges are ascending and pairwise disjoint |
| DateRanges.GroupPartitions | src/psx/find_missing_data.py:94-128 | for a sorted input, every missing date lies in exactly one range |
| DateRanges.IsolatedDateIsOwnRange | src/psx/find_missing_data.py:114-126 | a date more than three days from both neighbours forms a single-day range, and that range is kept |
| DateRanges.BusinessDayRunIsOneRange | src/psx/find_missing_data.py:109-113 | dates that follow one another business day by business day, across weekends, form a single range from first to last |
| DateRanges.GroupIsValid | src/psx/find_missing_data.py:94-128 | for a sorted input the ranges are proper, start and end on input dates, are separated by more than three days, cover every date, and join only steps of at most three days |
| DateRanges.SortedSnoc | src/psx/find_missing_data.py:94-96 | in a sorted list, the last date bounds all earlier ones |
| DateRanges.GroupNonEmptyRanges | src/psx/find_missing_data.py:111-120 | for a sorted input every range has `start <= end` |
| DateRanges.NonEmptyStep | src/psx/find_missing_data.py:111-120 | one iteration with a later date keeps every range proper |
| DateRanges.GroupEndsAreInputDates | src/psx/find_missing_data.py:103-120 | range starts and ends are input dates |
| DateRanges.EndsStep | src/psx/find_missing_data.py:111-120 | one iteration keeps range ends among the dates read |
| DateRanges.GroupRangesSeparated | src/psx/find_missing_data.py:111-120 | each range starts more than three days after the previous one ends |
| DateRanges.SeparatedStep | src/psx/find_missing_data.py:111-120 | one iteration keeps the closed ranges separated |
| DateRanges.GroupCoversAllDates | src/psx/find_missing_data.py:94-128 | for a sorted input every date lies in some range |
| DateRanges.CoverStep | src/psx/find_missing_data.py:111-120 | one iteration keeps every date read inside some range |
| DateRanges.GroupCloseWithinRange | src/psx/find_missing_data.py:111-113 | two adjacent dates inside one range are at most three days apart |
| DateRanges.EndsAtMost | src/psx/find_missing_data.py:111-120 | ranges ending on input dates end no later than the largest date read |
| DateRanges.CloseStep | src/psx/find_missing_data.py:111-120 | one iteration keeps adjacent dates within a range at most three days apart |
| MissingReport.SkipAmount | src/psx/find_missing_data.py:33 | the number of stocks the query skips, one batch per earlier batch; proved in `SkipAmountIsProduct` |
| MissingReport.SkipAmountIsProduct | src/psx/find_missing_data.py:33 | the batch skips `(batch_number - 1) * batch_size` symbols |
| MissingReport.GetStockSymbols | src/psx/find_missing_data.py:22-48 | a failed query gives `[]`; a positive batch size bounds the batch |
| MissingReport.Window | src/psx/find_missing_data.py:36-41 | the window of the result holds `hi - lo` symbols |
| MissingReport.WindowIsSlice | src/psx/find_missing_data.py:36-41 | the window is the slice `stocks[lo..hi]` |
| MissingReport.GetStockSymbolsIsSlice | src/psx/find_missing_data.py:33-41 | a successful query returns the slice after the skipped symbols, at most `batch_size` long; `limit(0)` returns all the rest |
| MissingReport.Batch | src/psx/find_missing_data.py:160-165 | the symbols pass `b` receives from `get_stock_symbols`, `[]` when its query fails; proved in `GetStockSymbolsIsSlice`, `BatchIsNextSlice` |
| MissingReport.NonEmptyBatchSucceeded | src/psx/find_missing_data.py:33-45 | a batch with symbols came from a query that did not fail, over a non-empty collection |
| MissingReport.StoppingPass | src/psx/find_missing_data.py:159-168 | a pass whose query returns nothing for any batch size exists exactly when there are no stocks or some pass fails |
| MissingReport.NonEmptyBatchAdvances | src/psx/find_missing_data.py:160-168 | a non-empty batch starts inside the list, and the next batch starts `batch_size` later |
| MissingReport.NonEmptyBatches | src/psx/find_missing_data.py:167-168 | no `break` at an empty batch up to batch `n`; proved in `NonEmptyBatchesAll` |
| MissingReport.NonEmptyBatchesAll | src/psx/find_missing_data.py:167-168 | after `n` passes without a `break`, none of batches `1..n` was empty |
| MissingReport.Batches | src/psx/find_missing_data.py:159-189 | the symbols the loop visits in batches `1..n`, in order; proved in `BatchesArePrefix`, `ExhaustedBatchesCoverAllStocks` |
| MissingReport.BatchesSnoc | src/psx/find_missing_data.py:159-189 | one more pass appends that batch's symbols |
| MissingReport.BatchIsNextSlice | src/psx/find_missing_data.py:33-41 | a successful batch is the slice between what it skips and what the next batch skips |
| MissingReport.BatchesArePrefix | src/psx/find_missing_data.py:153-189 | with no failed query, batches `1..n` visit the stocks in order with nothing skipped or repeated |
| MissingReport.ExhaustedBatchesCoverAllStocks | src/psx/find_missing_data.py:159-168 | a loop stopped by an empty, successful batch has visited every stock exactly once |
| MissingReport.Missing | src/psx/find_missing_data.py:173-176 | the missing dates `find_missing_dates` gives a symbol in the checked window; proved in `FindMissingDatesSpec` |
| MissingReport.ReportFrom | src/psx/find_missing_data.py:172-181 | `all_missing_data` after visiting `symbols`: each visited symbol with missing dates is (re)assigned their grouping; proved in `ReportFromEntries`, `ReportFromAppend` |
| MissingReport.Report | src/psx/find_missing_data.py:156-181 | the report built from the empty map; proved in `ReportEntries` |
| MissingReport.ReportFromEntries | src/psx/find_missing_data.py:172-181 | a symbol has an entry exactly when it had one before or was visited with gaps; a visited symbol with gaps holds their grouping, and other entries are untouched |
| MissingReport.ReportEntries | src/psx/find_missing_data.py:172-181 | `all_missing_data` holds exactly the visited symbols with missing dates, each mapped to the grouping of its dates |
| MissingReport.ReportFromAppend | src/psx/find_missing_data.py:159-181 | visiting `a` and then `b` is visiting `a + b` |
| MissingReport.GapCount | src/psx/find_missing_data.py:178-181 | the gap count never exceeds the number of visits |
| MissingReport.GapCountAppend | src/psx/find_missing_data.py:178-181 | the count over `a + b` is the sum of the two counts |
| MissingReport.GapCountIsReportSize | src/psx/find_missing_data.py:156-181 | with no symbol visited twice, `total_symbols_with_gaps` equals the number of report entries |
| MissingReport.ScanBatch | src/psx/find_missing_data.py:172-186 | the batch loop records every symbol with gaps and adds its count to the total |
| MissingReport.BatchReport | src/psx/find_missing_data.py:159-189 | the report after batches `1..n`, extended batch by batch; proved in `BatchReportIsReport` |
| MissingReport.BatchGaps | src/psx/find_missing_data.py:159-189 | the gap count after batches `1..n`, extended batch by batch; proved in `GapCountIsReportSize`, `BatchReportIsReport` |
| MissingReport.BatchReportIsReport | src/psx/find_missing_data.py:159-189 | the report and count built batch by batch equal those built symbol by symbol over all visited symbols |
| MissingReport.BatchStep | src/psx/find_missing_data.py:172-189 | one more batch extends the report and the count by that batch |
| MissingReport.PassKeepsInvariant | src/psx/find_missing_data.py:159-189 | one pass of the `while True` body keeps the report and the count equal to those of the processed batches |
| MissingReport.PassAdvances | src/psx/find_missing_data.py:167-193 | a pass that does not break processes one more batch, below the cap and further into the list; a break with batches left comes only from reaching the cap; no pass goes past the cap, or past 1 when the cap is 0 |
| MissingReport.ProcessBatch | src/psx/find_missing_data.py:160-193 | one pass: read the batch, `break` when it is empty, otherwise scan it and advance the counters; the loop invariant and the cap bound are kept |
| MissingReport.FindMissingData | src/psx/find_missing_data.py:153-193 | the loop ends in every run the source ends, a batch size of 0 with no cap included; the report and count are those of the processed batches, all of them non-empty; at most `max(cap, 1)` batches are processed; the loop stopped at an empty batch or at the cap |
| MissingReport.StoredDayInsideRange | src/psx/find_missing_data.py:76-120 | with Monday and Wednesday missing and only Tuesday stored, the missing list is those two dates and they form one range from Monday to Wednesday |
| MissingReport.ExhaustedLoopReportsAllStocks | src/psx/find_missing_data.py:153-198 | an uncapped loop with no failed query reports and counts every stock with missing dates |
| DividendScraper.Formats | src/psx/dividend_scraper.py:243-250 | the six formats in the order `parse_date` tries them; proved in `TryFormatsFirstSuccess`, `FormatsAreDistinct` |
| DividendScraper.FormatsAreDistinct | src/psx/dividend_scraper.py:243-250 | the six directive strings are pairwise distinct, and every format is tried |
| DividendScraper.Directive | src/psx/dividend_scraper.py:243-250 | the `strptime` directive string of each of the six formats; proved in `FormatsAreDistinct` |
| DividendScraper.TryFormats | src/psx/dividend_scraper.py:252-257 | the value of the first format, in list order, in which the string parses; proved in `TryFormatsFirstSuccess` |
| DividendScraper.ParsedDate | src/psx/dividend_scraper.py:226-259 | `None` for an empty string, otherwise `TryFormats` on the stripped string over the six formats; proved in `ParsedDateSpec` |
| DividendScraper.TryFormatsFirstSuccess | src/psx/dividend_scraper.py:252-259 | the result is that of the first format that parses, every earlier one having failed; there is none exactly when all fail |
| DividendScraper.ParsedDateSpec | src/psx/dividend_scraper.py:239-259 | an empty string gives `None`; otherwise the stripped string is parsed by the first accepting format, and `None` comes only when no format accepts it |
| DividendScraper.ParseDate | src/psx/dividend_scraper.py:226-259 | the loop with its early return computes `ParsedDate` |
| DividendScraper.ParsePercentage | src/psx/dividend_scraper.py:261-280 | `0.0` for an empty string; otherwise the text with every `%` removed and stripped, as `float` reads it, and `0.0` when that raises; proved in `ParsePercentageIgnoresPercentSigns` |
| DividendScraper.ParsePercentageIgnoresPercentSigns | src/psx/dividend_scraper.py:271-277 | a leading or trailing `%` leaves the value unchanged |
| DividendScraper.KindName | src/psx/dividend_scraper.py:198-204 | the strings `"dividend"`, `"bonus"` and `"right"` appended to `announcement_types`; proved in `KindNamesDistinct` |
| DividendScraper.KindNamesDistinct | src/psx/dividend_scraper.py:198-204 | two kinds have the same name exactly when they are the same kind, so testing the names, as `dividend_store.py` does, is testing the kinds |
| DividendScraper.AnnouncementTypes | src/psx/dividend_scraper.py:198-204 | the kinds whose stripped field is non-empty, in the order dividend, bonus, right; proved in `AnnouncementTypesSpec` |
| DividendScraper.AnnouncementTypesSpec | src/psx/dividend_scraper.py:198-204 | a kind is listed exactly when its field is non-empty; the order is dividend, bonus, right; the list is empty exactly when all three fields are |
| DividendScraper.Field | src/psx/dividend_scraper.py:176-182 | `record.get(key, '').strip()`: `""` for an absent key, the stripped string for a string, `None` where `strip` raises; proved in `ReadFieldsSpec` |
| DividendScraper.ReadFields | src/psx/dividend_scraper.py:176-182 | the seven field reads, `None` on a record that is not an object or when one read raises; proved in `ReadFieldsSpec` |
| DividendScraper.ReadFieldsSpec | src/psx/dividend_scraper.py:176-182 | the reads hold the stripped strings, absent keys reading as `""`; they fail exactly on a non-object or on a non-string under one of the seven read keys, whatever other keys hold |
| DividendScraper.AnnouncementFrom | src/psx/dividend_scraper.py:184-220 | the skips and the row built once the fields are read; proved in `AnnouncementFromSpec` |
| DividendScraper.AnnouncementOf | src/psx/dividend_scraper.py:155-224 | `parse_announcement` as a function: the reads, then `AnnouncementFrom`; an exception gives `None`; proved in `AnnouncementFromSpec`, `ReadFieldsSpec` |
| DividendScraper.AnnouncementFromSpec | src/psx/dividend_scraper.py:184-220 | a record yields a row exactly when it has a symbol, an ex-date some format accepts and at least one announced kind; the row holds the fields as read, the parsed date and the dividend as `_parse_percentage` reads it |
| DividendScraper.ParseAnnouncement | src/psx/dividend_scraper.py:155-224 | the method computes `AnnouncementOf`; any exception gives `None` |
| DividendScraper.RecordsOf | src/psx/dividend_scraper.py:134 | `response_data.get('d', response_data)`; proved in `ParsedRecordsSpec` |
| DividendScraper.ParsedRecords | src/psx/dividend_scraper.py:133-153 | `[]` unless the records are a list; otherwise the announcements of the records that yield one, in record order; proved in `ParsedRecordsSpec`, `ParsedRecordsAppend` |
| DividendScraper.ParsedRecordsSpec | src/psx/dividend_scraper.py:133-153 | records that are not a list give `[]`; otherwise there are at most as many rows as records, and a row is exactly an announcement some record yields |
| DividendScraper.ParsedRecordsAppend | src/psx/dividend_scraper.py:142-150 | splitting the record list splits the rows the same way, in order |
| DividendScraper.ParseRecords | src/psx/dividend_scraper.py:123-153 | the loop computes `ParsedRecords` |
| DividendStore.MetadataOf | src/psx/dividend_store.py:68-71 | `base_metadata`: source `scstrade` and the sector note; proved in `DividendOfSpec`, `BonusOfSpec` |
| DividendStore.DividendOf | src/psx/dividend_store.py:64-89 | the dividend document of a row, `None` for a blank symbol, no dividend announced or an amount that is not positive; proved in `DividendOfSpec`, `BlankSymbolYieldsNothing` |
| DividendStore.BonusText | src/psx/dividend_store.py:94 | `str(row['bonus']).replace('%', '').strip()`; proved in `BonusOfSpec` |
| DividendStore.BonusOf | src/psx/dividend_store.py:64-109 | the bonus document of a row, `None` unless it has a symbol, announces a non-empty bonus and the cleaned text reads as a positive number; proved in `BonusOfSpec`, `BlankSymbolYieldsNothing` |
| DividendStore.Dividends | src/psx/dividend_store.py:58-89 | the `dividends` list: the dividend documents of the rows, in row order; proved in `ListsSpec`, `ListsKeepRowOrder` |
| DividendStore.Bonuses | src/psx/dividend_store.py:58-109 | the `bonuses` list: the bonus documents of the rows, in row order; proved in `ListsSpec`, `ListsKeepRowOrder` |
| DividendStore.DividendOfSpec | src/psx/dividend_store.py:64-89 | a row yields a dividend exactly when it has a symbol, announces a dividend and the amount is positive; the ex-date doubles as the pay date and the status is `ANNOUNCED` |
| DividendStore.BonusOfSpec | src/psx/dividend_store.py:64-109 | a row yields a bonus exactly when it has a symbol, announces a non-empty bonus, and the `%`-free stripped text reads as a positive number; the type is `BONUS_SHARES` |
| DividendStore.BlankSymbolYieldsNothing | src/psx/dividend_store.py:64-66 | a row without a symbol adds to neither list |
| DividendStore.ListsSpec | src/psx/dividend_store.py:58-109 | each list has at most one document per row; a document is listed exactly when some row yields it; every listed document is `ANNOUNCED` with a positive amount, and every dividend pays on its ex-date |
| DividendStore.ListsKeepRowOrder | src/psx/dividend_store.py:58-109 | both lists keep row order |
| DividendStore.ProcessAnnouncements | src/psx/dividend_store.py:49-112 | no rows give two empty lists; otherwise the loop returns exactly `Dividends` and `Bonuses` |
| SymbolSync.GoodName | src/psx/sync_symbols.py:66-68 | the stripped name is non-empty, has no `(r)` after lowercasing, and is not `()`; proved in `LowerFindsEitherCase` |
| SymbolSync.Listable | src/psx/sync_symbols.py:62-68 | a record that is not debt and has a good name; proved in `CandidatesAreListable` |
| SymbolSync.Candidates | src/psx/sync_symbols.py:61-70 | `psx_symbols_dict` after the loop: each listable record under its symbol, a later one replacing an earlier one; proved in `CandidatesMember`, `CandidatesLastWins`, `CandidatesAreListable` |
| SymbolSync.CandidatesMember | src/psx/sync_symbols.py:61-70 | a symbol enters the dictionary exactly when some non-debt record with a good name carries it |
| SymbolSync.CandidatesLastWins | src/psx/sync_symbols.py:70 | the entry of a symbol is the last listable record carrying it |
| SymbolSync.CandidatesAreListable | src/psx/sync_symbols.py:61-70 | every entry is listable and carries its own key as its symbol |
| SymbolSync.BuildCandidates | src/psx/sync_symbols.py:61-70 | the filter loop computes `Candidates` |
| SymbolSync.Below | src/psx/sync_symbols.py:89 | Python's `<` on strings: code point by code point, a proper prefix first; proved in `BelowIrreflexive`, `BelowTransitive`, `BelowTotal`, `BelowAsymmetric` |
| SymbolSync.BelowIrreflexive | src/psx/sync_symbols.py:89 | no string sorts before itself |
| SymbolSync.BelowTransitive | src/psx/sync_symbols.py:89 | string order is transitive |
| SymbolSync.BelowTotal | src/psx/sync_symbols.py:89 | of two different strings, one sorts first |
| SymbolSync.BelowAsymmetric | src/psx/sync_symbols.py:89 | no two strings sort each before the other |
| SymbolSync.LeastExists | src/psx/sync_symbols.py:89 | every non-empty set of symbols has a least element |
| SymbolSync.AscendingUnique | src/psx/sync_symbols.py:89 | a set of symbols has only one ascending listing, so `sorted` is well defined |
| SymbolSync.SortedSymbols | src/psx/sync_symbols.py:89 | `sorted(s)` lists every element of `s` once, in strictly ascending order |
| SymbolSync.StoredSymbols | src/psx/sync_symbols.py:21-27 | `get_db_symbols`: the set of symbols of the stored documents; the missing set of `SyncSymbols` and `AddingClosesTheGap` is taken against it |
| SymbolSync.InsertList | src/psx/sync_symbols.py:86-91 | entry `i` of the insert list is the dictionary's record for symbol `i` of the sorted symbols |
| SymbolSync.SyncSymbols | src/psx/sync_symbols.py:61-91 | `None` exactly when no candidate is missing; otherwise one record per missing symbol, each the candidate for its symbol, in strictly ascending symbol order |
| SymbolSync.AddMissingSymbols | src/psx/sync_symbols.py:29-43 | an empty list leaves the collection as it is; otherwise the records are appended after the stored ones, all of them and in order |
| SymbolSync.AddingClosesTheGap | src/psx/sync_symbols.py:79-97 | after inserting the missing records, the stored symbols are the old ones plus the missing ones, and every candidate is stored, so a second run finds nothing missing |

## Left out

- Database and network access are not modelled. What a query returns is an input instead. A query that raises is an input flag per batch, or `None` per symbol. This covers:
  - MongoDB connections and queries;
  - `requests.get` and `insert_many`;
  - `save_announcements_to_mongodb`;
  - `create_indexes`.
- `print` and `logger` output are not modelled. This includes the "Analyzed N symbols" summary line and the symbol listing printed at `sync_symbols.py:90`.
- Environment variables and argument parsing are not modelled. The batch size, the cap `FINHISAAB_MAX_BATCHES` and the checked window are parameters. The `--add` flag is not modelled: whether `add_missing_symbols` runs is left to the caller.
- The clock is not modelled. `scraped_at`, `createdAt` and `updatedAt` are omitted from the rows and documents.
- `datetime.strptime` and `float` are abstract parameters. Floats are `real`, so NaN and infinities cannot be represented.
- The request and JSON decoding of `_make_request` are not modelled. Neither is the DataFrame built by `fetch_all_announcements`. Parsing starts from a decoded response object; a response that is not an object is not modelled.
- `DividendStore.DividendOf`: assumes the dividend is already a number. The scraper always provides one, so the `float()` failure at `dividend_store.py:88-89` cannot happen and is not modelled.
- The `sort('marketCap', -1)` order of `get_stock_symbols` is not computed. The stock list is given already in that order.
- `MissingReport.BatchesArePrefix` and `MissingReport.ExhaustedBatchesCoverAllStocks`: every batch query is a slice of one fixed stock list, so both assume that each `find().sort('marketCap', -1).skip().limit()` query sees the same collection in the same total order. MongoDB does not order documents with equal or missing `marketCap` consistently across queries, and the collection may change between queries; in the program a page can then repeat or skip a stock, which the model does not capture.
- `MissingReport.GetStockSymbols`: a stock document without a `symbol` field raises an uncaught `KeyError` at `s['symbol']` (`find_missing_data.py:41`); this is not modelled.
- `MissingReport.FindMissingData`: requires a positive batch size, a cap, an empty stock list or some failing pass. With `batch_size == 0` and no cap, `limit(0)` returns every stock on every pass, so the loop stops at the first pass whose query fails. The excluded runs are those with no such pass over a non-empty collection, where the source loops forever.
- `MissingReport.FindMissingData`: the batch size is a natural number. A negative `FINHISAAB_BATCH_SIZE` is not modelled.
- `MissingReport.FindMissingData`: `batch_number` is not kept as its own variable, because it always equals `processed_batches + 1`.
- Writing the report to `missing_data_report.json` is not modelled, because it is file I/O. The report map it dumps is modelled.
- Text handling is simplified:
  - `Text.LowerAscii` lowercases ASCII letters only. That is enough for the `'(r)' in name.lower()` test, because no other character lowercases to `(`, `r` or `)`.
  - Strings are sequences of code points. `strftime` formatting of the range ends is not modelled; ranges hold day numbers.
- `SymbolSync.Item`: upstream records are typed.
  - A missing `symbol` key, which raises `KeyError` in the source, is not modelled.
  - A non-string `name` is not modelled.
  - An `isDebt` value other than a boolean is not modelled.
