/** The batch loop of `main` in `find_missing_data.py`: symbols are read
    from the `stocks` collection one batch at a time (`get_stock_symbols`),
    each symbol's missing dates are found and grouped, and only symbols with
    gaps are recorded in the report. The database becomes inputs: the stock
    list in the order the query sorts it, the batch numbers whose symbol
    query raises, and each symbol's stored price timestamps. */
module MissingReport {
  import opened Wrappers
  import opened Calendar
  import opened MissingDates
  import opened DateRanges

  type Symbol = string

  function Min(a: int, b: int): int
  {
    if a <= b then a else b
  }

  function Max(a: int, b: int): int
  {
    if a >= b then a else b
  }

  /** How many symbols the query for batch `batchNumber` skips: the
      `batchSize` symbols of each earlier batch. */
  function SkipAmount(batchNumber: nat, batchSize: nat): nat
    requires batchNumber >= 1
  {
    if batchNumber == 1 then 0 else SkipAmount(batchNumber - 1, batchSize) + batchSize
  }

  /** `skip_amount = (batch_number - 1) * batch_size`. */
  lemma {:induction false} SkipAmountIsProduct(batchNumber: nat, batchSize: nat)
    requires batchNumber >= 1
    ensures SkipAmount(batchNumber, batchSize) == (batchNumber - 1) * batchSize
  {
    if batchNumber > 1 {
      SkipAmountIsProduct(batchNumber - 1, batchSize);
    }
  }

  /** `get_stock_symbols(..., batch_number, batch_size)` over `stocks`, the
      collection in query order: skip `(batch_number - 1) * batch_size`
      symbols and take at most `batch_size` (`limit(0)` takes all the
      rest); a failed query gives `[]`. */
  function GetStockSymbols(stocks: seq<Symbol>, failed: bool, batchNumber: nat, batchSize: nat): (r: seq<Symbol>)
    requires batchNumber >= 1
    ensures failed ==> r == []
    ensures batchSize > 0 ==> |r| <= batchSize
  {
    var skip := SkipAmount(batchNumber, batchSize);
    if failed || skip >= |stocks| then []
    else Window(stocks, skip, if batchSize == 0 then |stocks| else Min(skip + batchSize, |stocks|))
  }

  /** The symbols of `stocks` from index `lo` up to, not including, `hi`. */
  function Window(stocks: seq<Symbol>, lo: nat, hi: nat): (r: seq<Symbol>)
    requires lo <= hi <= |stocks|
    ensures |r| == hi - lo
    decreases hi - lo
  {
    if lo == hi then [] else Window(stocks, lo, hi - 1) + [stocks[hi - 1]]
  }

  /** `Window` is the slice `stocks[lo..hi]`. */
  lemma {:induction false} WindowIsSlice(stocks: seq<Symbol>, lo: nat, hi: nat)
    requires lo <= hi <= |stocks|
    ensures Window(stocks, lo, hi) == stocks[lo..hi]
    decreases hi - lo
  {
    if lo < hi {
      WindowIsSlice(stocks, lo, hi - 1);
      assert stocks[lo..hi] == stocks[lo..hi - 1] + [stocks[hi - 1]];
    }
  }

  /** A query that does not fail returns the slice of the stock list that
      starts after the skipped symbols and holds at most `batchSize` of
      them, all the rest when `batchSize` is 0. */
  lemma GetStockSymbolsIsSlice(stocks: seq<Symbol>, batchNumber: nat, batchSize: nat)
    requires batchNumber >= 1
    ensures var lo := Min(SkipAmount(batchNumber, batchSize), |stocks|);
            var hi := if batchSize == 0 then |stocks| else Min(lo + batchSize, |stocks|);
            GetStockSymbols(stocks, false, batchNumber, batchSize) == stocks[lo..hi]
  {
    var skip := SkipAmount(batchNumber, batchSize);
    if skip < |stocks| {
      WindowIsSlice(stocks, skip, if batchSize == 0 then |stocks| else Min(skip + batchSize, |stocks|));
    }
  }

  /** Batch `b` as the loop reads it, its query failing when `b in failing`. */
  function Batch(stocks: seq<Symbol>, failing: set<nat>, batchSize: nat, b: nat): seq<Symbol>
    requires b >= 1
  {
    GetStockSymbols(stocks, b in failing, b, batchSize)
  }

  /** A pass whose query returns nothing whatever the batch size: any pass
      when there are no stocks, otherwise a failing one; `0` when there is
      no such pass. */
  lemma StoppingPass(stocks: seq<Symbol>, failing: set<nat>) returns (p: nat)
    ensures p >= 1 <==> stocks == [] || exists b :: b >= 1 && b in failing
    ensures p >= 1 ==> stocks == [] || p in failing
  {
    if stocks == [] {
      p := 1;
    } else if exists b :: b >= 1 && b in failing {
      p :| p >= 1 && p in failing;
    } else {
      p := 0;
    }
  }

  /** A batch with symbols in it came from a query that did not fail, over
      a collection that is not empty. */
  lemma NonEmptyBatchSucceeded(stocks: seq<Symbol>, failing: set<nat>, batchSize: nat, b: nat)
    requires b >= 1
    requires Batch(stocks, failing, batchSize, b) != []
    ensures b !in failing && stocks != []
  {
  }

  /** A non-empty batch starts inside the stock list, and the next batch
      starts `batchSize` symbols later. */
  lemma NonEmptyBatchAdvances(stocks: seq<Symbol>, failing: set<nat>, batchSize: nat, b: nat)
    requires b >= 1
    requires Batch(stocks, failing, batchSize, b) != []
    ensures SkipAmount(b, batchSize) < |stocks|
    ensures SkipAmount(b + 1, batchSize) == SkipAmount(b, batchSize) + batchSize
  {
    GetStockSymbolsIsSlice(stocks, b, batchSize);
  }

  /** Batches `1` to `n` all hold symbols. */
  predicate NonEmptyBatches(stocks: seq<Symbol>, failing: set<nat>, batchSize: nat, n: nat)
  {
    n == 0 || (NonEmptyBatches(stocks, failing, batchSize, n - 1) && Batch(stocks, failing, batchSize, n) != [])
  }

  /** `NonEmptyBatches` says that no batch up to `n` is empty. */
  lemma {:induction false} NonEmptyBatchesAll(stocks: seq<Symbol>, failing: set<nat>, batchSize: nat, n: nat, b: nat)
    requires NonEmptyBatches(stocks, failing, batchSize, n)
    requires 1 <= b <= n
    ensures Batch(stocks, failing, batchSize, b) != []
  {
    if b < n {
      NonEmptyBatchesAll(stocks, failing, batchSize, n - 1, b);
    }
  }

  /** The symbols of batches `1` to `n`, in the order the loop visits them. */
  function Batches(stocks: seq<Symbol>, failing: set<nat>, batchSize: nat, n: nat): seq<Symbol>
  {
    if n == 0 then []
    else Batches(stocks, failing, batchSize, n - 1) + Batch(stocks, failing, batchSize, n)
  }

  /** One more batch appends its symbols. */
  lemma BatchesSnoc(stocks: seq<Symbol>, failing: set<nat>, batchSize: nat, n: nat)
    ensures Batches(stocks, failing, batchSize, n + 1)
         == Batches(stocks, failing, batchSize, n) + Batch(stocks, failing, batchSize, n + 1)
    ensures NonEmptyBatches(stocks, failing, batchSize, n + 1)
        <==> NonEmptyBatches(stocks, failing, batchSize, n) && Batch(stocks, failing, batchSize, n + 1) != []
  {
  }

  /** Batch `b`, its query not failing, is the slice of the stock list
      between the symbols batch `b` skips and those batch `b + 1` skips. */
  lemma BatchIsNextSlice(stocks: seq<Symbol>, failing: set<nat>, batchSize: nat, b: nat)
    requires batchSize > 0 && b >= 1 && b !in failing
    ensures Min(SkipAmount(b, batchSize), |stocks|) <= Min(SkipAmount(b + 1, batchSize), |stocks|)
    ensures Batch(stocks, failing, batchSize, b)
         == stocks[Min(SkipAmount(b, batchSize), |stocks|)..Min(SkipAmount(b + 1, batchSize), |stocks|)]
  {
    GetStockSymbolsIsSlice(stocks, b, batchSize);
  }

  /** When no query fails, batches `1` to `n` are the stocks before the
      ones batch `n + 1` skips: consecutive batches neither skip nor repeat
      a symbol. */
  lemma {:induction false} BatchesArePrefix(stocks: seq<Symbol>, failing: set<nat>, batchSize: nat, n: nat)
    requires batchSize > 0
    requires forall b :: 1 <= b <= n ==> b !in failing
    ensures Batches(stocks, failing, batchSize, n) == stocks[..Min(SkipAmount(n + 1, batchSize), |stocks|)]
  {
    if n > 0 {
      BatchesArePrefix(stocks, failing, batchSize, n - 1);
      BatchIsNextSlice(stocks, failing, batchSize, n);
      var lo := Min(SkipAmount(n, batchSize), |stocks|);
      var hi := Min(SkipAmount(n + 1, batchSize), |stocks|);
      assert Batches(stocks, failing, batchSize, n) == stocks[..lo] + stocks[lo..hi];
      assert stocks[..hi] == stocks[..lo] + stocks[lo..hi];
    }
  }

  /** A loop that stops at the first empty batch without a failed query has
      visited every stock exactly once, in order. */
  lemma ExhaustedBatchesCoverAllStocks(stocks: seq<Symbol>, failing: set<nat>, batchSize: nat, n: nat)
    requires batchSize > 0
    requires forall b :: 1 <= b <= n + 1 ==> b !in failing
    requires Batch(stocks, failing, batchSize, n + 1) == []
    ensures Batches(stocks, failing, batchSize, n) == stocks
  {
    BatchesArePrefix(stocks, failing, batchSize, n);
    GetStockSymbolsIsSlice(stocks, n + 1, batchSize);
    assert stocks[..|stocks|] == stocks;
  }

  /** The missing dates of `symbol` in the checked window. */
  function Missing(history: Symbol -> Option<set<Timestamp>>, start: Day, end: Day, symbol: Symbol): seq<Day>
  {
    FindMissingDates(start, end, history(symbol))
  }

  /** `all_missing_data` after the loop has visited `symbols`, starting from
      `report`: every visited symbol with missing dates is (re)assigned the
      grouping of those dates, in visiting order. */
  function ReportFrom(history: Symbol -> Option<set<Timestamp>>, start: Day, end: Day,
                      report: map<Symbol, seq<DateRange>>, symbols: seq<Symbol>): map<Symbol, seq<DateRange>>
    decreases |symbols|
  {
    if symbols == [] then report
    else
      var s := symbols[|symbols| - 1];
      var m := ReportFrom(history, start, end, report, symbols[..|symbols| - 1]);
      if Missing(history, start, end, s) != [] then m[s := Group(Missing(history, start, end, s))] else m
  }

  /** The report built from nothing over `symbols`. */
  function Report(history: Symbol -> Option<set<Timestamp>>, start: Day, end: Day, symbols: seq<Symbol>): map<Symbol, seq<DateRange>>
  {
    ReportFrom(history, start, end, map[], symbols)
  }

  /** A symbol has an entry after the visit exactly when it had one before
      or was visited with missing dates; a visited symbol with missing dates
      holds their grouping, any other entry is untouched. */
  lemma {:induction false} ReportFromEntries(history: Symbol -> Option<set<Timestamp>>, start: Day, end: Day,
                                             report: map<Symbol, seq<DateRange>>, symbols: seq<Symbol>, s: Symbol)
    ensures var r := ReportFrom(history, start, end, report, symbols);
      && (s in r <==> s in report || (s in symbols && Missing(history, start, end, s) != []))
      && (s in r ==> r[s] == if s in symbols && Missing(history, start, end, s) != []
                             then Group(Missing(history, start, end, s)) else report[s])
    decreases |symbols|
  {
    if symbols != [] {
      var init := symbols[..|symbols| - 1];
      assert symbols == init + [symbols[|symbols| - 1]];
      ReportFromEntries(history, start, end, report, init, s);
    }
  }

  /** A symbol has a report entry exactly when it was visited and has
      missing dates, and the entry is the grouping of those dates. */
  lemma ReportEntries(history: Symbol -> Option<set<Timestamp>>, start: Day, end: Day, symbols: seq<Symbol>, s: Symbol)
    ensures s in Report(history, start, end, symbols) <==> s in symbols && Missing(history, start, end, s) != []
    ensures s in Report(history, start, end, symbols) ==>
      Report(history, start, end, symbols)[s] == Group(Missing(history, start, end, s))
  {
    ReportFromEntries(history, start, end, map[], symbols, s);
  }

  /** Visiting `a` and then `b` is visiting `a + b`. */
  lemma {:induction false} ReportFromAppend(history: Symbol -> Option<set<Timestamp>>, start: Day, end: Day,
                                            report: map<Symbol, seq<DateRange>>, a: seq<Symbol>, b: seq<Symbol>)
    ensures ReportFrom(history, start, end, report, a + b)
         == ReportFrom(history, start, end, ReportFrom(history, start, end, report, a), b)
    decreases |b|
  {
    if b == [] {
      assert a + b == a;
    } else {
      var init := b[..|b| - 1];
      assert (a + b)[..|a + b| - 1] == a + init;
      assert (a + b)[|a + b| - 1] == b[|b| - 1];
      ReportFromAppend(history, start, end, report, a, init);
    }
  }

  /** `total_symbols_with_gaps` after visiting `symbols`: one for every
      visit that found missing dates. */
  function GapCount(history: Symbol -> Option<set<Timestamp>>, start: Day, end: Day, symbols: seq<Symbol>): (n: nat)
    ensures n <= |symbols|
    decreases |symbols|
  {
    if symbols == [] then 0
    else
      GapCount(history, start, end, symbols[..|symbols| - 1])
        + (if Missing(history, start, end, symbols[|symbols| - 1]) != [] then 1 else 0)
  }

  /** The count over `a + b` is the count over `a` plus the count over `b`. */
  lemma {:induction false} GapCountAppend(history: Symbol -> Option<set<Timestamp>>, start: Day, end: Day,
                                          a: seq<Symbol>, b: seq<Symbol>)
    ensures GapCount(history, start, end, a + b) == GapCount(history, start, end, a) + GapCount(history, start, end, b)
    decreases |b|
  {
    if b == [] {
      assert a + b == a;
    } else {
      var init := b[..|b| - 1];
      assert (a + b)[..|a + b| - 1] == a + init;
      assert (a + b)[|a + b| - 1] == b[|b| - 1];
      GapCountAppend(history, start, end, a, init);
    }
  }

  predicate Distinct(symbols: seq<Symbol>)
  {
    forall i, j :: 0 <= i < j < |symbols| ==> symbols[i] != symbols[j]
  }

  /** When no symbol is visited twice, the reported count of symbols with
      gaps is the number of report entries. */
  lemma {:induction false} GapCountIsReportSize(history: Symbol -> Option<set<Timestamp>>, start: Day, end: Day, symbols: seq<Symbol>)
    requires Distinct(symbols)
    ensures GapCount(history, start, end, symbols) == |Report(history, start, end, symbols).Keys|
    decreases |symbols|
  {
    if symbols != [] {
      var init := symbols[..|symbols| - 1];
      var s := symbols[|symbols| - 1];
      assert Distinct(init);
      GapCountIsReportSize(history, start, end, init);
      var m := Report(history, start, end, init);
      assert s !in init;
      ReportEntries(history, start, end, init, s);
      assert s !in m;
      if Missing(history, start, end, s) != [] {
        assert m[s := Group(Missing(history, start, end, s))].Keys == m.Keys + {s};
      }
    }
  }

  /** The inner `for symbol in symbols_to_process` loop of `main`: each
      symbol with missing dates gets its grouped ranges recorded, replacing
      any earlier entry, and bumps the gap count. */
  method ScanBatch(history: Symbol -> Option<set<Timestamp>>, start: Day, end: Day, symbols: seq<Symbol>,
                   report: map<Symbol, seq<DateRange>>, symbolsWithGaps: nat)
    returns (report': map<Symbol, seq<DateRange>>, symbolsWithGaps': nat)
    ensures report' == ReportFrom(history, start, end, report, symbols)
    ensures symbolsWithGaps' == symbolsWithGaps + GapCount(history, start, end, symbols)
  {
    report', symbolsWithGaps' := report, symbolsWithGaps;
    for j := 0 to |symbols|
      invariant report' == ReportFrom(history, start, end, report, symbols[..j])
      invariant symbolsWithGaps' == symbolsWithGaps + GapCount(history, start, end, symbols[..j])
    {
      var symbol := symbols[j];
      assert symbols[..j + 1][..j] == symbols[..j];
      var missingDates := FindMissingDates(start, end, history(symbol));
      if missingDates != [] {
        var ranges := GroupMissingDates(missingDates);
        report' := report'[symbol := ranges];
        symbolsWithGaps' := symbolsWithGaps' + 1;
      }
    }
    assert symbols[..|symbols|] == symbols;
  }

  /** The report after batches `1` to `n`, batch by batch. */
  function BatchReport(stocks: seq<Symbol>, failing: set<nat>, batchSize: nat,
                       history: Symbol -> Option<set<Timestamp>>, start: Day, end: Day, n: nat): map<Symbol, seq<DateRange>>
  {
    if n == 0 then map[]
    else ReportFrom(history, start, end, BatchReport(stocks, failing, batchSize, history, start, end, n - 1),
                    Batch(stocks, failing, batchSize, n))
  }

  /** The gap count after batches `1` to `n`, batch by batch. */
  function BatchGaps(stocks: seq<Symbol>, failing: set<nat>, batchSize: nat,
                     history: Symbol -> Option<set<Timestamp>>, start: Day, end: Day, n: nat): nat
  {
    if n == 0 then 0
    else BatchGaps(stocks, failing, batchSize, history, start, end, n - 1)
           + GapCount(history, start, end, Batch(stocks, failing, batchSize, n))
  }

  /** Batch by batch is the same as symbol by symbol over all the symbols
      the batches hold. */
  lemma {:induction false} BatchReportIsReport(stocks: seq<Symbol>, failing: set<nat>, batchSize: nat,
                                               history: Symbol -> Option<set<Timestamp>>, start: Day, end: Day, n: nat)
    ensures BatchReport(stocks, failing, batchSize, history, start, end, n)
         == Report(history, start, end, Batches(stocks, failing, batchSize, n))
    ensures BatchGaps(stocks, failing, batchSize, history, start, end, n)
         == GapCount(history, start, end, Batches(stocks, failing, batchSize, n))
  {
    if n > 0 {
      BatchReportIsReport(stocks, failing, batchSize, history, start, end, n - 1);
      ReportFromAppend(history, start, end, map[], Batches(stocks, failing, batchSize, n - 1), Batch(stocks, failing, batchSize, n));
      GapCountAppend(history, start, end, Batches(stocks, failing, batchSize, n - 1), Batch(stocks, failing, batchSize, n));
    }
  }

  /** One more batch extends the report and the count by that batch. */
  lemma BatchStep(stocks: seq<Symbol>, failing: set<nat>, batchSize: nat,
                  history: Symbol -> Option<set<Timestamp>>, start: Day, end: Day, n: nat)
    ensures BatchReport(stocks, failing, batchSize, history, start, end, n + 1)
         == ReportFrom(history, start, end, BatchReport(stocks, failing, batchSize, history, start, end, n),
                       Batch(stocks, failing, batchSize, n + 1))
    ensures BatchGaps(stocks, failing, batchSize, history, start, end, n + 1)
         == BatchGaps(stocks, failing, batchSize, history, start, end, n)
            + GapCount(history, start, end, Batch(stocks, failing, batchSize, n + 1))
    ensures NonEmptyBatches(stocks, failing, batchSize, n + 1)
        <==> NonEmptyBatches(stocks, failing, batchSize, n) && Batch(stocks, failing, batchSize, n + 1) != []
  {
  }

  /** The invariant of the batch loop after `n` batches: the report and
      the count are those of batches `1` to `n`, all of them non-empty. */
  ghost predicate AfterBatches(stocks: seq<Symbol>, failing: set<nat>, batchSize: nat,
                               history: Symbol -> Option<set<Timestamp>>, start: Day, end: Day, n: nat,
                               report: map<Symbol, seq<DateRange>>, symbolsWithGaps: nat)
  {
    && report == BatchReport(stocks, failing, batchSize, history, start, end, n)
    && symbolsWithGaps == BatchGaps(stocks, failing, batchSize, history, start, end, n)
    && NonEmptyBatches(stocks, failing, batchSize, n)
  }

  /** One pass of the loop body keeps the invariant. */
  lemma PassKeepsInvariant(stocks: seq<Symbol>, failing: set<nat>, batchSize: nat,
                           history: Symbol -> Option<set<Timestamp>>, start: Day, end: Day, n: nat,
                           report: map<Symbol, seq<DateRange>>, symbolsWithGaps: nat,
                           batch: seq<Symbol>, report': map<Symbol, seq<DateRange>>, symbolsWithGaps': nat, n': nat)
    requires AfterBatches(stocks, failing, batchSize, history, start, end, n, report, symbolsWithGaps)
    requires batch == Batch(stocks, failing, batchSize, n + 1)
    requires batch == [] ==> report' == report && symbolsWithGaps' == symbolsWithGaps && n' == n
    requires batch != [] ==>
              && report' == ReportFrom(history, start, end, report, batch)
              && symbolsWithGaps' == symbolsWithGaps + GapCount(history, start, end, batch)
              && n' == n + 1
    ensures AfterBatches(stocks, failing, batchSize, history, start, end, n', report', symbolsWithGaps')
  {
    if batch != [] {
      BatchStep(stocks, failing, batchSize, history, start, end, n);
    }
  }

  /** Short of a `break`, one pass of the loop body moves to the next batch,
      which lies further into the list, without reaching `maxBatches`; a
      `break` with batches left comes from reaching `maxBatches`, and no
      pass takes the count past `maxBatches` (or past 1 when the cap is 0,
      as the test comes after the first batch). */
  lemma PassAdvances(stocks: seq<Symbol>, failing: set<nat>, batchSize: nat, maxBatches: Option<nat>,
                     n: nat, batch: seq<Symbol>, n': nat, done: bool)
    requires maxBatches.Some? ==> n == 0 || n < maxBatches.value
    requires batch == Batch(stocks, failing, batchSize, n + 1)
    requires batch == [] ==> done && n' == n
    requires batch != [] ==> n' == n + 1 && done == (maxBatches.Some? && n' >= maxBatches.value)
    ensures !done ==> n' == n + 1 && (maxBatches.Some? ==> n' < maxBatches.value)
    ensures maxBatches.Some? ==> n' <= Max(maxBatches.value, 1)
    ensures !done && batchSize > 0 ==> SkipAmount(n + 1, batchSize) < |stocks|
    ensures done && Batch(stocks, failing, batchSize, n' + 1) != [] ==>
              maxBatches.Some? && n' == Max(maxBatches.value, 1)
  {
    if batch != [] {
      NonEmptyBatchAdvances(stocks, failing, batchSize, n + 1);
    }
  }

  /** One pass of the `while True` body of `main`: read the next batch and,
      if it is not empty, scan it and count it. `done` is the loop's
      `break`. The pass keeps the loop invariant and, short of a `break`,
      moves one batch further into the list. */
  method ProcessBatch(stocks: seq<Symbol>, failingBatches: set<nat>,
                      history: Symbol -> Option<set<Timestamp>>,
                      start: Day, end: Day, batchSize: nat, maxBatches: Option<nat>,
                      report: map<Symbol, seq<DateRange>>, symbolsWithGaps: nat, processedBatches: nat,
                      ghost stoppingPass: nat)
    returns (report': map<Symbol, seq<DateRange>>, symbolsWithGaps': nat, processedBatches': nat, done: bool)
    requires AfterBatches(stocks, failingBatches, batchSize, history, start, end, processedBatches, report, symbolsWithGaps)
    requires maxBatches.Some? ==> processedBatches == 0 || processedBatches < maxBatches.value
    requires stoppingPass >= 1 ==> (stocks == [] || stoppingPass in failingBatches) && processedBatches < stoppingPass
    ensures AfterBatches(stocks, failingBatches, batchSize, history, start, end, processedBatches', report', symbolsWithGaps')
    ensures !done ==> processedBatches' == processedBatches + 1 && (maxBatches.Some? ==> processedBatches' < maxBatches.value)
    ensures maxBatches.Some? ==> processedBatches' <= Max(maxBatches.value, 1)
    ensures !done && batchSize > 0 ==> SkipAmount(processedBatches + 1, batchSize) < |stocks|
    ensures !done ==> Batch(stocks, failingBatches, batchSize, processedBatches + 1) != []
    ensures stoppingPass >= 1 && !done ==> processedBatches' < stoppingPass
    ensures done && Batch(stocks, failingBatches, batchSize, processedBatches' + 1) != [] ==>
              maxBatches.Some? && processedBatches' == Max(maxBatches.value, 1)
  {
    var batchNumber := processedBatches + 1;
    var symbolsToProcess := GetStockSymbols(stocks, batchNumber in failingBatches, batchNumber, batchSize);
    if symbolsToProcess == [] {
      report', symbolsWithGaps', processedBatches', done := report, symbolsWithGaps, processedBatches, true;
    } else {
      report', symbolsWithGaps' := ScanBatch(history, start, end, symbolsToProcess, report, symbolsWithGaps);
      processedBatches' := processedBatches + 1;
      done := maxBatches.Some? && processedBatches' >= maxBatches.value;
    }
    PassKeepsInvariant(stocks, failingBatches, batchSize, history, start, end, processedBatches, report, symbolsWithGaps,
                       symbolsToProcess, report', symbolsWithGaps', processedBatches');
    PassAdvances(stocks, failingBatches, batchSize, maxBatches, processedBatches, symbolsToProcess, processedBatches', done);
    if !done {
      NonEmptyBatchSucceeded(stocks, failingBatches, batchSize, batchNumber);
    }
  }

  /** The batch loop of `main`. Batch `b` is read with query failure
      `b in failingBatches`; the loop stops after the first empty batch or
      once `maxBatches` batches are done. The report and the count are
      those of the processed batches, every processed batch was non-empty,
      no more batches were processed than the cap allows, and the loop
      stopped for one of the two reasons. The loop ends in every run the
      requires admits: with `batchSize == 0` and no cap every successful
      query returns the whole list, so it ends only at an empty list or at
      the first failing pass, and the runs left out are the ones that do
      not end. */
  method FindMissingData(stocks: seq<Symbol>, failingBatches: set<nat>,
                         history: Symbol -> Option<set<Timestamp>>,
                         start: Day, end: Day, batchSize: nat, maxBatches: Option<nat>)
    returns (report: map<Symbol, seq<DateRange>>, symbolsWithGaps: nat, processedBatches: nat)
    requires batchSize > 0 || maxBatches.Some? || stocks == [] || exists b :: b >= 1 && b in failingBatches
    ensures report == BatchReport(stocks, failingBatches, batchSize, history, start, end, processedBatches)
    ensures symbolsWithGaps == BatchGaps(stocks, failingBatches, batchSize, history, start, end, processedBatches)
    ensures NonEmptyBatches(stocks, failingBatches, batchSize, processedBatches)
    ensures maxBatches.Some? ==> processedBatches <= Max(maxBatches.value, 1)
    ensures Batch(stocks, failingBatches, batchSize, processedBatches + 1) != [] ==>
      maxBatches.Some? && processedBatches == Max(maxBatches.value, 1)
  {
    processedBatches := 0;
    report := map[];
    symbolsWithGaps := 0;
    var done := false;
    ghost var stoppingPass := StoppingPass(stocks, failingBatches);
    while !done
      invariant AfterBatches(stocks, failingBatches, batchSize, history, start, end, processedBatches, report, symbolsWithGaps)
      invariant !done ==> (maxBatches.Some? ==> processedBatches == 0 || processedBatches < maxBatches.value)
      invariant maxBatches.Some? ==> processedBatches <= Max(maxBatches.value, 1)
      invariant done && Batch(stocks, failingBatches, batchSize, processedBatches + 1) != [] ==>
        maxBatches.Some? && processedBatches == Max(maxBatches.value, 1)
      invariant stoppingPass >= 1 && !done ==> processedBatches < stoppingPass
      decreases !done, if batchSize > 0 then |stocks| - Min(SkipAmount(processedBatches + 1, batchSize), |stocks|)
                       else if maxBatches.Some? then maxBatches.value - processedBatches
                       else stoppingPass - processedBatches
    {
      report, symbolsWithGaps, processedBatches, done :=
        ProcessBatch(stocks, failingBatches, history, start, end, batchSize, maxBatches, report, symbolsWithGaps, processedBatches,
                     stoppingPass);
    }
  }

  /** A loop that ran until an empty batch, with no failed query on the
      way, reports every stock with missing dates and counts them all. */
  lemma ExhaustedLoopReportsAllStocks(stocks: seq<Symbol>, failing: set<nat>, batchSize: nat,
                                      history: Symbol -> Option<set<Timestamp>>, start: Day, end: Day, n: nat)
    requires batchSize > 0
    requires forall b :: 1 <= b <= n + 1 ==> b !in failing
    requires Batch(stocks, failing, batchSize, n + 1) == []
    ensures BatchReport(stocks, failing, batchSize, history, start, end, n) == Report(history, start, end, stocks)
    ensures BatchGaps(stocks, failing, batchSize, history, start, end, n) == GapCount(history, start, end, stocks)
  {
    BatchReportIsReport(stocks, failing, batchSize, history, start, end, n);
    ExhaustedBatchesCoverAllStocks(stocks, failing, batchSize, n);
  }

  /** The three-day tolerance compares calendar days, not business days:
      with Monday and Wednesday missing and only Tuesday stored, the two
      missing dates still form one range, which spans the stored Tuesday. */
  lemma StoredDayInsideRange(monday: Day, stored: set<Timestamp>)
    requires Weekday(monday) == 0
    requires PresentDays(stored) == {monday + 1}
    ensures FindMissingDates(monday, monday + 2, Some(stored)) == [monday, monday + 2]
    ensures Group(FindMissingDates(monday, monday + 2, Some(stored))) == [DateRange(monday, monday + 2)]
  {
    WeekdayNext(monday);
    WeekdayNext(monday + 1);
    var dates := [monday, monday + 2];
    FindMissingDatesIsSortedDifference(monday, monday + 2, stored, dates);
    assert dates[..1] == [monday];
    assert Scan(dates) == Grouping([], DateRange(monday, monday + 2));
  }
}
