/** `process_announcements` in `dividend_store.py`: splitting announcement
    rows into the dividend and the bonus documents that are stored. The rows
    are the scraper's announcements; `float` on the bonus text is the
    parameter `parseFloat`, `None` where Python raises `ValueError`. */
module DividendStore {
  import opened Wrappers
  import opened Calendar
  import opened Text
  import opened Sequences
  import opened DividendScraper

  const Source: string := "scstrade"
  const Announced: string := "ANNOUNCED"
  const BonusShares: string := "BONUS_SHARES"

  /** `base_metadata`: the source and the sector note. */
  datatype Metadata = Metadata(source: string, notes: string)

  /** A dividend document, without the `createdAt`/`updatedAt` clock
      readings. */
  datatype DividendDoc = DividendDoc(symbol: string, amountPerShare: real, exDate: Timestamp,
                                     payDate: Timestamp, status: string, metadata: Metadata)

  /** A bonus document, without the `createdAt`/`updatedAt` clock
      readings. */
  datatype BonusDoc = BonusDoc(symbol: string, bonusPercentage: real, bonusType: string,
                               exDate: Timestamp, status: string, metadata: Metadata)

  function MetadataOf(row: Announcement): Metadata
  {
    Metadata(Source, "Sector: " + row.sector)
  }

  /** The dividend document a row yields: one for a row with a symbol that
      announces a dividend of a positive amount; the ex-date doubles as the
      pay date. */
  function DividendOf(row: Announcement): Option<DividendDoc>
  {
    var symbol := Strip(row.symbol);
    if symbol == [] || Dividend !in row.announcementType || row.dividend <= 0.0 then None
    else Some(DividendDoc(symbol, row.dividend, row.xDate, row.xDate, Announced, MetadataOf(row)))
  }

  /** The bonus text as the store reads it: `%` removed, stripped. */
  function BonusText(row: Announcement): string
  {
    Strip(RemoveAll(row.bonus, '%'))
  }

  /** The bonus document a row yields: one for a row with a symbol that
      announces a bonus whose text, `%` removed and stripped, reads as a
      positive number. A text that does not read as a number drops only
      this document. */
  function BonusOf(parseFloat: string -> Option<real>, row: Announcement): Option<BonusDoc>
  {
    var symbol := Strip(row.symbol);
    if symbol == [] || Bonus !in row.announcementType || row.bonus == [] || BonusText(row) == [] then None
    else match parseFloat(BonusText(row))
      case None => None
      case Some(amount) =>
        if amount <= 0.0 then None
        else Some(BonusDoc(symbol, amount, BonusShares, row.xDate, Announced, MetadataOf(row)))
  }

  /** The `dividends` list: one document per qualifying row, in row order. */
  function Dividends(rows: seq<Announcement>): seq<DividendDoc>
  {
    FilterMap(DividendOf, rows)
  }

  /** The `bonuses` list: one document per qualifying row, in row order. */
  function Bonuses(parseFloat: string -> Option<real>, rows: seq<Announcement>): seq<BonusDoc>
  {
    FilterMap((row: Announcement) => BonusOf(parseFloat, row), rows)
  }

  /** A row yields a dividend exactly when its stripped symbol is
      non-empty, it announces a dividend and the amount is positive; the
      document carries the stripped symbol, that amount, the ex-date as
      both ex-date and pay date, and the status `ANNOUNCED`. */
  lemma DividendOfSpec(row: Announcement)
    ensures DividendOf(row).Some? <==> Strip(row.symbol) != [] && Dividend in row.announcementType && row.dividend > 0.0
    ensures DividendOf(row).Some? ==>
      var d := DividendOf(row).value;
      && d.symbol == Strip(row.symbol) && d.amountPerShare == row.dividend
      && d.exDate == row.xDate && d.payDate == d.exDate
      && d.status == Announced && d.metadata.source == Source
  {
  }

  /** A row yields a bonus exactly when its stripped symbol is non-empty,
      it announces a bonus, its bonus field is non-empty, that field with
      `%` removed and stripped is non-empty, and it reads as a positive
      number; the document carries that number, the ex-date, the type
      `BONUS_SHARES` and the status `ANNOUNCED`. */
  lemma BonusOfSpec(parseFloat: string -> Option<real>, row: Announcement)
    ensures BonusOf(parseFloat, row).Some? <==>
      && Strip(row.symbol) != [] && Bonus in row.announcementType && row.bonus != []
      && BonusText(row) != [] && parseFloat(BonusText(row)).Some? && parseFloat(BonusText(row)).value > 0.0
    ensures BonusOf(parseFloat, row).Some? ==>
      var b := BonusOf(parseFloat, row).value;
      && b.symbol == Strip(row.symbol) && Some(b.bonusPercentage) == parseFloat(BonusText(row))
      && b.exDate == row.xDate && b.bonusType == BonusShares
      && b.status == Announced && b.metadata.source == Source
  {
  }

  /** A row without a symbol contributes to neither list. */
  lemma BlankSymbolYieldsNothing(parseFloat: string -> Option<real>, rows: seq<Announcement>, row: Announcement)
    requires Strip(row.symbol) == []
    ensures Dividends(rows + [row]) == Dividends(rows)
    ensures Bonuses(parseFloat, rows + [row]) == Bonuses(parseFloat, rows)
  {
    FilterMapSnoc(DividendOf, rows, row);
    FilterMapSnoc((r: Announcement) => BonusOf(parseFloat, r), rows, row);
    assert Dividends(rows) + [] == Dividends(rows);
    assert Bonuses(parseFloat, rows) + [] == Bonuses(parseFloat, rows);
  }

  /** A document is in a list exactly when some row yields it, so each row
      contributes to each list on its own; each list has at most one entry
      per row; every dividend pays on its ex-date and every document is
      `ANNOUNCED` with a positive amount. */
  lemma ListsSpec(parseFloat: string -> Option<real>, rows: seq<Announcement>, d: DividendDoc, b: BonusDoc)
    ensures |Dividends(rows)| <= |rows| && |Bonuses(parseFloat, rows)| <= |rows|
    ensures d in Dividends(rows) <==> exists i :: 0 <= i < |rows| && DividendOf(rows[i]) == Some(d)
    ensures b in Bonuses(parseFloat, rows) <==> exists i :: 0 <= i < |rows| && BonusOf(parseFloat, rows[i]) == Some(b)
    ensures d in Dividends(rows) ==> d.payDate == d.exDate && d.status == Announced && d.amountPerShare > 0.0
    ensures b in Bonuses(parseFloat, rows) ==> b.bonusType == BonusShares && b.status == Announced && b.bonusPercentage > 0.0
  {
    FilterMapMember(DividendOf, rows, d);
    FilterMapMember((r: Announcement) => BonusOf(parseFloat, r), rows, b);
  }

  /** Both lists keep row order: the rows `first + second` give the
      documents of `first` followed by those of `second`. */
  lemma ListsKeepRowOrder(parseFloat: string -> Option<real>, first: seq<Announcement>, second: seq<Announcement>)
    ensures Dividends(first + second) == Dividends(first) + Dividends(second)
    ensures Bonuses(parseFloat, first + second) == Bonuses(parseFloat, first) + Bonuses(parseFloat, second)
  {
    FilterMapAppend(DividendOf, first, second);
    FilterMapAppend((r: Announcement) => BonusOf(parseFloat, r), first, second);
  }

  /** `process_announcements`: no rows give two empty lists; otherwise the
      loop over the rows appends each row's dividend and bonus documents. */
  method ProcessAnnouncements(parseFloat: string -> Option<real>, rows: seq<Announcement>)
    returns (dividends: seq<DividendDoc>, bonuses: seq<BonusDoc>)
    ensures dividends == Dividends(rows)
    ensures bonuses == Bonuses(parseFloat, rows)
  {
    if rows == [] {
      return [], [];
    }
    ghost var bonusOf := (r: Announcement) => BonusOf(parseFloat, r);
    dividends, bonuses := [], [];
    for i := 0 to |rows|
      invariant dividends == FilterMap(DividendOf, rows[..i])
      invariant bonuses == FilterMap(bonusOf, rows[..i])
    {
      var row := rows[i];
      FilterMapPrefix(DividendOf, rows, i);
      FilterMapPrefix(bonusOf, rows, i);
      var symbol := Strip(row.symbol);
      if symbol == [] {
        continue;
      }
      var metadata := Metadata(Source, "Sector: " + row.sector);
      if Dividend in row.announcementType {
        var amount := row.dividend;
        if amount > 0.0 {
          dividends := dividends + [DividendDoc(symbol, amount, row.xDate, row.xDate, Announced, metadata)];
        }
      }
      if Bonus in row.announcementType && row.bonus != [] {
        var bonusStr := Strip(RemoveAll(row.bonus, '%'));
        if bonusStr != [] {
          var amount := parseFloat(bonusStr);
          if amount.Some? && amount.value > 0.0 {
            bonuses := bonuses + [BonusDoc(symbol, amount.value, BonusShares, row.xDate, Announced, metadata)];
          }
        }
      }
    }
    assert rows[..|rows|] == rows;
  }
}
