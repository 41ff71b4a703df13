/** `DividendScraper` in `dividend_scraper.py`: turning the records of the
    announcements endpoint into announcement rows. The HTTP request and the
    JSON decoding stay outside; the decoded response is a `Json` value.
    `datetime.strptime` and `float` are parameters: `strptime(s, f)` is the
    instant `s` denotes in format `f`, or `None` where Python raises
    `ValueError`, and `parseFloat(s)` is `float(s)`, or `None` where it
    raises. */
module DividendScraper {
  import opened Wrappers
  import opened Calendar
  import opened Text
  import opened Sequences

  /** A decoded JSON value. Numbers, booleans and `null` are `JOther`: the
      parser only ever asks whether a value is a string, a list or an
      object. */
  datatype Json = JString(s: string) | JArray(items: seq<Json>) | JObject(fields: map<string, Json>) | JOther

  /** The six formats `parse_date` tries, in its order. */
  datatype DateFormat =
    | DayAbbrevMonthYear        // 20 Apr 2026
    | DayAbbrevMonthYearDashed  // 20-Apr-2026
    | DayMonthYearSlashed       // 20/04/2026
    | YearMonthDay              // 2026-04-20
    | MonthDayCommaYear         // April 20, 2026
    | DayMonthNameYear          // 20 April 2026

  const Formats: seq<DateFormat> := [DayAbbrevMonthYear, DayAbbrevMonthYearDashed, DayMonthYearSlashed,
                                     YearMonthDay, MonthDayCommaYear, DayMonthNameYear]

  /** The `strptime` directive string of each format. */
  function Directive(f: DateFormat): string
  {
    match f
    case DayAbbrevMonthYear => "%d %b %Y"
    case DayAbbrevMonthYearDashed => "%d-%b-%Y"
    case DayMonthYearSlashed => "%d/%m/%Y"
    case YearMonthDay => "%Y-%m-%d"
    case MonthDayCommaYear => "%B %d, %Y"
    case DayMonthNameYear => "%d %B %Y"
  }

  /** The list tries every format once. */
  lemma FormatsAreDistinct()
    ensures forall i, j :: 0 <= i < j < |Formats| ==> Directive(Formats[i]) != Directive(Formats[j])
    ensures forall f: DateFormat :: f in Formats
  {
    forall f: DateFormat
      ensures f in Formats
    {
      match f
      case DayAbbrevMonthYear => assert Formats[0] == f;
      case DayAbbrevMonthYearDashed => assert Formats[1] == f;
      case DayMonthYearSlashed => assert Formats[2] == f;
      case YearMonthDay => assert Formats[3] == f;
      case MonthDayCommaYear => assert Formats[4] == f;
      case DayMonthNameYear => assert Formats[5] == f;
    }
  }

  /** The first of `formats` in which `s` parses, tried in order. */
  function TryFormats(strptime: (string, DateFormat) -> Option<Timestamp>, s: string,
                      formats: seq<DateFormat>): Option<Timestamp>
    decreases |formats|
  {
    if formats == [] then None
    else if strptime(s, formats[0]).Some? then strptime(s, formats[0])
    else TryFormats(strptime, s, formats[1..])
  }

  /** `parse_date(date_string)`: `None` for an empty string, otherwise the
      stripped string parsed in the first format that accepts it. */
  function ParsedDate(strptime: (string, DateFormat) -> Option<Timestamp>, dateString: string): Option<Timestamp>
  {
    if dateString == [] then None else TryFormats(strptime, Strip(dateString), Formats)
  }

  /** The result is that of the first format that succeeds, every earlier
      format having failed; there is no result exactly when all fail. */
  lemma {:induction false} TryFormatsFirstSuccess(strptime: (string, DateFormat) -> Option<Timestamp>, s: string,
                                                  formats: seq<DateFormat>)
    ensures TryFormats(strptime, s, formats).Some? ==>
      exists k :: 0 <= k < |formats| && strptime(s, formats[k]) == TryFormats(strptime, s, formats)
                  && forall j :: 0 <= j < k ==> strptime(s, formats[j]).None?
    ensures TryFormats(strptime, s, formats).None? <==> forall k :: 0 <= k < |formats| ==> strptime(s, formats[k]).None?
    decreases |formats|
  {
    if formats != [] && strptime(s, formats[0]).None? {
      var rest := formats[1..];
      TryFormatsFirstSuccess(strptime, s, rest);
      assert forall k :: 1 <= k < |formats| ==> formats[k] == rest[k - 1];
      if TryFormats(strptime, s, rest).Some? {
        var k :| 0 <= k < |rest| && strptime(s, rest[k]) == TryFormats(strptime, s, rest)
                 && forall j :: 0 <= j < k ==> strptime(s, rest[j]).None?;
        assert strptime(s, formats[k + 1]) == TryFormats(strptime, s, formats);
        assert forall j :: 0 <= j < k + 1 ==> strptime(s, formats[j]).None? by {
          forall j | 0 <= j < k + 1
            ensures strptime(s, formats[j]).None?
          {
            if j > 0 {
              assert formats[j] == rest[j - 1];
            }
          }
        }
      }
    }
  }

  /** `parse_date` reaches a result only for a non-empty string, and the
      result is the first format's, in list order, that accepts the
      stripped string. */
  lemma ParsedDateSpec(strptime: (string, DateFormat) -> Option<Timestamp>, dateString: string)
    ensures dateString == [] ==> ParsedDate(strptime, dateString) == None
    ensures ParsedDate(strptime, dateString).Some? ==>
      exists k :: 0 <= k < |Formats| && strptime(Strip(dateString), Formats[k]) == ParsedDate(strptime, dateString)
                  && forall j :: 0 <= j < k ==> strptime(Strip(dateString), Formats[j]).None?
    ensures dateString != [] ==>
      (ParsedDate(strptime, dateString).None? <==> forall f :: f in Formats ==> strptime(Strip(dateString), f).None?)
  {
    TryFormatsFirstSuccess(strptime, Strip(dateString), Formats);
  }

  /** `parse_date`: the `for fmt in formats` loop with its early return. */
  method ParseDate(strptime: (string, DateFormat) -> Option<Timestamp>, dateString: string)
    returns (r: Option<Timestamp>)
    ensures r == ParsedDate(strptime, dateString)
  {
    if dateString == [] {
      return None;
    }
    var i := 0;
    while i < |Formats|
      invariant 0 <= i <= |Formats|
      invariant TryFormats(strptime, Strip(dateString), Formats) == TryFormats(strptime, Strip(dateString), Formats[i..])
    {
      var parsed := strptime(Strip(dateString), Formats[i]);
      if parsed.Some? {
        return parsed;
      }
      i := i + 1;
    }
    return None;
  }

  /** `_parse_percentage`: 0 for an empty string; otherwise the string with
      every `%` removed and stripped, read as a number, and 0 when that
      fails. */
  function ParsePercentage(parseFloat: string -> Option<real>, percent: string): real
  {
    if percent == [] then 0.0
    else match parseFloat(Strip(RemoveAll(percent, '%')))
      case Some(x) => x
      case None => 0.0
  }

  /** A trailing or leading percent sign changes nothing: `"20%"` and
      `"20"` read alike. */
  lemma {:induction false} ParsePercentageIgnoresPercentSigns(parseFloat: string -> Option<real>, percent: string)
    requires percent != []
    ensures ParsePercentage(parseFloat, percent + "%") == ParsePercentage(parseFloat, percent)
    ensures ParsePercentage(parseFloat, "%" + percent) == ParsePercentage(parseFloat, percent)
  {
    var clean := RemoveAll(percent, '%');
    assert RemoveAll("%", '%') == [];
    RemoveAllAppend(percent, "%", '%');
    RemoveAllAppend("%", percent, '%');
    assert RemoveAll(percent + "%", '%') == clean + [];
    assert clean + [] == clean;
    assert RemoveAll("%" + percent, '%') == [] + clean;
    assert [] + clean == clean;
  }

  /** The entries of `announcement_type`: the strings `"dividend"`,
      `"bonus"` and `"right"`. */
  datatype Kind = Dividend | Bonus | Right

  /** The string each kind stands for in `announcement_type`. */
  function KindName(k: Kind): string
  {
    match k
    case Dividend => "dividend"
    case Bonus => "bonus"
    case Right => "right"
  }

  /** The three names are distinct, so the string test
      `"dividend" in announcement_type` made on the parsed row holds
      exactly when the kind is listed. */
  lemma KindNamesDistinct(a: Kind, b: Kind)
    ensures KindName(a) == KindName(b) <==> a == b
  {
  }

  /** The position of a kind in the order `parse_announcement` appends
      them: dividend, bonus, right. */
  function KindRank(k: Kind): int
  {
    match k
    case Dividend => 0
    case Bonus => 1
    case Right => 2
  }

  /** A parsed announcement: the fields `parse_announcement` returns except
      `scraped_at`, the clock reading. */
  datatype Announcement = Announcement(symbol: string, name: string, dividend: real, bonus: string,
                                       right: string, xDate: Timestamp, sector: string,
                                       announcementType: seq<Kind>)

  /** `announcement_types`: each kind whose stripped field is non-empty. */
  function AnnouncementTypes(dividend: string, bonus: string, right: string): seq<Kind>
  {
    (if dividend != [] then [Dividend] else [])
      + (if bonus != [] then [Bonus] else [])
      + (if right != [] then [Right] else [])
  }

  /** A kind is listed exactly when its field is non-empty, the list keeps
      the fixed order dividend, bonus, right (so it has no repeats), and it
      is empty exactly when all three fields are. */
  lemma AnnouncementTypesSpec(dividend: string, bonus: string, right: string)
    ensures var t := AnnouncementTypes(dividend, bonus, right);
      && (Dividend in t <==> dividend != [])
      && (Bonus in t <==> bonus != [])
      && (Right in t <==> right != [])
      && (forall i, j :: 0 <= i < j < |t| ==> KindRank(t[i]) < KindRank(t[j]))
      && (t == [] <==> dividend == [] && bonus == [] && right == [])
  {
  }

  /** `record.get(key, '').strip()`: an absent key reads as `""`; a value
      that is not a string has no `strip`, which raises. */
  function Field(fields: map<string, Json>, key: string): Option<string>
  {
    if key !in fields then Some("")
    else match fields[key]
      case JString(s) => Some(Strip(s))
      case _ => None
  }

  /** The seven keys `parse_announcement` reads. */
  const ReadKeys: seq<string> := ["company_code", "company_name", "bm_dividend", "bm_bonus",
                                  "bm_right_per", "bm_bc_exp", "sector_name"]

  /** The seven stripped fields `parse_announcement` reads. */
  datatype RawFields = RawFields(symbol: string, name: string, dividend: string, bonus: string,
                                 right: string, xDate: string, sector: string)

  /** The seven field reads of `parse_announcement`; `None` when one of
      them raises, as it does on a record that is not an object. */
  function ReadFields(record: Json): Option<RawFields>
  {
    if !record.JObject? then None
    else
      var symbol := Field(record.fields, "company_code");
      var name := Field(record.fields, "company_name");
      var dividend := Field(record.fields, "bm_dividend");
      var bonus := Field(record.fields, "bm_bonus");
      var right := Field(record.fields, "bm_right_per");
      var xDate := Field(record.fields, "bm_bc_exp");
      var sector := Field(record.fields, "sector_name");
      if symbol.None? || name.None? || dividend.None? || bonus.None? || right.None? || xDate.None? || sector.None? then None
      else Some(RawFields(symbol.value, name.value, dividend.value, bonus.value, right.value, xDate.value, sector.value))
  }

  /** The rest of `parse_announcement` once the fields are read: skip a
      record without symbol or ex-date, with an ex-date no format accepts,
      or announcing nothing. */
  function AnnouncementFrom(strptime: (string, DateFormat) -> Option<Timestamp>, parseFloat: string -> Option<real>,
                            raw: RawFields): Option<Announcement>
  {
    if raw.symbol == [] || raw.xDate == [] then None
    else match ParsedDate(strptime, raw.xDate)
      case None => None
      case Some(exDate) =>
        var types := AnnouncementTypes(raw.dividend, raw.bonus, raw.right);
        if types == [] then None
        else Some(Announcement(raw.symbol, raw.name, ParsePercentage(parseFloat, raw.dividend),
                               raw.bonus, raw.right, exDate, raw.sector, types))
  }

  /** `parse_announcement(record)`. Every exception is caught and gives
      `None`. */
  function AnnouncementOf(strptime: (string, DateFormat) -> Option<Timestamp>, parseFloat: string -> Option<real>,
                          record: Json): Option<Announcement>
  {
    match ReadFields(record)
    case None => None
    case Some(raw) => AnnouncementFrom(strptime, parseFloat, raw)
  }

  /** The field reads fail exactly on a record that is not an object or has
      one of the seven keys bound to a non-string, whatever the other keys
      hold; otherwise they hold the stripped strings, `""` for an absent
      key. */
  lemma ReadFieldsSpec(record: Json, key: string)
    requires key in ReadKeys
    ensures ReadFields(record).Some? ==> record.JObject? && Field(record.fields, key).Some?
    ensures ReadFields(record).Some? ==>
      var raw := ReadFields(record).value;
      && raw.symbol == Field(record.fields, "company_code").value
      && raw.name == Field(record.fields, "company_name").value
      && raw.dividend == Field(record.fields, "bm_dividend").value
      && raw.bonus == Field(record.fields, "bm_bonus").value
      && raw.right == Field(record.fields, "bm_right_per").value
      && raw.xDate == Field(record.fields, "bm_bc_exp").value
      && raw.sector == Field(record.fields, "sector_name").value
    ensures record.JObject? && key in record.fields && !record.fields[key].JString? ==> ReadFields(record).None?
    ensures ReadFields(record).Some?
        <==> record.JObject? && forall k :: k in ReadKeys && k in record.fields ==> record.fields[k].JString?
  {
    if record.JObject? && ReadFields(record).Some? {
      forall k | k in ReadKeys && k in record.fields
        ensures record.fields[k].JString?
      {
        assert Field(record.fields, k).Some?;
      }
    }
  }

  /** A record with its fields read yields an announcement exactly when it
      has a symbol, an ex-date some format accepts and at least one kind
      announced. The announcement holds the stripped fields as they came,
      the ex-date as parsed, the dividend as `_parse_percentage` reads it
      and the kinds in the fixed order. */
  lemma AnnouncementFromSpec(strptime: (string, DateFormat) -> Option<Timestamp>, parseFloat: string -> Option<real>,
                             raw: RawFields)
    ensures AnnouncementFrom(strptime, parseFloat, raw).Some?
      <==> && raw.symbol != [] && raw.xDate != []
           && ParsedDate(strptime, raw.xDate).Some?
           && (raw.dividend != [] || raw.bonus != [] || raw.right != [])
    ensures AnnouncementFrom(strptime, parseFloat, raw).Some? ==>
      var a := AnnouncementFrom(strptime, parseFloat, raw).value;
      && a.symbol == raw.symbol && a.name == raw.name && a.bonus == raw.bonus
      && a.right == raw.right && a.sector == raw.sector
      && Some(a.xDate) == ParsedDate(strptime, raw.xDate)
      && a.dividend == ParsePercentage(parseFloat, raw.dividend)
      && a.announcementType == AnnouncementTypes(raw.dividend, raw.bonus, raw.right)
      && a.announcementType != []
  {
  }

  /** `parse_announcement`: the seven field reads, the skips and the three
      conditional appends to `announcement_types`. */
  method ParseAnnouncement(strptime: (string, DateFormat) -> Option<Timestamp>, parseFloat: string -> Option<real>,
                           record: Json)
    returns (r: Option<Announcement>)
    ensures r == AnnouncementOf(strptime, parseFloat, record)
  {
    var fields := ReadFields(record);
    if fields.None? {
      return None;
    }
    var raw := fields.value;
    if raw.symbol == [] || raw.xDate == [] {
      return None;
    }
    var xDate := ParseDate(strptime, raw.xDate);
    if xDate.None? {
      return None;
    }
    var dividend := ParsePercentage(parseFloat, raw.dividend);
    var announcementTypes: seq<Kind> := [];
    if raw.dividend != [] {
      announcementTypes := announcementTypes + [Dividend];
    }
    assert announcementTypes == if raw.dividend != [] then [Dividend] else [];
    if raw.bonus != [] {
      announcementTypes := announcementTypes + [Bonus];
    }
    assert announcementTypes == (if raw.dividend != [] then [Dividend] else []) + (if raw.bonus != [] then [Bonus] else []);
    if raw.right != [] {
      announcementTypes := announcementTypes + [Right];
    }
    assert announcementTypes == AnnouncementTypes(raw.dividend, raw.bonus, raw.right);
    if announcementTypes == [] {
      return None;
    }
    return Some(Announcement(raw.symbol, raw.name, dividend, raw.bonus, raw.right,
                             xDate.value, raw.sector, announcementTypes));
  }

  /** The records of a response: the value under `"d"` when there is one,
      else the response itself. */
  function RecordsOf(response: map<string, Json>): Json
  {
    if "d" in response then response["d"] else JObject(response)
  }

  /** `_parse_records(response_data)`: no rows unless the records are a
      list; otherwise the announcements of the records that yield one, in
      record order. */
  function ParsedRecords(strptime: (string, DateFormat) -> Option<Timestamp>, parseFloat: string -> Option<real>,
                         response: map<string, Json>): seq<Announcement>
  {
    match RecordsOf(response)
    case JArray(records) => FilterMap((record: Json) => AnnouncementOf(strptime, parseFloat, record), records)
    case _ => []
  }

  /** Records that are not a list give no rows; otherwise there are at most
      as many rows as records, a row is exactly an announcement some record
      yields, and each record's rows follow those of the records before it,
      so a record that yields nothing drops only itself. */
  lemma ParsedRecordsSpec(strptime: (string, DateFormat) -> Option<Timestamp>, parseFloat: string -> Option<real>,
                          response: map<string, Json>, a: Announcement)
    ensures !RecordsOf(response).JArray? ==> ParsedRecords(strptime, parseFloat, response) == []
    ensures RecordsOf(response).JArray? ==>
      var records := RecordsOf(response).items;
      && |ParsedRecords(strptime, parseFloat, response)| <= |records|
      && (a in ParsedRecords(strptime, parseFloat, response)
          <==> exists i :: 0 <= i < |records| && AnnouncementOf(strptime, parseFloat, records[i]) == Some(a))
  {
    if RecordsOf(response).JArray? {
      FilterMapMember((record: Json) => AnnouncementOf(strptime, parseFloat, record), RecordsOf(response).items, a);
    }
  }

  /** Splitting the record list splits the rows the same way. */
  lemma ParsedRecordsAppend(strptime: (string, DateFormat) -> Option<Timestamp>, parseFloat: string -> Option<real>,
                            first: seq<Json>, second: seq<Json>)
    ensures ParsedRecords(strptime, parseFloat, map["d" := JArray(first + second)])
         == ParsedRecords(strptime, parseFloat, map["d" := JArray(first)])
            + ParsedRecords(strptime, parseFloat, map["d" := JArray(second)])
  {
    FilterMapAppend((record: Json) => AnnouncementOf(strptime, parseFloat, record), first, second);
  }

  /** `_parse_records`: the loop over the records appending each parsed
      announcement. */
  method ParseRecords(strptime: (string, DateFormat) -> Option<Timestamp>, parseFloat: string -> Option<real>,
                      response: map<string, Json>)
    returns (parsedRecords: seq<Announcement>)
    ensures parsedRecords == ParsedRecords(strptime, parseFloat, response)
  {
    var records := RecordsOf(response);
    if !records.JArray? {
      return [];
    }
    var items := records.items;
    ghost var f := (record: Json) => AnnouncementOf(strptime, parseFloat, record);
    parsedRecords := [];
    for i := 0 to |items|
      invariant parsedRecords == FilterMap(f, items[..i])
    {
      var parsed := ParseAnnouncement(strptime, parseFloat, items[i]);
      FilterMapPrefix(f, items, i);
      if parsed.Some? {
        parsedRecords := parsedRecords + [parsed.value];
      }
    }
    assert items[..|items|] == items;
  }
}
