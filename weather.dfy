/** The weather-portal helpers: argument checking and page planning of
    `download_raw_data`, the query URLs it and `getHourlyData` compose, the calendar-month
    enumeration of `download_data_date_range`, and the name-score filter of
    `get_weather_data_by_loc`. The HTTP requests (with `read_csv` and the HTML parser
    behind them) and the fuzzy score are parameters of the model. */
module Weather {
  import opened Wrappers
  import opened Sequences
  import opened Text

  /** An argument as Python sees it: a str, an int, or a value of another type (a bool, a
      float, a list, ...) carried with the text `str()` gives for it. */
  datatype PyValue = Str(s: string) | Int(n: int) | Other(text: string)

  /** What `"{}".format(v)` substitutes for the value. */
  function Format(v: PyValue): string
  {
    match v
    case Str(s) => s
    case Int(n) => IntToString(n)
    case Other(t) => t
  }

  // ---------------------------------------------------------------------------
  // download_raw_data
  // ---------------------------------------------------------------------------

  /** The accepted province codes; Nunavut (NU) is not among them. */
  const Provinces: set<string> := {"BC", "PE", "NS", "NL", "NB", "QC", "ON", "MB", "SK", "AB", "YT", "NT"}

  /** The argument check of `download_raw_data`: a listed province, a four-character str
      year and an int page count. */
  function ValidDownloadArgs(province: PyValue, startYear: PyValue, maxPages: PyValue): (ok: bool)
    ensures ok ==> province.Str? && |province.s| == 2 && province.s != "NU"
    ensures ok ==> startYear.Str? && |startYear.s| == 4 && maxPages.Int?
  {
    province.Str? && province.s in Provinces && startYear.Str? && |startYear.s| == 4 && maxPages.Int?
  }

  const StationSearchBase := "http://climate.weather.gc.ca/historical_data/search_historic_data_stations_e.html?"

  // The fixed text around the three substituted values.
  const ProvinceKey := "searchType=stnProv&timeframe=1&lstProvince="
  const ProvinceTail := "&optLimit=yearRange&"
  const YearField := "StartYear="
  const YearTail := "&EndYear=2018&Year=2018&Month=12&Day=10&selRowPerPage=100&txtCentralLatMin=0&txtCentralLatSec=0&txtCentralLongMin=0&txtCentralLongSec=0&"
  const RowField := "startRow="

  function QueryProvince(province: string): string
  {
    ProvinceKey + province + ProvinceTail
  }

  function QueryYear(startYear: string): string
  {
    YearField + startYear + YearTail
  }

  function QueryStartRow(startRow: nat): string
  {
    RowField + Decimal(startRow)
  }

  /** The URL of one page of the station search. A two-letter province, a four-character
      year and the start row are substituted verbatim: all three read back unchanged. */
  function PageUrl(province: string, startYear: string, startRow: nat): (u: string)
    ensures |province| == 2 && |startYear| == 4 ==>
              ParsePageUrl(u) == Some(PageQuery(province, startYear, startRow))
  {
    PageUrlLayout(province, startYear, startRow);
    PageLayoutParses(province, startYear, startRow);
    StationSearchBase + QueryProvince(province) + QueryYear(startYear) + QueryStartRow(startRow)
  }

  /** The first row of page i; pages hold 100 rows. */
  function StartRow(i: nat): nat
  {
    1 + 100 * i
  }

  /** `range(max_pages)` has no element for a page count of zero or less. */
  function PageCount(maxPages: int): nat
  {
    if maxPages < 0 then 0 else maxPages
  }

  /** Every request succeeded. */
  predicate AllFetched<R>(urls: seq<string>, fetch: string -> Option<R>)
  {
    forall k :: 0 <= k < |urls| ==> fetch(urls[k]).Some?
  }

  /** The request loops of `download_raw_data` and `download_data_date_range`: requests
      each URL in turn and stops with None at the first request that fails. */
  method FetchEach<R>(urls: seq<string>, fetch: string -> Option<R>) returns (responses: Option<seq<R>>)
    ensures responses.Some? <==> AllFetched(urls, fetch)
    ensures responses.Some? ==>
              && |responses.value| == |urls|
              && forall k :: 0 <= k < |urls| ==> responses.value[k] == fetch(urls[k]).value
  {
    var tables: seq<R> := [];
    for i := 0 to |urls|
      invariant |tables| == i
      invariant forall k :: 0 <= k < i ==> fetch(urls[k]).Some? && tables[k] == fetch(urls[k]).value
    {
      var df := fetch(urls[i]);
      if df.None? {
        assert !fetch(urls[i]).Some?;
        return None;
      }
      tables := tables + [df.value];
    }
    return Some(tables);
  }

  /** The URLs of the first n pages of the station search, in order. */
  function PageUrls(province: string, startYear: string, n: nat): (urls: seq<string>)
    ensures |urls| == n
    ensures forall i :: 0 <= i < n ==> urls[i] == PageUrl(province, startYear, StartRow(i))
  {
    seq(n, i requires 0 <= i < n => PageUrl(province, startYear, StartRow(i)))
  }

  /** `download_raw_data`: rejects bad arguments (printing a message, returning None);
      otherwise requests, in order, the pages with start rows 1, 101, 201, ... for the
      given number of pages. A failing request ends in the same `except` branch. */
  method DownloadRawData(province: PyValue, startYear: PyValue, maxPages: PyValue := Int(4),
                         fetch: string -> Option<string>)
    returns (pages: Option<seq<string>>)
    ensures !ValidDownloadArgs(province, startYear, maxPages) ==> pages == None
    ensures ValidDownloadArgs(province, startYear, maxPages) ==>
              var urls := PageUrls(province.s, startYear.s, PageCount(maxPages.n));
              && (pages.Some? <==> AllFetched(urls, fetch))
              && (pages.Some? ==>
                    && |pages.value| == |urls|
                    && forall i :: 0 <= i < |urls| ==> pages.value[i] == fetch(urls[i]).value)
  {
    if !ValidDownloadArgs(province, startYear, maxPages) {
      return None;
    }
    var urls := PageUrls(province.s, startYear.s, PageCount(maxPages.n));
    pages := FetchEach(urls, fetch);
  }

  /** The three values a station-search URL carries. */
  datatype PageQuery = PageQuery(province: string, startYear: string, startRow: nat)

  /** The fixed text between the province and the year, and between the year and the
      start row. */
  const YearKey := ProvinceTail + YearField
  const StartRowKey := YearTail + RowField

  /** Takes a station-search URL apart: a two-letter province, a four-character year and
      a decimal start row, each after its fixed key. */
  function ParsePageUrl(url: string): Option<PageQuery>
  {
    match StripPrefix(StationSearchBase + ProvinceKey, url)
    case None => None
    case Some(afterKey) =>
      if |afterKey| < 2 then None
      else
        match StripPrefix(YearKey, afterKey[2..])
        case None => None
        case Some(afterYearKey) =>
          if |afterYearKey| < 4 then None
          else
            match StripPrefix(StartRowKey, afterYearKey[4..])
            case None => None
            case Some(digits) =>
              match ReadNat(digits)
              case None => None
              case Some((row, rest)) =>
                if rest != [] then None
                else Some(PageQuery(afterKey[..2], afterYearKey[..4], row))
  }

  /** The page URL regrouped: the base, then the province, the year and the start row,
      each after its key. */
  lemma PageUrlLayout(province: string, startYear: string, startRow: nat)
    ensures StationSearchBase + QueryProvince(province) + QueryYear(startYear) + QueryStartRow(startRow)
         == (StationSearchBase + ProvinceKey + province) + (YearKey + (startYear + (StartRowKey + Decimal(startRow))))
    ensures StationSearchBase + QueryProvince(province) + QueryYear(startYear) + QueryStartRow(startRow)
         == (StationSearchBase + ProvinceKey) + (province + (YearKey + (startYear + (StartRowKey + Decimal(startRow)))))
  {
    var d := Decimal(startRow);
    var qp, qy, qr := QueryProvince(province), QueryYear(startYear), QueryStartRow(startRow);
    var w := startYear + (StartRowKey + d);
    Assoc(YearField + startYear, YearTail, RowField + d);
    Assoc(YearTail, RowField, d);
    Assoc(YearField, startYear, StartRowKey + d);
    assert qy + qr == YearField + w;
    var v := province + (YearKey + w);
    Assoc(ProvinceKey + province, ProvinceTail, YearField + w);
    Assoc(ProvinceTail, YearField, w);
    Assoc(ProvinceKey, province, YearKey + w);
    assert qp + (qy + qr) == ProvinceKey + v;
    Assoc(StationSearchBase + qp, qy, qr);
    Assoc(StationSearchBase, qp, qy + qr);
    Assoc(StationSearchBase, ProvinceKey, v);
    Assoc(StationSearchBase + ProvinceKey, province, YearKey + w);
  }

  /** The regrouped page URL parses back to its three values. */
  lemma PageLayoutParses(province: string, startYear: string, startRow: nat)
    ensures |province| == 2 && |startYear| == 4 ==>
              ParsePageUrl((StationSearchBase + ProvinceKey) + (province + (YearKey + (startYear
                + (StartRowKey + Decimal(startRow))))))
              == Some(PageQuery(province, startYear, startRow))
  {
    if |province| == 2 && |startYear| == 4 {
      var d := Decimal(startRow);
      var afterYearKey := startYear + (StartRowKey + d);
      var afterKey := province + (YearKey + afterYearKey);
      StripPrefixOf(StationSearchBase + ProvinceKey, afterKey);
      assert afterKey[..2] == province && afterKey[2..] == YearKey + afterYearKey;
      StripPrefixOf(YearKey, afterYearKey);
      assert afterYearKey[..4] == startYear && afterYearKey[4..] == StartRowKey + d;
      StripPrefixOf(StartRowKey, d);
      ReadNatDecimal(startRow, []);
      assert d + [] == d;
      assert StripPrefix(StartRowKey, afterYearKey[4..]) == Some(d);
      assert ReadNat(d) == Some((startRow, []));
    }
  }

  /** Page i of an accepted request asks for the given province and year from start row
      1 + 100 * i: each page starts 100 rows after the one before. */
  lemma PlannedStartRows(province: string, startYear: string, n: nat)
    requires |province| == 2 && |startYear| == 4
    ensures var urls := PageUrls(province, startYear, n);
      forall i :: 0 <= i < n ==> ParsePageUrl(urls[i]) == Some(PageQuery(province, startYear, 1 + 100 * i))
  {
  }

  // ---------------------------------------------------------------------------
  // getHourlyData
  // ---------------------------------------------------------------------------

  const HourlyBase := "http://climate.weather.gc.ca/climate_data/bulk_data_e.html?"
  const StationKey := "format=csv&stationID="
  const HourlyYearKey := "&Year="
  const HourlyMonthKey := "&Month="
  const HourlyTail := "&timeframe=1"

  /** The bulk-data URL of `getHourlyData`: station, year and month, in that order, with
      hourly time frame. A numeric station, year and month read back unchanged. */
  function HourlyUrl(stationID: PyValue, year: int, month: int): (u: string)
    ensures stationID.Int? && stationID.n >= 0 && year >= 0 && month >= 0 ==>
              ParseHourlyUrl(u) == Some(HourlyQuery(stationID.n, year, month))
  {
    HourlyLayoutParses(stationID, year, month);
    HourlyBase + (StationKey + (Format(stationID) + (HourlyYearKey + (IntToString(year)
      + (HourlyMonthKey + (IntToString(month) + HourlyTail))))))
  }

  datatype HourlyQuery = HourlyQuery(stationID: nat, year: nat, month: nat)

  /** Takes a bulk-data URL with a numeric station apart. */
  function ParseHourlyUrl(url: string): Option<HourlyQuery>
  {
    match ReadKeyedNat(HourlyBase + StationKey, url)
    case None => None
    case Some((station, b)) =>
      match ReadKeyedNat(HourlyYearKey, b)
      case None => None
      case Some((year, d)) =>
        match ReadKeyedNat(HourlyMonthKey, d)
        case None => None
        case Some((month, f)) =>
          if f == HourlyTail then Some(HourlyQuery(station, year, month)) else None
  }

  /** The hourly URL text parses back to a numeric station, year and month. */
  lemma HourlyLayoutParses(stationID: PyValue, year: int, month: int)
    ensures stationID.Int? && stationID.n >= 0 && year >= 0 && month >= 0 ==>
              ParseHourlyUrl(HourlyBase + (StationKey + (Format(stationID) + (HourlyYearKey
                + (IntToString(year) + (HourlyMonthKey + (IntToString(month) + HourlyTail)))))))
              == Some(HourlyQuery(stationID.n, year, month))
  {
    if stationID.Int? && stationID.n >= 0 && year >= 0 && month >= 0 {
      var e := HourlyMonthKey + (Decimal(month) + HourlyTail);
      var c := HourlyYearKey + (Decimal(year) + e);
      assert HourlyBase + (StationKey + (Decimal(stationID.n) + c))
          == (HourlyBase + StationKey) + (Decimal(stationID.n) + c);
      ReadKeyedNatOf(HourlyBase + StationKey, stationID.n, c);
      ReadKeyedNatOf(HourlyYearKey, year, e);
      ReadKeyedNatOf(HourlyMonthKey, month, HourlyTail);
    }
  }

  // ---------------------------------------------------------------------------
  // download_data_date_range
  // ---------------------------------------------------------------------------

  /** A calendar month as `strptime(..., '%b%Y')` parses it (the first day of the month). */
  datatype YearMonth = YearMonth(year: int, month: int)

  predicate IsCalendarMonth(m: YearMonth)
  {
    1 <= m.month <= 12
  }

  /** Months counted from January of year 0; the order of months in time. */
  function MonthIndex(m: YearMonth): int
  {
    m.year * 12 + (m.month - 1)
  }

  /** The month after m in the calendar. */
  function NextMonth(m: YearMonth): (n: YearMonth)
    requires IsCalendarMonth(m)
    ensures IsCalendarMonth(n) && MonthIndex(n) == MonthIndex(m) + 1
  {
    if m.month == 12 then YearMonth(m.year + 1, 1) else YearMonth(m.year, m.month + 1)
  }

  /** Calendar months are told apart by their index. */
  lemma MonthIndexInjective(a: YearMonth, b: YearMonth)
    requires IsCalendarMonth(a) && IsCalendarMonth(b) && MonthIndex(a) == MonthIndex(b)
    ensures a == b
  {
  }

  /** `rrule(MONTHLY, dtstart=start, until=end)`: every calendar month from start to end,
      both included, none when end comes before start. */
  function MonthRange(start: YearMonth, end: YearMonth): (r: seq<YearMonth>)
    requires IsCalendarMonth(start) && IsCalendarMonth(end)
    ensures |r| == if MonthIndex(end) < MonthIndex(start) then 0 else MonthIndex(end) - MonthIndex(start) + 1
    ensures forall k :: 0 <= k < |r| ==> IsCalendarMonth(r[k]) && MonthIndex(r[k]) == MonthIndex(start) + k
    decreases MonthIndex(end) - MonthIndex(start)
  {
    if MonthIndex(end) < MonthIndex(start) then [] else [start] + MonthRange(NextMonth(start), end)
  }

  /** The range starts at start, ends at end, steps one calendar month at a time, and
      holds exactly the calendar months between the two. */
  lemma MonthRangeExact(start: YearMonth, end: YearMonth)
    requires IsCalendarMonth(start) && IsCalendarMonth(end)
    ensures var r := MonthRange(start, end);
      && (r != [] ==> r[0] == start && r[|r| - 1] == end)
      && (forall k :: 0 <= k < |r| - 1 ==> r[k + 1] == NextMonth(r[k]))
      && (forall m :: IsCalendarMonth(m) ==>
            (m in r <==> MonthIndex(start) <= MonthIndex(m) <= MonthIndex(end)))
  {
    var r := MonthRange(start, end);
    if r != [] {
      MonthIndexInjective(r[0], start);
      MonthIndexInjective(r[|r| - 1], end);
    }
    forall k | 0 <= k < |r| - 1 ensures r[k + 1] == NextMonth(r[k]) {
      MonthIndexInjective(r[k + 1], NextMonth(r[k]));
    }
    forall m | IsCalendarMonth(m) && MonthIndex(start) <= MonthIndex(m) <= MonthIndex(end)
      ensures m in r
    {
      var k := MonthIndex(m) - MonthIndex(start);
      MonthIndexInjective(r[k], m);
    }
  }

  /** The hourly URLs of the months of a range, in order. */
  function MonthUrls(stationID: PyValue, months: seq<YearMonth>): (urls: seq<string>)
    ensures |urls| == |months|
    ensures forall k :: 0 <= k < |months| ==> urls[k] == HourlyUrl(stationID, months[k].year, months[k].month)
  {
    seq(|months|, k requires 0 <= k < |months| => HourlyUrl(stationID, months[k].year, months[k].month))
  }

  /** The k-th URL requested for a range asks for the station's table of the k-th month
      of the range. */
  lemma PlannedMonths(stationID: nat, start: YearMonth, end: YearMonth)
    requires IsCalendarMonth(start) && IsCalendarMonth(end) && start.year >= 0
    ensures var months := MonthRange(start, end);
      var urls := MonthUrls(Int(stationID), months);
      forall k :: 0 <= k < |urls| ==>
        months[k].year >= 0 && months[k].month >= 1
        && ParseHourlyUrl(urls[k]) == Some(HourlyQuery(stationID, months[k].year, months[k].month))
  {
    var months := MonthRange(start, end);
    forall k | 0 <= k < |months| ensures months[k].year >= start.year {
      assert MonthIndex(months[k]) >= MonthIndex(start);
    }
  }

  /** `download_data_date_range`: fetches the hourly table of every month in the range,
      in order, and concatenates them. It returns None when a date did not parse, when
      the range is empty (`pd.concat` of no frames raises) or when a request fails. */
  method DownloadDataDateRange<R>(stationID: PyValue, start: Option<YearMonth>, end: Option<YearMonth>,
                                  fetch: string -> Option<seq<R>>)
    returns (data: Option<seq<R>>)
    requires start.Some? ==> IsCalendarMonth(start.value)
    requires end.Some? ==> IsCalendarMonth(end.value)
    ensures start.None? || end.None? ==> data == None
    ensures start.Some? && end.Some? ==>
              var urls := MonthUrls(stationID, MonthRange(start.value, end.value));
              && (data.Some? <==> |urls| > 0 && AllFetched(urls, fetch))
              && (data.Some? ==>
                    data.value == Flatten(seq(|urls|, k requires 0 <= k < |urls| => fetch(urls[k]).value)))
  {
    if start.None? || end.None? {
      return None;
    }
    var urls := MonthUrls(stationID, MonthRange(start.value, end.value));
    var frames := FetchEach(urls, fetch);
    if frames.None? || frames.value == [] {
      return None;
    }
    assert frames.value == seq(|urls|, k requires 0 <= k < |urls| => fetch(urls[k]).value);
    return Some(Flatten(frames.value));
  }

  // ---------------------------------------------------------------------------
  // get_weather_data_by_loc
  // ---------------------------------------------------------------------------

  /** One row of the station table. */
  datatype Station = Station(stationID: string, name: string, intervals: seq<string>,
                             yearStart: string, yearEnd: string)

  /** A station matches when its name scores strictly above this against the location. */
  const Tolerance: int := 90

  function ScoreMask(stations: seq<Station>, location: string, score: (string, string) -> int): seq<bool>
  {
    seq(|stations|, k requires 0 <= k < |stations| => score(stations[k].name, location) > Tolerance)
  }

  /** `get_weather_data_by_loc`: the rows whose name scores above the tolerance. */
  function StationsByLocation(stations: seq<Station>, location: string, score: (string, string) -> int)
    : (r: seq<Station>)
    ensures forall j :: 0 <= j < |r| ==> score(r[j].name, location) > Tolerance
  {
    var keep := ScoreMask(stations, location, score);
    SelectedSatisfy(stations, keep, (st: Station) => score(st.name, location) > Tolerance);
    Select(stations, keep)
  }

  /** The filter keeps exactly the stations scoring above the tolerance, in their
      original order. */
  lemma StationsByLocationExact(stations: seq<Station>, location: string, score: (string, string) -> int)
    ensures var r, idx := StationsByLocation(stations, location, score), Indices(ScoreMask(stations, location, score));
      && |r| == |idx|
      && (forall j :: 0 <= j < |r| ==> r[j] == stations[idx[j]])
      && (forall a, b :: 0 <= a < b < |idx| ==> idx[a] < idx[b])
      && (forall k :: 0 <= k < |stations| ==> (score(stations[k].name, location) > Tolerance <==> k in idx))
  {
    var keep := ScoreMask(stations, location, score);
    SelectExact(stations, keep);
  }
}
