/** `download_data` and `download_data_range` of the real-time scraper: one
    month of one station, read from the data page into a frame named after
    the station's class, completed to the whole month when asked, replaced
    by an empty month when anything inside the `try` fails, and optionally
    cut down to one day; then the months of a date range, one after the
    other. */
module Realtime {
  import opened Wrappers
  import opened Calendar
  import opened DateText
  import opened Stations
  import opened Altitude
  import opened Frames
  import opened Merge
  import opened Completion

  // ---------------------------------------------------------------------
  // What the scraper reads from outside
  // ---------------------------------------------------------------------

  /** What `pd.to_datetime` makes of one `fecha` text: a timestamp, `NaT`, or
      an exception. */
  datatype Parsed = At(date: Date) | NotATime | Unreadable

  /** The web service and the date parser the scraper relies on: the station
      page for a query (its `<td>` cells, or nothing when the request fails),
      the data page for a query (its tables), and `pd.to_datetime` on one
      text. */
  datatype Service = Service(
    stationPage: Query -> Option<seq<TableCell>>,
    dataPage: Query -> Option<Tables>,
    parse: string -> Parsed)

  /** pandas timestamps hold dates between the years 1678 and 2261 (whole
      years), so every parsed date lies there. */
  ghost predicate SoundParser(parse: string -> Parsed) {
    forall t :: parse(t).At? ==> ValidDate(parse(t).date) && 1678 <= parse(t).date.year <= 2261
  }

  // ---------------------------------------------------------------------
  // The frame download_data returns
  // ---------------------------------------------------------------------

  /** A `DATE` cell: text (`strftime` output, or `"nan"`), or a datetime. */
  datatype DateCell = Written(text: string) | Stamped(day: Date)

  /** A row: its `DATE` and its other cells, in column order. */
  datatype Record = Record(date: DateCell, cells: seq<Cell>)

  datatype Frame = Frame(columns: seq<string>, records: seq<Record>)

  /** The query of `_dato_esta_tipo02.php` for one month: unlike the station
      page's query it always carries `cod_old`, empty when the record has
      none, and it carries the altitude just found. */
  function DataQuery(rec: StationRecord, period: string): (q: Query)
    requires rec.alt.Some?
    ensures |q| == 7 && q[1] == ("CBOFiltro", period) && q[6] == ("alt", rec.alt.value)
    ensures HasKey(q, "cod_old") && q[4].1 == (if rec.codOld.Some? then rec.codOld.value else "")
  {
    var codOld := if rec.codOld.Some? then rec.codOld.value else "";
    var q := [("estaciones", rec.cod), ("CBOFiltro", period), ("t_e", rec.ico), ("estado", rec.estado),
              ("cod_old", codOld), ("cate_esta", rec.cate), ("alt", rec.alt.value)];
    assert q[4].0 == "cod_old";
    q
  }

  /** A response, or the exception of a failed request. */
  function Fetched<T>(response: Option<T>): (r: Result<T>)
    ensures r.Ok? <==> response.Some?
    ensures r.Ok? ==> r.value == response.value
    ensures r.Err? ==> r.error == FetchFailed
  {
    match response
    case Some(v) => Ok(v)
    case None => Err(FetchFailed)
  }

  // ---------------------------------------------------------------------
  // Inside the try
  // ---------------------------------------------------------------------

  /** `pd.to_datetime` of one `fecha` cell; an empty cell is `NaT`. */
  function ReadFecha(cell: Cell, parse: string -> Parsed): Parsed {
    match cell
    case None => NotATime
    case Some(t) => parse(t)
  }

  /** `pd.to_datetime(total_df.fecha)`: the whole column, `None` standing
      for `NaT`; one text that does not read makes the call raise. */
  function ReadFechas(rows: seq<seq<Cell>>, parse: string -> Parsed): (r: Result<seq<Option<Date>>>)
    requires forall i :: 0 <= i < |rows| ==> |rows[i]| >= 1
    requires SoundParser(parse)
    ensures r.Ok? <==> forall i :: 0 <= i < |rows| ==> !ReadFecha(rows[i][0], parse).Unreadable?
    ensures r.Err? ==> r.error == UnparsableValue
    ensures r.Ok? ==> |r.value| == |rows|
    ensures r.Ok? ==> forall i :: 0 <= i < |rows| ==>
              (r.value[i].Some? <==> ReadFecha(rows[i][0], parse).At?)
              && (r.value[i].Some? ==> r.value[i].value == ReadFecha(rows[i][0], parse).date)
    ensures r.Ok? ==> forall i :: 0 <= i < |r.value| ==> r.value[i].Some? ==>
              ValidDate(r.value[i].value) && 1678 <= r.value[i].value.year <= 2261
  {
    if exists i :: 0 <= i < |rows| && ReadFecha(rows[i][0], parse).Unreadable? then Err(UnparsableValue)
    else Ok(seq(|rows|, i requires 0 <= i < |rows| =>
              match ReadFecha(rows[i][0], parse)
              case At(d) => Some(d)
              case _ => None))
  }

  /** `.dt.strftime('%Y-%m-%d').apply(str)`: `NaT` becomes the text `"nan"`. */
  function FechaText(d: Option<Date>): string
    requires d.Some? ==> ValidDate(d.value)
  {
    match d
    case Some(day) => FormatIsoDate(day)
    case None => "nan"
  }

  /** The marker the data page writes for a missing value. */
  const NoDataMarker: string := "S/D"

  /** `replace({'S/D': np.NaN})` on the cells of one row. */
  function Cleaned(cells: seq<Cell>): (r: seq<Cell>)
    ensures |r| == |cells|
    ensures forall j :: 0 <= j < |r| ==> r[j] != Some(NoDataMarker)
    ensures forall j :: 0 <= j < |r| ==>
              (cells[j] == Some(NoDataMarker) ==> r[j] == None) && (cells[j] != Some(NoDataMarker) ==> r[j] == cells[j])
  {
    seq(|cells|, j requires 0 <= j < |cells| => if cells[j] == Some(NoDataMarker) then None else cells[j])
  }

  /** No cell is the missing-value marker. */
  predicate Unmarked(cells: seq<Cell>) {
    forall j :: 0 <= j < |cells| ==> cells[j] != Some(NoDataMarker)
  }

  /** The completion step of the `try`: the dates must all be timestamps
      (`NaT` makes the month key fail), then `complete_monthly_data`; an
      automatic station's dates come back as text, the others' as
      datetimes. */
  function Completed(dates: seq<Option<Date>>, values: seq<seq<Cell>>, stationClass: string, width: nat): (r: Result<seq<Record>>)
    requires |dates| == |values|
    requires forall i :: 0 <= i < |dates| ==> dates[i].Some? ==> ValidDate(dates[i].value)
    requires forall i :: 0 <= i < |values| ==> |values[i]| == width
  {
    if exists i :: 0 <= i < |dates| && dates[i].None? then Err(UnparsableValue)
    else
      var rows := StationRows(dates, values, width);
      var done :- CompleteMonthlyData(rows, stationClass, width);
      Ok(AsRecords(done, width, ClassSuffix(stationClass) == "automatic"))
  }

  /** The completed rows as frame records, their dates as text or as
      datetimes. */
  function AsRecords(done: seq<Row>, width: nat, asText: bool): (r: seq<Record>)
    requires WellFormed(done, width)
    ensures |r| == |done|
    ensures forall k :: 0 <= k < |r| ==>
              r[k].cells == done[k].cells
              && r[k].date == (if asText then Written(FormatIsoDate(done[k].date)) else Stamped(done[k].date))
  {
    seq(|done|, k requires 0 <= k < |done| =>
      Record(if asText then Written(FormatIsoDate(done[k].date)) else Stamped(done[k].date), done[k].cells))
  }

  /** The frame `complete_monthly_data` receives: each row's timestamp and
      its other cells. */
  function StationRows(dates: seq<Option<Date>>, values: seq<seq<Cell>>, width: nat): (rows: seq<Row>)
    requires |dates| == |values|
    requires forall i :: 0 <= i < |dates| ==> dates[i].Some? && ValidDate(dates[i].value)
    requires forall i :: 0 <= i < |values| ==> |values[i]| == width
    ensures |rows| == |dates| && WellFormed(rows, width)
    ensures forall i :: 0 <= i < |rows| ==> rows[i].date == dates[i].value && rows[i].cells == values[i]
  {
    seq(|dates|, i requires 0 <= i < |dates| => Row(dates[i].value, values[i]))
  }

  /** The `try` of `download_data`: fetch and select the raw table, rewrite
      `fecha` as text, rename the columns after the class, drop the `S/D`
      markers, and complete the month when asked. */
  function Attempt(db: seq<StationRecord>, code: string, rec: StationRecord, schema: seq<string>, period: string,
                   completedata: bool, svc: Service): (r: Result<seq<Record>>)
    requires rec.alt.Some? && |schema| >= 1 && SoundParser(svc.parse)
  {
    var tables :- Fetched(svc.dataPage(DataQuery(rec, period)));
    FromTables(db, code, rec.ico, rec.estado, tables, schema, completedata, svc.parse)
  }

  /** The `try` once the data page is in: `data_senamhi_realtime`'s table
      selection, then the rest. */
  function FromTables(db: seq<StationRecord>, code: string, ico: string, estado: string, tables: Tables,
                      schema: seq<string>, completedata: bool, parse: string -> Parsed): (r: Result<seq<Record>>)
    requires |schema| >= 1 && SoundParser(parse)
  {
    var raw :- SelectTable(tables, ico, estado);
    FromRaw(db, code, raw, schema, completedata, parse)
  }

  /** The `try` once the raw table is read: `fecha` parsed, the columns
      renamed (the class's names must match the raw width one for one), the
      markers dropped and the month completed when asked. */
  function FromRaw(db: seq<StationRecord>, code: string, raw: RawTable, schema: seq<string>, completedata: bool,
                   parse: string -> Parsed): (r: Result<seq<Record>>)
    requires forall i :: 0 <= i < |raw.rows| ==> |raw.rows[i]| == |raw.columns|
    requires |raw.columns| >= 1 && |schema| >= 1 && SoundParser(parse)
  {
    var dates :- ReadFechas(raw.rows, parse);
    if |schema| != |raw.columns| then Err(ColumnMismatch)
    else Reshaped(db, code, dates, Values(raw.rows), |schema| - 1, completedata)
  }

  /** Every row without its `fecha` cell, `S/D` markers dropped. */
  function Values(rows: seq<seq<Cell>>): (r: seq<seq<Cell>>)
    requires forall i :: 0 <= i < |rows| ==> |rows[i]| >= 1
    ensures |r| == |rows|
    ensures forall i :: 0 <= i < |rows| ==> r[i] == Cleaned(rows[i][1..])
  {
    seq(|rows|, i requires 0 <= i < |rows| => Cleaned(rows[i][1..]))
  }

  /** The renamed frame as it leaves the `try`: `fecha` as text, or the
      month completed. */
  function Reshaped(db: seq<StationRecord>, code: string, dates: seq<Option<Date>>, values: seq<seq<Cell>>,
                    width: nat, completedata: bool): (r: Result<seq<Record>>)
    requires |dates| == |values|
    requires forall i :: 0 <= i < |dates| ==> dates[i].Some? ==> ValidDate(dates[i].value)
    requires forall i :: 0 <= i < |values| ==> |values[i]| == width
  {
    if !completedata then
      Ok(seq(|values|, i requires 0 <= i < |values| => Record(Written(FechaText(dates[i])), values[i])))
    else
      var cls :- GaugestationClasification(db, code, false);
      Completed(dates, values, cls.id, width)
  }

  // ---------------------------------------------------------------------
  // The except branch and the specific filter
  // ---------------------------------------------------------------------

  /** The `except` branch: one row per day of the month, `DATE` holding the
      day and every other column empty. */
  function Fallback(y: int, m: int, schema: seq<string>): (r: seq<Record>)
    requires y >= 1 && 1 <= m <= 12 && |schema| >= 1
    ensures var days := DayRange(Date(y, m, 1), Date(y, m, DaysInMonth(y, m)));
            |r| == |days| == DaysInMonth(y, m)
            && forall i :: 0 <= i < |r| ==> r[i].date == Stamped(days[i]) && r[i].cells == Blank(|schema| - 1)
  {
    DailyGridIsDayRange(y, m);
    var n := DaysInMonth(y, m);
    seq(n, i requires 0 <= i < n => Record(Stamped(Date(y, m, i + 1)), Blank(|schema| - 1)))
  }

  /** `total_df.DATE == date`: a text cell equals the text, and a datetime
      equals the day the text names. */
  predicate DateIs(c: DateCell, text: string, day: Date) {
    match c
    case Written(s) => s == text
    case Stamped(d) => d == day
  }

  /** `total_df[total_df.DATE == date]`. */
  function KeepDate(records: seq<Record>, text: string, day: Date): (r: seq<Record>)
    ensures forall x :: x in r <==> x in records && DateIs(x.date, text, day)
    ensures |r| <= |records|
    decreases |records|
  {
    if |records| == 0 then []
    else
      var rest := KeepDate(records[1..], text, day);
      assert forall k :: 1 <= k < |records| ==> records[k] == records[1..][k - 1];
      if DateIs(records[0].date, text, day) then [records[0]] + rest else rest
  }

  // ---------------------------------------------------------------------
  // download_data
  // ---------------------------------------------------------------------

  /** `add_altitude` on the page the station query returns: a failed request
      raises, and a page without any "msnm" cell leaves `alt` unbound. */
  function AltitudeOf(rec: StationRecord, svc: Service): (r: Result<string>)
    ensures r.Ok? <==> svc.stationPage(AltitudeQuery(rec)).Some? && LastAltitude(svc.stationPage(AltitudeQuery(rec)).value).Some?
    ensures r.Ok? ==> r.value == LastAltitude(svc.stationPage(AltitudeQuery(rec)).value).value
  {
    var cells :- Fetched(svc.stationPage(AltitudeQuery(rec)));
    match LastAltitude(cells)
    case Some(alt) => Ok(alt)
    case None => Err(NoAltitude)
  }

  /** `datetime.strptime(date, "%Y-%m-%d")`. */
  function ParseDate(date: string): (r: Result<Date>)
    ensures r.Ok? <==> ParseIsoDate(date).Some?
    ensures r.Ok? ==> r.value == ParseIsoDate(date).value && ValidDate(r.value) && r.value.year <= 9999
  {
    match ParseIsoDate(date)
    case Some(d) => Ok(d)
    case None => Err(UnparsableValue)
  }

  /** `download_data(station_code, date, completedata, specific)`. Before the
      `try`: the lookup, the altitude, the date and the column list, whose
      failures propagate; inside it, anything that fails gives the empty
      month instead. */
  function DownloadData(db: seq<StationRecord>, code: string, date: string, completedata: bool, specific: bool,
                        svc: Service): (r: Result<Frame>)
    requires SoundParser(svc.parse)
    ensures r.Ok? ==> Lookup(db, code).Ok? && ParseIsoDate(date).Some?
    ensures r.Ok? ==> ColumnsOf(Lookup(db, code).value).Ok? && r.value.columns == ColumnsOf(Lookup(db, code).value).value
    ensures Lookup(db, code).Err? ==> r == Err(DuplicatedStationCode)
  {
    var rec :- Lookup(db, code);
    var alt :- AltitudeOf(rec, svc);
    var day :- ParseDate(date);
    var period := PeriodToken(day.year, day.month);
    var cls :- GaugestationClasification(db, code, true);
    var schema := cls.names;
    var attempt := Attempt(db, code, rec.(alt := Some(alt)), schema, period, completedata, svc);
    var records := if attempt.Ok? then attempt.value else Fallback(day.year, day.month, schema);
    Ok(Frame(schema, if specific then KeepDate(records, date, day) else records))
  }

  // ---------------------------------------------------------------------
  // What download_data guarantees
  // ---------------------------------------------------------------------

  /** The steps before the `try` other than the column list succeed: the
      code names one station, its page has an altitude, and the date
      reads. */
  predicate Reaches(db: seq<StationRecord>, code: string, date: string, svc: Service) {
    Lookup(db, code).Ok? && AltitudeOf(Lookup(db, code).value, svc).Ok? && ParseIsoDate(date).Some?
  }

  /** What the `try` computes once the steps before it succeed: the data
      page fetched for the station's month and read into records. */
  function TryBlock(db: seq<StationRecord>, code: string, date: string, completedata: bool, svc: Service): Result<seq<Record>>
    requires SoundParser(svc.parse) && Reaches(db, code, date, svc) && ColumnsOf(Lookup(db, code).value).Ok?
  {
    var rec := Lookup(db, code).value;
    ClassesCovered(rec);
    var day := ParseIsoDate(date).value;
    Attempt(db, code, rec.(alt := Some(AltitudeOf(rec, svc).value)), ColumnsOf(rec).value,
            PeriodToken(day.year, day.month), completedata, svc)
  }

  /** Whatever fails inside the `try` gives the empty month in the class's
      columns, all days or only the requested one. */
  lemma TryFailsGivesEmptyMonth(db: seq<StationRecord>, code: string, date: string, completedata: bool, specific: bool,
                                svc: Service)
    requires SoundParser(svc.parse) && Reaches(db, code, date, svc)
    requires ColumnsOf(Lookup(db, code).value).Ok?
    requires TryBlock(db, code, date, completedata, svc).Err?
    ensures var schema := ColumnsOf(Lookup(db, code).value).value;
            |schema| >= 1
            && DownloadData(db, code, date, completedata, specific, svc) == Ok(Frame(schema, EmptyMonth(date, schema, specific)))
  {
    ClassesCovered(Lookup(db, code).value);
  }

  /** When the `try` succeeds its records are the frame's, cut to the
      requested day when `specific` is set. */
  lemma TrySucceedsGivesItsRecords(db: seq<StationRecord>, code: string, date: string, completedata: bool, specific: bool,
                                   svc: Service)
    requires SoundParser(svc.parse) && Reaches(db, code, date, svc)
    requires ColumnsOf(Lookup(db, code).value).Ok?
    requires TryBlock(db, code, date, completedata, svc).Ok?
    ensures var records := TryBlock(db, code, date, completedata, svc).value;
            DownloadData(db, code, date, completedata, specific, svc) ==
            Ok(Frame(ColumnsOf(Lookup(db, code).value).value,
                     if specific then KeepDate(records, date, ParseIsoDate(date).value) else records))
  {
    ClassesCovered(Lookup(db, code).value);
  }

  /** The column list is looked up before the `try`, so an unknown flag or
      a class without a column list raises instead of falling back. */
  lemma ClassificationOutsideTry(db: seq<StationRecord>, code: string, date: string, completedata: bool, specific: bool,
                                 svc: Service)
    requires SoundParser(svc.parse) && Reaches(db, code, date, svc)
    requires ColumnsOf(Lookup(db, code).value).Err?
    ensures DownloadData(db, code, date, completedata, specific, svc) == Err(ColumnsOf(Lookup(db, code).value).error)
  {
  }

  /** A hydrological automatic station always raises: its class
      `hidro_automatic` has no column list. */
  lemma HidroAutomaticRaises(db: seq<StationRecord>, code: string, date: string, completedata: bool, specific: bool,
                             svc: Service)
    requires SoundParser(svc.parse) && Reaches(db, code, date, svc)
    requires Lookup(db, code).value.ico == "H" && Lookup(db, code).value.estado == "AUTOMATICA"
    ensures DownloadData(db, code, date, completedata, specific, svc) == Err(MissingSchema)
  {
    ColumnsByFlags(Lookup(db, code).value);
    ClassificationOutsideTry(db, code, date, completedata, specific, svc);
  }

  /** The month `download_data` falls back to, cut down to the requested day
      when `specific`. */
  function EmptyMonth(date: string, schema: seq<string>, specific: bool): (r: seq<Record>)
    requires ParseIsoDate(date).Some? && |schema| >= 1
  {
    var day := ParseIsoDate(date).value;
    var month := Fallback(day.year, day.month, schema);
    if specific then KeepDate(month, date, day) else month
  }

  /** A hydrological manual station is read with five raw columns but named
      with four, so the renaming always raises and the month is always
      empty. */
  lemma HidroDeferredFallsBack(db: seq<StationRecord>, code: string, date: string, completedata: bool, specific: bool,
                               svc: Service)
    requires SoundParser(svc.parse) && Reaches(db, code, date, svc)
    requires Lookup(db, code).value.ico == "H" && Lookup(db, code).value.estado == "DIFERIDO"
    ensures var schema := ["DATE", "HOUR", "LEVEL", "PREC_H"];
            DownloadData(db, code, date, completedata, specific, svc) == Ok(Frame(schema, EmptyMonth(date, schema, specific)))
  {
    var rec := Lookup(db, code).value;
    ColumnsByFlags(rec);
    RawWidths(rec.ico, rec.estado);
    var day := ParseIsoDate(date).value;
    var alt := AltitudeOf(rec, svc).value;
    var schema := ["DATE", "HOUR", "LEVEL", "PREC_H"];
    RenamingNeedsRawWidth(db, code, rec.(alt := Some(alt)), schema, PeriodToken(day.year, day.month), completedata, svc);
  }

  /** Renaming needs one class column per raw column: otherwise the `try`
      fails whatever the page holds. */
  lemma RenamingNeedsRawWidth(db: seq<StationRecord>, code: string, rec: StationRecord, schema: seq<string>,
                              period: string, completedata: bool, svc: Service)
    requires rec.alt.Some? && |schema| >= 1 && SoundParser(svc.parse)
    requires RawLayout(rec.ico, rec.estado).Some? && |schema| != |RawLayout(rec.ico, rec.estado).value.0|
    ensures Attempt(db, code, rec, schema, period, completedata, svc).Err?
  {
    var page := svc.dataPage(DataQuery(rec, period));
    if page.Some? {
      var raw := SelectTable(page.value, rec.ico, rec.estado);
      if raw.Ok? {
        assert FromRaw(db, code, raw.value, schema, completedata, svc.parse).Err?;
      }
    }
  }

  /** When the data page cannot be fetched, the frame is the empty month:
      one row per day, `DATE` set, every other column empty. */
  lemma DataPageDownGivesEmptyMonth(db: seq<StationRecord>, code: string, date: string, completedata: bool, specific: bool,
                                    svc: Service)
    requires SoundParser(svc.parse) && Reaches(db, code, date, svc)
    requires ColumnsOf(Lookup(db, code).value).Ok?
    requires forall q :: svc.dataPage(q).None?
    ensures var schema := ColumnsOf(Lookup(db, code).value).value;
            |schema| >= 1
            && DownloadData(db, code, date, completedata, specific, svc) == Ok(Frame(schema, EmptyMonth(date, schema, specific)))
  {
    var rec := Lookup(db, code).value;
    ClassesCovered(rec);
  }

  /** Only one row of the empty month is the requested day. */
  lemma EmptyMonthSpecific(date: string, schema: seq<string>)
    requires ParseIsoDate(date).Some? && |schema| >= 1
    ensures EmptyMonth(date, schema, true) == [Record(Stamped(ParseIsoDate(date).value), Blank(|schema| - 1))]
  {
    var day := ParseIsoDate(date).value;
    var month := Fallback(day.year, day.month, schema);
    var k := day.day - 1;
    forall j | 0 <= j < |month| ensures month[j].date == Stamped(Date(day.year, day.month, j + 1)) {
      DailyGridIsDayRange(day.year, day.month);
      assert DailyGrid(day.year, day.month)[j].date == Date(day.year, day.month, j + 1);
    }
    KeepDateSingle(month, date, day, k);
  }

  /** Filtering keeps exactly the one matching row when only one matches. */
  lemma {:induction false} KeepDateSingle(records: seq<Record>, text: string, day: Date, k: int)
    requires 0 <= k < |records| && DateIs(records[k].date, text, day)
    requires forall j :: 0 <= j < |records| && j != k ==> !DateIs(records[j].date, text, day)
    ensures KeepDate(records, text, day) == [records[k]]
    decreases |records|
  {
    if k > 0 {
      var rest := records[1..];
      forall j | 0 <= j < |rest| && j != k - 1 ensures !DateIs(rest[j].date, text, day) {
        assert rest[j] == records[j + 1];
      }
      KeepDateSingle(rest, text, day, k - 1);
    } else {
      var rest := records[1..];
      forall j | 0 <= j < |rest| ensures !DateIs(rest[j].date, text, day) {
        assert rest[j] == records[j + 1];
      }
      KeepDateNone(rest, text, day);
    }
  }

  /** Filtering drops every row when none matches. */
  lemma {:induction false} KeepDateNone(records: seq<Record>, text: string, day: Date)
    requires forall k :: 0 <= k < |records| ==> !DateIs(records[k].date, text, day)
    ensures KeepDate(records, text, day) == []
    decreases |records|
  {
    if |records| > 0 {
      var rest := records[1..];
      assert forall k :: 0 <= k < |rest| ==> rest[k] == records[k + 1];
      KeepDateNone(rest, text, day);
    }
  }

  /** Filtering keeps every row, in order, when all match. */
  lemma {:induction false} KeepDateAll(records: seq<Record>, text: string, day: Date)
    requires forall k :: 0 <= k < |records| ==> DateIs(records[k].date, text, day)
    ensures KeepDate(records, text, day) == records
    decreases |records|
  {
    if |records| > 0 {
      var rest := records[1..];
      assert forall k :: 0 <= k < |rest| ==> rest[k] == records[k + 1];
      KeepDateAll(rest, text, day);
      assert records == [records[0]] + rest;
    }
  }

  /** With `specific`, every row left has the requested `DATE`. */
  lemma SpecificKeepsRequestedDay(db: seq<StationRecord>, code: string, date: string, completedata: bool,
                                  svc: Service, k: int)
    requires SoundParser(svc.parse)
    requires DownloadData(db, code, date, completedata, true, svc).Ok?
    requires 0 <= k < |DownloadData(db, code, date, completedata, true, svc).value.records|
    ensures DateIs(DownloadData(db, code, date, completedata, true, svc).value.records[k].date, date, ParseIsoDate(date).value)
  {
    var r := DownloadData(db, code, date, completedata, true, svc).value.records;
    assert r[k] in r;
  }

  /** No record of the frame holds an `S/D` marker. */
  predicate AllUnmarked(records: seq<Record>) {
    forall x :: x in records ==> Unmarked(x.cells)
  }

  /** No `S/D` marker survives into the frame, whatever path it takes. */
  lemma MarkerNeverSurvives(db: seq<StationRecord>, code: string, date: string, completedata: bool, specific: bool,
                            svc: Service)
    requires SoundParser(svc.parse)
    requires DownloadData(db, code, date, completedata, specific, svc).Ok?
    ensures AllUnmarked(DownloadData(db, code, date, completedata, specific, svc).value.records)
  {
    var rec := Lookup(db, code).value;
    var alt := AltitudeOf(rec, svc).value;
    var day := ParseIsoDate(date).value;
    var schema := ColumnsOf(rec).value;
    ClassesCovered(rec);
    var attempt := Attempt(db, code, rec.(alt := Some(alt)), schema, PeriodToken(day.year, day.month), completedata, svc);
    var records := if attempt.Ok? then attempt.value else Fallback(day.year, day.month, schema);
    assert AllUnmarked(records) by {
      if attempt.Ok? {
        AttemptUnmarked(db, code, rec.(alt := Some(alt)), schema, PeriodToken(day.year, day.month), completedata, svc);
      } else {
        FallbackUnmarked(day.year, day.month, schema);
      }
    }
  }

  lemma FallbackUnmarked(y: int, m: int, schema: seq<string>)
    requires y >= 1 && 1 <= m <= 12 && |schema| >= 1
    ensures AllUnmarked(Fallback(y, m, schema))
  {
    var r := Fallback(y, m, schema);
    forall x | x in r ensures Unmarked(x.cells) {
      var i :| 0 <= i < |r| && r[i] == x;
    }
  }

  lemma AttemptUnmarked(db: seq<StationRecord>, code: string, rec: StationRecord, schema: seq<string>, period: string,
                        completedata: bool, svc: Service)
    requires rec.alt.Some? && |schema| >= 1 && SoundParser(svc.parse)
    requires Attempt(db, code, rec, schema, period, completedata, svc).Ok?
    ensures AllUnmarked(Attempt(db, code, rec, schema, period, completedata, svc).value)
  {
    var tables := svc.dataPage(DataQuery(rec, period)).value;
    FromTablesUnmarked(db, code, rec.ico, rec.estado, tables, schema, completedata, svc.parse);
  }

  lemma FromTablesUnmarked(db: seq<StationRecord>, code: string, ico: string, estado: string, tables: Tables,
                           schema: seq<string>, completedata: bool, parse: string -> Parsed)
    requires |schema| >= 1 && SoundParser(parse)
    requires FromTables(db, code, ico, estado, tables, schema, completedata, parse).Ok?
    ensures AllUnmarked(FromTables(db, code, ico, estado, tables, schema, completedata, parse).value)
  {
    var raw := SelectTable(tables, ico, estado).value;
    FromRawUnmarked(db, code, raw, schema, completedata, parse);
  }

  lemma FromRawUnmarked(db: seq<StationRecord>, code: string, raw: RawTable, schema: seq<string>, completedata: bool,
                        parse: string -> Parsed)
    requires forall i :: 0 <= i < |raw.rows| ==> |raw.rows[i]| == |raw.columns|
    requires |raw.columns| >= 1 && |schema| >= 1 && SoundParser(parse)
    requires FromRaw(db, code, raw, schema, completedata, parse).Ok?
    ensures AllUnmarked(FromRaw(db, code, raw, schema, completedata, parse).value)
  {
    var fechas := ReadFechas(raw.rows, parse);
    if fechas.Ok? && |schema| == |raw.columns| {
      ValuesUnmarked(raw.rows, |schema| - 1);
      ReshapedUnmarked(db, code, fechas.value, Values(raw.rows), |schema| - 1, completedata);
    }
  }

  lemma ValuesUnmarked(rows: seq<seq<Cell>>, width: nat)
    requires forall i :: 0 <= i < |rows| ==> |rows[i]| == width + 1
    ensures forall i :: 0 <= i < |rows| ==> |Values(rows)[i]| == width && Unmarked(Values(rows)[i])
  {
    var values := Values(rows);
    forall i | 0 <= i < |rows| ensures |values[i]| == width && Unmarked(values[i]) {
      assert values[i] == Cleaned(rows[i][1..]);
    }
  }

  lemma ReshapedUnmarked(db: seq<StationRecord>, code: string, dates: seq<Option<Date>>, values: seq<seq<Cell>>,
                         width: nat, completedata: bool)
    requires |dates| == |values|
    requires forall i :: 0 <= i < |dates| ==> dates[i].Some? ==> ValidDate(dates[i].value)
    requires forall i :: 0 <= i < |values| ==> |values[i]| == width && Unmarked(values[i])
    ensures Reshaped(db, code, dates, values, width, completedata).Ok? ==>
            AllUnmarked(Reshaped(db, code, dates, values, width, completedata).value)
  {
    var r := Reshaped(db, code, dates, values, width, completedata);
    if r.Err? {
    } else if completedata {
      var cls := GaugestationClasification(db, code, false).value;
      CompletedUnmarked(dates, values, cls.id, width);
    } else {
      forall x | x in r.value ensures Unmarked(x.cells) {
        var i :| 0 <= i < |r.value| && r.value[i] == x;
      }
    }
  }

  /** The completed month holds station cells, empty cells and the rewritten
      hours, none of which is the marker. */
  lemma CompletedUnmarked(dates: seq<Option<Date>>, values: seq<seq<Cell>>, stationClass: string, width: nat)
    requires |dates| == |values|
    requires forall i :: 0 <= i < |dates| ==> dates[i].Some? ==> ValidDate(dates[i].value)
    requires forall i :: 0 <= i < |values| ==> |values[i]| == width && Unmarked(values[i])
    requires Completed(dates, values, stationClass, width).Ok?
    ensures AllUnmarked(Completed(dates, values, stationClass, width).value)
  {
    var rows := StationRows(dates, values, width);
    var done := CompleteMonthlyData(rows, stationClass, width).value;
    var r := Completed(dates, values, stationClass, width).value;
    assert |r| == |done| && forall k :: 0 <= k < |r| ==> r[k].cells == done[k].cells;
    assert forall i :: 0 <= i < |rows| ==> Unmarked(rows[i].cells);
    forall x | x in r ensures Unmarked(x.cells) {
      var k :| 0 <= k < |r| && r[k] == x;
      MonthlyUnmarked(rows, stationClass, width, k);
    }
  }

  lemma MonthlyUnmarked(rows: seq<Row>, stationClass: string, width: nat, k: int)
    requires WellFormed(rows, width) && CompleteMonthlyData(rows, stationClass, width).Ok?
    requires forall i :: 0 <= i < |rows| ==> Unmarked(rows[i].cells)
    requires 0 <= k < |CompleteMonthlyData(rows, stationClass, width).value|
    ensures Unmarked(CompleteMonthlyData(rows, stationClass, width).value[k].cells)
  {
    if ClassSuffix(stationClass) == "automatic" {
      HourlyUnmarked(rows, width, k);
    } else {
      DailyUnmarked(rows, width, k);
    }
  }

  lemma DailyUnmarked(rows: seq<Row>, width: nat, k: int)
    requires WellFormed(rows, width) && |rows| > 0
    requires forall i :: 0 <= i < |rows| ==> Unmarked(rows[i].cells)
    requires 0 <= k < |CompleteDaily(rows, width).value|
    ensures Unmarked(CompleteDaily(rows, width).value[k].cells)
  {
    DailyOrigin(rows, width, k);
  }

  lemma HourlyUnmarked(rows: seq<Row>, width: nat, k: int)
    requires WellFormed(rows, width) && CompleteHourly(rows, width).Ok?
    requires forall i :: 0 <= i < |rows| ==> Unmarked(rows[i].cells)
    requires 0 <= k < |CompleteHourly(rows, width).value|
    ensures Unmarked(CompleteHourly(rows, width).value[k].cells)
  {
    CompleteHourlyValue(rows, width);
    var obs := HourlyObs(rows).value;
    var ym := ChosenMonth(rows);
    assert forall i :: 0 <= i < |obs| ==> Unmarked(obs[i].values) by {
      forall i | 0 <= i < |obs| ensures Unmarked(obs[i].values) {
        assert obs[i].values == rows[i].cells[1..];
        assert Unmarked(rows[i].cells);
      }
    }
    MergedRowUnmarked(obs, width, ym.0, ym.1, k);
  }

  lemma {:induction false} MergedRowUnmarked(obs: seq<Obs>, width: nat, y: int, m: int, k: int)
    requires y >= 1 && 1 <= m <= 12 && width >= 1 && DayMinutes(obs)
    requires forall i :: 0 <= i < |obs| ==> Unmarked(obs[i].values)
    requires 0 <= k < |HourlyMergedRows(obs, width, y, m)|
    ensures Unmarked(HourlyMergedRows(obs, width, y, m)[k].cells)
  {
    var merged := HourlyMerged(obs, width, y, m);
    assert DayMinutes(merged) by {
      MergedMinutes(obs, width, y, m);
    }
    var x := merged[k];
    assert HourlyMergedRows(obs, width, y, m)[k] == HourlyRow(x.key.date, x.key.minute, x.values) by {
      assert HourlyMergedRows(obs, width, y, m) == HourlyRows(merged);
    }
    if x in obs {
      var i :| 0 <= i < |obs| && obs[i] == x;
      HourRowUnmarked(x.key.date, x.key.minute, x.values);
    } else {
      MergedBlank(obs, width, y, m, k);
      HourRowUnmarked(x.key.date, x.key.minute, x.values);
    }
  }

  lemma HourRowUnmarked(date: Date, minute: nat, values: seq<Cell>)
    requires minute < 24 * 60 && Unmarked(values)
    ensures Unmarked(HourlyRow(date, minute, values).cells)
  {
    var cells := HourlyRow(date, minute, values).cells;
    assert |cells[0].value| == 8;
    forall j | 1 <= j < |cells| ensures cells[j] != Some(NoDataMarker) {
      assert cells[j] == values[j - 1];
    }
  }
}
