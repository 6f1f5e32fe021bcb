/** The second real-time scraper (`PE_SENAMHI_HIDROMETEOROLOGY2`): the same
    lookup, altitude, classification and table selection as the first, but
    a narrower `try` (fetch and date text only: no renaming, no `S/D`
    replacement, no completion), the classification called inside the
    `except`, a `specific` filter on the raw `fecha` column, and a range
    loop that always asks for the same month. */
module Realtime2 {
  import opened Wrappers
  import opened Calendar
  import opened DateText
  import opened Stations
  import opened Frames
  import opened Merge
  import opened Realtime
  import opened RealtimeRange

  // ---------------------------------------------------------------------
  // Inside the try
  // ---------------------------------------------------------------------

  /** The `try`: fetch the data page and select its table, then rewrite
      `fecha` as `%Y-%m-%d` text. The frame keeps the raw column names and
      the raw cells. */
  function Attempt2(rec: StationRecord, period: string, svc: Service): (r: Result<Frame>)
    requires rec.alt.Some? && SoundParser(svc.parse)
  {
    var tables :- Fetched(svc.dataPage(DataQuery(rec, period)));
    FromTables2(tables, rec.ico, rec.estado, svc.parse)
  }

  /** The `try` once the data page is in. */
  function FromTables2(tables: Tables, ico: string, estado: string, parse: string -> Parsed): (r: Result<Frame>)
    requires SoundParser(parse)
    ensures r.Ok? ==> RawLayout(ico, estado).Some? && r.value.columns == RawLayout(ico, estado).value.0
  {
    var raw :- SelectTable(tables, ico, estado);
    FromRaw2(raw, parse)
  }

  /** The `try` once the raw table is read: `pd.to_datetime(total_df.fecha)`
      must read every text, and the column becomes text again (`"nan"` for
      an empty cell). */
  function FromRaw2(raw: RawTable, parse: string -> Parsed): (r: Result<Frame>)
    requires forall i :: 0 <= i < |raw.rows| ==> |raw.rows[i]| >= 1
    requires SoundParser(parse)
    ensures r.Ok? <==> ReadFechas(raw.rows, parse).Ok?
    ensures r.Ok? ==> r.value.columns == raw.columns && |r.value.records| == |raw.rows|
  {
    var dates :- ReadFechas(raw.rows, parse);
    Ok(Frame(raw.columns, seq(|raw.rows|, i requires 0 <= i < |raw.rows| =>
                                Record(Written(FechaText(dates[i])), raw.rows[i][1..]))))
  }

  /** The date text of the frame is the parsed date written back; the other
      cells are the page's cells, unchanged. */
  lemma FromRaw2Rows(raw: RawTable, parse: string -> Parsed, i: int)
    requires forall i :: 0 <= i < |raw.rows| ==> |raw.rows[i]| >= 1
    requires SoundParser(parse)
    requires FromRaw2(raw, parse).Ok? && 0 <= i < |raw.rows|
    ensures var x := FromRaw2(raw, parse).value.records[i];
            x.cells == raw.rows[i][1..]
            && (raw.rows[i][0].Some? && parse(raw.rows[i][0].value).At? ==>
                  x.date == Written(FormatIsoDate(parse(raw.rows[i][0].value).date)))
            && (raw.rows[i][0].None? || parse(raw.rows[i][0].value).NotATime? ==> x.date == Written("nan"))
  {
    var dates := ReadFechas(raw.rows, parse).value;
    assert dates[i].Some? <==> ReadFecha(raw.rows[i][0], parse).At?;
  }

  /** Unlike the first scraper, nothing replaces the missing-value marker:
      an `S/D` cell of the page is an `S/D` cell of the frame. */
  lemma MarkerSurvives(raw: RawTable, parse: string -> Parsed, i: int, j: int)
    requires forall i :: 0 <= i < |raw.rows| ==> |raw.rows[i]| >= 1
    requires SoundParser(parse)
    requires FromRaw2(raw, parse).Ok? && 0 <= i < |raw.rows| && 1 <= j < |raw.rows[i]|
    requires raw.rows[i][j] == Some(NoDataMarker)
    ensures !AllUnmarked(FromRaw2(raw, parse).value.records)
  {
    FromRaw2Rows(raw, parse, i);
    var x := FromRaw2(raw, parse).value.records[i];
    assert x.cells[j - 1] == Some(NoDataMarker);
  }

  // ---------------------------------------------------------------------
  // download_data
  // ---------------------------------------------------------------------

  /** `download_data(station_code, date, specific)`. The lookup, the altitude
      and the date propagate their failures. A failed `try` gives the empty
      month, named by the classification that the `except` itself calls, so
      a classification failure escapes from there. The `specific` filter
      reads `total_df.fecha`, which the empty month does not have. */
  function DownloadData2(db: seq<StationRecord>, code: string, date: string, specific: bool,
                         svc: Service): (r: Result<Frame>)
    requires SoundParser(svc.parse)
    ensures r.Ok? ==> Reaches(db, code, date, svc)
    ensures Lookup(db, code).Err? ==> r == Err(DuplicatedStationCode)
  {
    var rec :- Lookup(db, code);
    var alt :- AltitudeOf(rec, svc);
    var day :- ParseDate(date);
    var period := PeriodToken(day.year, day.month);
    var attempt := Attempt2(rec.(alt := Some(alt)), period, svc);
    if attempt.Ok? then
      var frame := attempt.value;
      Ok(if specific then Frame(frame.columns, KeepDate(frame.records, date, day)) else frame)
    else
      ClassesCovered(rec);
      var schema :- ColumnsOf(rec);
      if specific then Err(MissingColumn)
      else Ok(Frame(schema, Fallback(day.year, day.month, schema)))
  }

  /** The `try` of a station that `download_data` reaches. */
  function TryOf(db: seq<StationRecord>, code: string, date: string, svc: Service): Result<Frame>
    requires SoundParser(svc.parse) && Reaches(db, code, date, svc)
  {
    var rec := Lookup(db, code).value;
    var day := ParseIsoDate(date).value;
    Attempt2(rec.(alt := Some(AltitudeOf(rec, svc).value)), PeriodToken(day.year, day.month), svc)
  }

  /** When the `try` succeeds the classification is never consulted: the
      frame has the raw column names, starting with `fecha`, whatever the
      station's class (a hydrological automatic station included). */
  lemma TryKeepsRawNames(db: seq<StationRecord>, code: string, date: string, specific: bool, svc: Service)
    requires SoundParser(svc.parse) && Reaches(db, code, date, svc)
    requires TryOf(db, code, date, svc).Ok?
    ensures var rec := Lookup(db, code).value;
            var r := DownloadData2(db, code, date, specific, svc);
            r.Ok? && RawLayout(rec.ico, rec.estado).Some?
            && r.value.columns == RawLayout(rec.ico, rec.estado).value.0 && r.value.columns[0] == "fecha"
  {
    var rec := Lookup(db, code).value;
    var rec' := rec.(alt := Some(AltitudeOf(rec, svc).value));
    var day := ParseIsoDate(date).value;
    var page := svc.dataPage(DataQuery(rec', PeriodToken(day.year, day.month)));
    assert FromTables2(page.value, rec.ico, rec.estado, svc.parse).Ok?;
  }

  /** When the `try` fails the `except` classifies: an unknown flag, or the
      class `hidro_automatic` without a column list, raises; otherwise the
      month is empty, unless `specific` asks for the `fecha` column the
      empty month lacks. */
  lemma ExceptClassifies(db: seq<StationRecord>, code: string, date: string, specific: bool, svc: Service)
    requires SoundParser(svc.parse) && Reaches(db, code, date, svc)
    requires TryOf(db, code, date, svc).Err?
    ensures var rec := Lookup(db, code).value;
            var r := DownloadData2(db, code, date, specific, svc);
            var day := ParseIsoDate(date).value;
            (ColumnsOf(rec).Err? ==> r == Err(ColumnsOf(rec).error))
            && (ColumnsOf(rec).Ok? && specific ==> r == Err(MissingColumn))
            && (ColumnsOf(rec).Ok? && !specific ==>
                  |ColumnsOf(rec).value| >= 1
                  && r == Ok(Frame(ColumnsOf(rec).value, Fallback(day.year, day.month, ColumnsOf(rec).value))))
  {
    ClassesCovered(Lookup(db, code).value);
  }

  /** A hydrological automatic station downloads exactly when its `try`
      succeeds: only the `except` looks for its missing column list. */
  lemma HidroAutomaticNeedsTry(db: seq<StationRecord>, code: string, date: string, specific: bool, svc: Service)
    requires SoundParser(svc.parse) && Reaches(db, code, date, svc)
    requires Lookup(db, code).value.ico == "H" && Lookup(db, code).value.estado == "AUTOMATICA"
    ensures DownloadData2(db, code, date, specific, svc).Ok? <==> TryOf(db, code, date, svc).Ok?
    ensures TryOf(db, code, date, svc).Err? ==> DownloadData2(db, code, date, specific, svc) == Err(MissingSchema)
  {
    ColumnsByFlags(Lookup(db, code).value);
    if TryOf(db, code, date, svc).Ok? {
      TryKeepsRawNames(db, code, date, specific, svc);
    } else {
      ExceptClassifies(db, code, date, specific, svc);
    }
  }

  /** `specific` keeps exactly the rows of the month whose `fecha` text is
      the requested date, and only when the `try` succeeded. */
  lemma SpecificFiltersFecha(db: seq<StationRecord>, code: string, date: string, svc: Service)
    requires SoundParser(svc.parse)
    requires DownloadData2(db, code, date, true, svc).Ok?
    ensures Reaches(db, code, date, svc) && TryOf(db, code, date, svc).Ok?
    ensures var month := TryOf(db, code, date, svc).value.records;
            var r := DownloadData2(db, code, date, true, svc).value;
            r.columns == TryOf(db, code, date, svc).value.columns
            && forall x :: x in r.records <==> x in month && x.date == Written(date)
  {
    if TryOf(db, code, date, svc).Err? {
      ExceptClassifies(db, code, date, true, svc);
      assert false;
    }
  }

  // ---------------------------------------------------------------------
  // download_data_range
  // ---------------------------------------------------------------------

  /** The date the loop body overwrites `month` with. */
  const FixedMonth: string := "2019-03-01"

  /** `n` iterations of the loop body, whose `download_data` call gives
      `once` each time: either none runs, or the first one raises, or every
      one succeeds. The result lists the date of each `download_data`
      call. */
  function Repeated(once: Result<Frame>, n: nat): (r: Result<seq<string>>)
  {
    if n == 0 then Ok([])
    else if once.Err? then Err(once.error)
    else Ok(seq(n, _ => FixedMonth))
  }

  /** What `download_data_range` amounts to: the month starts are computed
      (and can raise), then the loop runs once per month start. */
  function RangeOutcome(db: seq<StationRecord>, code: string, initDate: string, lastDate: string,
                        svc: Service): (r: Result<seq<string>>)
    requires SoundParser(svc.parse)
  {
    var months :- RangeDates(initDate, lastDate, false);
    Repeated(DownloadData2(db, code, FixedMonth, false, svc), |months|)
  }

  /** `download_data_range(station_code, date)`: the month starts, then the
      loop over them with `download_data` of this station. */
  method DownloadDataRange2(db: seq<StationRecord>, code: string, initDate: string, lastDate: string,
                            svc: Service) returns (r: Result<seq<string>>)
    requires SoundParser(svc.parse)
    ensures r == RangeOutcome(db, code, initDate, lastDate, svc)
  {
    var rangeDate :- RangeDates(initDate, lastDate, false);
    r := DownloadMonths2(d requires SoundParser(svc.parse) => DownloadData2(db, code, d, false, svc), rangeDate);
  }

  /** The loop: for each month start `month` is overwritten with the fixed
      date and `download` (`download_data` with `specific` off) is called
      on it; the frames are discarded and the first exception ends the
      loop. */
  method DownloadMonths2(download: string --> Result<Frame>, rangeDate: seq<string>) returns (r: Result<seq<string>>)
    requires forall d :: download.requires(d)
    ensures r == Repeated(download(FixedMonth), |rangeDate|)
    ensures r.Ok? ==> |r.value| == |rangeDate| && forall k :: 0 <= k < |r.value| ==> r.value[k] == FixedMonth
    ensures r.Err? ==> download(FixedMonth).Err? && r.error == download(FixedMonth).error
  {
    var calls: seq<string> := [];
    for i := 0 to |rangeDate|
      invariant |calls| == i
      invariant forall k :: 0 <= k < i ==> calls[k] == FixedMonth
      invariant i > 0 ==> download(FixedMonth).Ok?
    {
      var month := FixedMonth;
      var frame := download(month);
      if frame.Err? {
        return Err(frame.error);
      }
      calls := calls + [month];
    }
    assert |rangeDate| > 0 ==> calls == seq(|rangeDate|, _ => FixedMonth);
    r := Ok(calls);
  }

  /** Which months the range names does not matter: any two ranges with at
      least one month start fail alike or succeed alike. */
  lemma RangeIgnoresMonths(db: seq<StationRecord>, code: string, init1: string, last1: string,
                           init2: string, last2: string, svc: Service)
    requires SoundParser(svc.parse)
    requires RangeDates(init1, last1, false).Ok? && |RangeDates(init1, last1, false).value| > 0
    requires RangeDates(init2, last2, false).Ok? && |RangeDates(init2, last2, false).value| > 0
    ensures RangeOutcome(db, code, init1, last1, svc).Ok? <==> RangeOutcome(db, code, init2, last2, svc).Ok?
    ensures RangeOutcome(db, code, init1, last1, svc).Err? ==>
              RangeOutcome(db, code, init1, last1, svc).error == RangeOutcome(db, code, init2, last2, svc).error
  {
  }
}
