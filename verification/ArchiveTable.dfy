/** The daily table both archive scrapers build from the chart: one row per
    day with the columns `DATE`, `PREC`, `TX` and `TN`, the dates rebuilt
    from the years of the chart. */
module ArchiveTable {
  import opened Wrappers
  import opened Calendar
  import opened ArchiveDates
  import opened ArchiveScript

  /** The table by columns, in the order it is written: `DATE`, `PREC`,
      `TX`, `TN`; each column has one entry per day. */
  datatype Table = Table(date: seq<Date>, prec: seq<Option<string>>, tx: seq<Option<string>>, tn: seq<Option<string>>)

  /** The four series of a chart have the same length, which the frame
      constructor demands of its columns. */
  predicate SameLength(chart: Chart) {
    |chart.prec| == |chart.years| && |chart.tmax| == |chart.years| && |chart.tmin| == |chart.years|
  }

  /** `generate_date(pd.DataFrame({'DATE': ..., 'PREC': ..., 'TX': ...,
      'TN': ...}), 'DATE')`: columns of unequal length fail, then the years
      are replaced by the days they stand for. */
  function TableOf(chart: Chart): (r: Result<Table>)
    ensures r.Ok? <==> SameLength(chart) && GenerateDate(chart.years).Ok?
    ensures !SameLength(chart) ==> r == Err(LengthMismatch)
    ensures SameLength(chart) && GenerateDate(chart.years).Err? ==> r == Err(GenerateDate(chart.years).error)
    ensures r.Ok? ==> |r.value.date| == |chart.years| && |r.value.prec| == |chart.years|
    ensures r.Ok? ==> r.value.prec == chart.prec && r.value.tx == chart.tmax && r.value.tn == chart.tmin
    ensures r.Ok? ==> |chart.years| > 0 && r.value.date[0].year == chart.years[0] &&
                      r.value.date[|chart.years| - 1].year == chart.years[|chart.years| - 1]
  {
    if !SameLength(chart) then Err(LengthMismatch)
    else
      var dates :- GenerateDate(chart.years);
      Ok(Table(dates, chart.prec, chart.tmax, chart.tmin))
  }

  /** `download`: the chart read from the page's scripts, then the table. */
  function Download(scripts: seq<string>, isFloat: string -> bool): (r: Result<Table>)
    ensures r.Ok? ==> ChartOf(scripts, isFloat).Ok? && r == TableOf(ChartOf(scripts, isFloat).value)
    ensures ChartOf(scripts, isFloat).Err? ==> r == Err(ChartOf(scripts, isFloat).error)
  {
    var chart :- ChartOf(scripts, isFloat);
    TableOf(chart)
  }

  /** The rows of a downloaded table follow one another day by day: a later
      row has a later date. */
  lemma DownloadDatesIncrease(scripts: seq<string>, isFloat: string -> bool, i: int, j: int)
    requires Download(scripts, isFloat).Ok?
    requires 0 <= i < j < |Download(scripts, isFloat).value.date|
    ensures var t := Download(scripts, isFloat).value;
            Before(t.date[i], t.date[j]) && DayNumber(t.date[j]) == DayNumber(t.date[i]) + (j - i)
  {
    var chart := ChartOf(scripts, isFloat).value;
    GenerateDateIncreases(chart.years, i, j);
  }

  /** `download(station_code, to_csv)` of the newer scraper: the table, and
      when a file name is given, that file written with it. A page that
      fails to parse writes nothing. */
  method DownloadStation(scripts: seq<string>, isFloat: string -> bool, toCsv: Option<string>)
    returns (r: Result<Table>, written: Option<(string, Table)>)
    ensures r == Download(scripts, isFloat)
    ensures written.Some? <==> r.Ok? && toCsv.Some?
    ensures written.Some? ==> written.value == (toCsv.value, r.value)
  {
    written := None;
    var chart := ReadChart(scripts, isFloat);
    if chart.Err? {
      return Err(chart.error), None;
    }
    r := TableOf(chart.value);
    if r.Ok? && toCsv.Some? {
      written := Some((toCsv.value, r.value));
    }
  }

  /** `download_data(code, output)` of the older scraper: the same table,
      always written to `output`, and `0` returned. */
  method DownloadData(scripts: seq<string>, isFloat: string -> bool, output: string)
    returns (r: Result<int>, written: Option<(string, Table)>)
    ensures r.Ok? <==> Download(scripts, isFloat).Ok?
    ensures r.Ok? ==> r.value == 0 && written == Some((output, Download(scripts, isFloat).value))
    ensures r.Err? ==> r.error == Download(scripts, isFloat).error && written.None?
  {
    var table, _ := DownloadStation(scripts, isFloat, None);
    if table.Err? {
      return Err(table.error), None;
    }
    return Ok(0), Some((output, table.value));
  }
}
