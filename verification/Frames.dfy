/** The raw table of the real-time data page (`data_senamhi_realtime`): the
    second `<table>` of the page, its header rows dropped, read into a frame
    whose column names depend on the station's flags. */
module Frames {
  import opened Wrappers

  /** A frame cell: the text of a `<td>`, or nothing (`None`/`NaN`). */
  type Cell = Option<string>

  /** The text of every `<td>` of every `<tr>` of every `<table>`. */
  type Tables = seq<seq<seq<string>>>

  datatype RawTable = RawTable(columns: seq<string>, rows: seq<seq<Cell>>)

  /** The length of the longest row. */
  function MaxWidth(rows: seq<seq<string>>): (w: nat)
    ensures forall i :: 0 <= i < |rows| ==> |rows[i]| <= w
    ensures |rows| > 0 ==> exists i :: 0 <= i < |rows| && |rows[i]| == w
    ensures |rows| == 0 ==> w == 0
    decreases |rows|
  {
    if |rows| == 0 then 0
    else
      var rest := MaxWidth(rows[1..]);
      assert forall i :: 1 <= i < |rows| ==> rows[i] == rows[1..][i - 1];
      if |rows[0]| >= rest then |rows[0]| else rest
  }

  function PadRow(row: seq<string>, width: nat): seq<Cell> {
    seq(width, j requires 0 <= j < width => if j < |row| then Some(row[j]) else None)
  }

  /** `pd.DataFrame(rows, columns=cols)`: short rows are padded with `None`
      up to the longest row, and the longest row must have exactly one cell
      per column name; no rows at all give an empty frame. */
  function FrameFromRows(rows: seq<seq<string>>, cols: seq<string>): (r: Result<RawTable>)
    ensures r.Ok? <==> |rows| == 0 || MaxWidth(rows) == |cols|
    ensures r.Err? ==> r.error == ColumnMismatch
    ensures r.Ok? ==> r.value.columns == cols && |r.value.rows| == |rows|
    ensures r.Ok? ==> forall i :: 0 <= i < |rows| ==>
              |r.value.rows[i]| == |cols|
              && (forall j :: 0 <= j < |rows[i]| ==> r.value.rows[i][j] == Some(rows[i][j]))
              && (forall j :: |rows[i]| <= j < |cols| ==> r.value.rows[i][j] == None)
  {
    if |rows| > 0 && MaxWidth(rows) != |cols| then Err(ColumnMismatch)
    else Ok(RawTable(cols, seq(|rows|, i requires 0 <= i < |rows| => PadRow(rows[i], |cols|))))
  }

  /** Python's `rows[skip:]`. */
  function DropRows<T>(rows: seq<T>, skip: nat): (r: seq<T>)
    ensures skip <= |rows| ==> r == rows[skip..]
    ensures skip > |rows| ==> r == []
  {
    if skip <= |rows| then rows[skip..] else []
  }

  const MeteoAutomaticRaw: seq<string> := ["fecha", "hora", "temp", "pp", "humedad", "dir_viento", "vel_viento"]
  const MeteoManualRaw: seq<string> := ["fecha", "temp_max", "temp_min", "hum_relativa", "pp"]
  const HidroAutomaticRaw: seq<string> := ["fecha", "hora", "nivel", "pp"]
  const HidroManualRaw: seq<string> := ["fecha", "nivel_06", "nivel_10", "nivel_14", "nivel_18"]

  /** The raw column names and the number of header rows, per flag pair:
      automatic stations have one header row, manual ones two. */
  function RawLayout(ico: string, estado: string): Option<(seq<string>, nat)> {
    if ico == "M" then
      if estado == "AUTOMATICA" then Some((MeteoAutomaticRaw, 1)) else Some((MeteoManualRaw, 2))
    else if ico == "H" then
      if estado == "AUTOMATICA" then Some((HidroAutomaticRaw, 1)) else Some((HidroManualRaw, 2))
    else None
  }

  /** The frame `data_senamhi_realtime` returns. An `ico` other than M or H
      leaves `df` unbound; a page with fewer than two tables fails on
      `tables[1]`. */
  function SelectTable(tables: Tables, ico: string, estado: string): (r: Result<RawTable>)
    ensures r.Ok? ==> RawLayout(ico, estado).Some? && |tables| >= 2
    ensures r.Ok? ==> r.value.columns == RawLayout(ico, estado).value.0 && r.value.columns[0] == "fecha"
    ensures r.Ok? ==> |r.value.rows| == |DropRows(tables[1], RawLayout(ico, estado).value.1)|
    ensures r.Ok? ==> forall i :: 0 <= i < |r.value.rows| ==> |r.value.rows[i]| == |r.value.columns|
    ensures RawLayout(ico, estado).None? ==> r == Err(UnknownIco)
    ensures RawLayout(ico, estado).Some? && |tables| < 2 ==> r == Err(IndexOutOfRange)
    ensures RawLayout(ico, estado).Some? && |tables| >= 2 ==>
              var body := DropRows(tables[1], RawLayout(ico, estado).value.1);
              (r.Ok? <==> |body| == 0 || MaxWidth(body) == |RawLayout(ico, estado).value.0|)
              && (r.Err? ==> r.error == ColumnMismatch)
    ensures r.Ok? ==> var body := DropRows(tables[1], RawLayout(ico, estado).value.1);
              forall i, j :: 0 <= i < |body| && 0 <= j < |r.value.columns| ==>
                r.value.rows[i][j] == if j < |body[i]| then Some(body[i][j]) else None
  {
    match RawLayout(ico, estado)
    case None => Err(UnknownIco)
    case Some((cols, skip)) =>
      if |tables| < 2 then Err(IndexOutOfRange)
      else FrameFromRows(DropRows(tables[1], skip), cols)
  }

  /** The raw widths: seven columns for a meteorological automatic station,
      four for a hydrological automatic one, five for every manual one. */
  lemma RawWidths(ico: string, estado: string)
    requires ico == "M" || ico == "H"
    ensures ico == "M" && estado == "AUTOMATICA" ==> |RawLayout(ico, estado).value.0| == 7
    ensures ico == "H" && estado == "AUTOMATICA" ==> |RawLayout(ico, estado).value.0| == 4
    ensures estado != "AUTOMATICA" ==> |RawLayout(ico, estado).value.0| == 5
  {
  }
}
