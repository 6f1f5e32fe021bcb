/** `complete_monthly_data`: the station's rows are completed to the whole
    month most of them fall in, one row per day (manual stations) or per hour
    (automatic stations), by an outer merge on the time stamp. */
module Completion {
  import opened Wrappers
  import opened Text
  import opened Calendar
  import opened DateText
  import opened Frames
  import opened Merge
  import opened Majority
  import opened Stations

  /** A row of the station frame: its `DATE` and its other cells, in column
      order (for an automatic station the first of them is `HOUR`). */
  datatype Row = Row(date: Date, cells: seq<Cell>)

  /** The frame as the caller passes it: dates `datetime` accepts, and one
      cell per column other than `DATE`. */
  predicate WellFormed(rows: seq<Row>, width: nat) {
    forall i :: 0 <= i < |rows| ==> ValidDate(rows[i].date) && |rows[i].cells| == width
  }

  /** `station_class.split('_')[-1]`. */
  function ClassSuffix(stationClass: string): string {
    var parts := Split(stationClass, '_');
    parts[|parts| - 1]
  }

  /** The suffix of the identifier the classifier builds is the mode's last
      word: `deferred` for DIFERIDO, `realtime` for REAL, `automatic` for
      AUTOMATICA. */
  lemma {:induction false} ClassSuffixOfStation(rec: StationRecord)
    requires StationClass(rec).Ok?
    ensures ClassSuffix(StationClass(rec).value)
            == (if rec.estado == "DIFERIDO" then "deferred" else if rec.estado == "REAL" then "realtime" else "automatic")
  {
    var network := NetworkToken(rec.ico).value;
    assert network == "meteo" || network == "hidro";
    assert '_' !in network;
    if rec.estado == "DIFERIDO" {
      assert StationClass(rec).value == network + "_" + ("manual_" + "deferred");
      ManualSuffix(network, "deferred");
    } else if rec.estado == "REAL" {
      assert StationClass(rec).value == network + "_" + ("manual_" + "realtime");
      ManualSuffix(network, "realtime");
    } else {
      assert StationClass(rec).value == network + ['_'] + "automatic";
      SuffixAfterOne(network, "automatic");
    }
  }

  lemma ManualSuffix(network: string, t: string)
    requires '_' !in network && (t == "deferred" || t == "realtime")
    ensures ClassSuffix(network + "_" + ("manual_" + t)) == t
  {
    assert "manual_" + t == "manual" + ['_'] + t;
    assert network + "_" + ("manual_" + t) == network + ['_'] + ("manual" + ['_'] + t);
    SuffixAfter(network, "manual", t);
  }

  lemma SuffixAfterOne(a: string, t: string)
    requires '_' !in a && '_' !in t
    ensures ClassSuffix(a + ['_'] + t) == t
  {
    SplitNoSeparator(t, '_');
    SplitSeparated(a, t, '_');
  }

  lemma SuffixAfter(a: string, b: string, t: string)
    requires '_' !in a && '_' !in b && '_' !in t
    ensures ClassSuffix(a + ['_'] + (b + ['_'] + t)) == t
  {
    SplitNoSeparator(t, '_');
    SplitSeparated(b, t, '_');
    SplitSeparated(a, b + ['_'] + t, '_');
  }

  // ---------------------------------------------------------------------
  // The grids of a month
  // ---------------------------------------------------------------------

  /** `d` is a day of month `m` of year `y`. */
  predicate InMonth(d: Date, y: int, m: int) {
    1 <= m <= 12 && d.year == y && d.month == m && 1 <= d.day <= DaysInMonth(y, m)
  }

  /** `pd.date_range(datetime(y, m, 1), datetime(y, m, last_day), freq='D')`
      as merge keys at midnight. */
  function DailyGrid(y: int, m: int): (g: seq<Stamp>)
    requires y >= 1 && 1 <= m <= 12
    ensures |g| == DaysInMonth(y, m)
    ensures Increasing(g)
    ensures forall s :: s in g <==> InMonth(s.date, y, m) && s.minute == 0
  {
    var n := DaysInMonth(y, m);
    var g := seq(n, i requires 0 <= i < n => Stamp(Date(y, m, i + 1), 0));
    assert forall s: Stamp :: InMonth(s.date, y, m) && s.minute == 0 ==> s in g by {
      forall s: Stamp | InMonth(s.date, y, m) && s.minute == 0 ensures s in g {
        assert g[s.date.day - 1] == s;
      }
    }
    g
  }

  /** The days of the daily grid are the days `pd.date_range` yields from the
      first to the last day of the month. */
  lemma {:induction false} DailyGridIsDayRange(y: int, m: int)
    requires y >= 1 && 1 <= m <= 12
    ensures var g := DailyGrid(y, m);
            var r := DayRange(Date(y, m, 1), Date(y, m, DaysInMonth(y, m)));
            |r| == |g| && forall i :: 0 <= i < |g| ==> r[i] == g[i].date
  {
    var g := DailyGrid(y, m);
    var first, last := Date(y, m, 1), Date(y, m, DaysInMonth(y, m));
    var r := DayRange(first, last);
    assert DayNumber(last) == DayNumber(first) + |g| - 1;
    forall i | 0 <= i < |g| ensures r[i] == g[i].date {
      assert g[i].date == Date(y, m, i + 1);
      assert DayNumber(g[i].date) == DayNumber(first) + i;
      DayNumberInjective(r[i], g[i].date);
    }
  }

  /** Position `i` of the hourly grid: day `i / 24 + 1`, hour `i % 24`. */
  function HourSlot(y: int, m: int, i: int): Stamp {
    Stamp(Date(y, m, i / 24 + 1), i % 24 * 60)
  }

  lemma HourSlotsIncrease(y: int, m: int, i: int, j: int)
    requires 0 <= i < j
    ensures StampLess(HourSlot(y, m, i), HourSlot(y, m, j))
  {
    assert i / 24 < j / 24 || (i / 24 == j / 24 && i % 24 < j % 24);
  }

  /** `pd.date_range(datetime(y, m, 1, 0), datetime(y, m, last_day, 23),
      freq='H')`: every whole hour of the month, 24 per day, in order. */
  function HourlyGrid(y: int, m: int): (g: seq<Stamp>)
    requires y >= 1 && 1 <= m <= 12
    ensures Increasing(g)
  {
    var n := 24 * DaysInMonth(y, m);
    var g := seq(n, i requires 0 <= i < n => HourSlot(y, m, i));
    forall i, j | 0 <= i < j < n ensures StampLess(g[i], g[j]) {
      HourSlotsIncrease(y, m, i, j);
    }
    g
  }

  /** A whole hour of month `m` of year `y`. */
  predicate HourOfMonth(s: Stamp, y: int, m: int) {
    InMonth(s.date, y, m) && 0 <= s.minute < 24 * 60 && s.minute % 60 == 0
  }

  /** The hourly grid runs from midnight of the first day to 23:00 of the
      last one and holds exactly the whole hours of the month. */
  lemma HourlyGridShape(y: int, m: int)
    requires y >= 1 && 1 <= m <= 12
    ensures var g := HourlyGrid(y, m);
            |g| == 24 * DaysInMonth(y, m)
            && g[0] == Stamp(Date(y, m, 1), 0)
            && g[|g| - 1] == Stamp(Date(y, m, DaysInMonth(y, m)), 23 * 60)
  {
    var n := 24 * DaysInMonth(y, m);
    assert (n - 1) / 24 + 1 == DaysInMonth(y, m) && (n - 1) % 24 == 23;
  }

  lemma HourlyGridMembers(y: int, m: int)
    requires y >= 1 && 1 <= m <= 12
    ensures forall s :: s in HourlyGrid(y, m) <==> HourOfMonth(s, y, m)
  {
    var g := HourlyGrid(y, m);
    var n := 24 * DaysInMonth(y, m);
    assert |g| == n;
    forall s | s in g ensures HourOfMonth(s, y, m) {
      var i :| 0 <= i < n && g[i] == s;
      assert s == HourSlot(y, m, i);
      assert i / 24 < DaysInMonth(y, m);
    }
    forall s: Stamp | HourOfMonth(s, y, m) ensures s in g {
      var i := (s.date.day - 1) * 24 + s.minute / 60;
      assert i / 24 == s.date.day - 1 && i % 24 == s.minute / 60;
      assert g[i] == s;
    }
  }

  // ---------------------------------------------------------------------
  // Daily completion (manual stations)
  // ---------------------------------------------------------------------

  function RowDates(rows: seq<Row>): (r: seq<Date>)
    ensures |r| == |rows| && forall i :: 0 <= i < |rows| ==> r[i] == rows[i].date
  {
    seq(|rows|, i requires 0 <= i < |rows| => rows[i].date)
  }

  /** The station rows keyed by their date at midnight. */
  function DailyObs(rows: seq<Row>): (r: seq<Obs>)
    ensures |r| == |rows| && forall i :: 0 <= i < |rows| ==> r[i] == Obs(Stamp(rows[i].date, 0), rows[i].cells)
  {
    seq(|rows|, i requires 0 <= i < |rows| => Obs(Stamp(rows[i].date, 0), rows[i].cells))
  }

  /** The merged frame of a manual station, before the key is turned back
      into the `DATE` column. */
  function DailyMerged(rows: seq<Row>, width: nat, y: int, m: int): seq<Obs>
    requires y >= 1 && 1 <= m <= 12
  {
    MergeJoin(DailyGrid(y, m), SortObs(DailyObs(rows)), width)
  }

  function DailyRows(merged: seq<Obs>): (r: seq<Row>)
    ensures |r| == |merged| && forall k :: 0 <= k < |merged| ==> r[k] == Row(merged[k].key.date, merged[k].values)
  {
    seq(|merged|, k requires 0 <= k < |merged| => Row(merged[k].key.date, merged[k].values))
  }

  /** The `realtime`/`deferred` branch: the daily grid of the majority month
      merged with the rows; no rows at all leave no month to choose. */
  function CompleteDaily(rows: seq<Row>, width: nat): (r: Result<seq<Row>>)
    requires WellFormed(rows, width)
    ensures r.Ok? <==> |rows| > 0
    ensures r.Err? ==> r.error == EmptyData
  {
    var ym :- MajorityMonth(RowDates(rows));
    Ok(DailyRows(DailyMerged(rows, width, ym.0, ym.1)))
  }

  /** The month `CompleteDaily` completes. */
  function ChosenMonth(rows: seq<Row>): (ym: (int, int))
    requires forall i :: 0 <= i < |rows| ==> ValidDate(rows[i].date)
    requires |rows| > 0
    ensures ym.0 >= 1 && 1 <= ym.1 <= 12
  {
    MajorityMonth(RowDates(rows)).value
  }

  lemma CompleteDailyValue(rows: seq<Row>, width: nat)
    requires WellFormed(rows, width) && |rows| > 0
    ensures CompleteDaily(rows, width) == Ok(DailyRows(DailyMerged(rows, width, ChosenMonth(rows).0, ChosenMonth(rows).1)))
  {
  }

  /** A station row is a member of the sorted rows. */
  lemma {:induction false} SortedKeepsMembers(obs: seq<Obs>, o: Obs)
    ensures o in SortObs(obs) <==> o in obs
  {
    assert o in multiset(SortObs(obs)) <==> o in multiset(obs);
  }

  lemma {:induction false} DailyObsMember(rows: seq<Row>, o: Obs)
    requires o in SortObs(DailyObs(rows))
    ensures Row(o.key.date, o.values) in rows
  {
    SortedKeepsMembers(DailyObs(rows), o);
    var i :| 0 <= i < |rows| && DailyObs(rows)[i] == o;
    assert rows[i] == Row(o.key.date, o.values);
  }

  /** The completed frame is in date order. */
  lemma {:induction false} DailySorted(rows: seq<Row>, width: nat)
    requires WellFormed(rows, width) && |rows| > 0
    ensures var r := CompleteDaily(rows, width).value;
            forall i, j :: 0 <= i < j < |r| ==> NotAfter(r[i].date, r[j].date)
  {
    var (y, m) := ChosenMonth(rows);
    CompleteDailyValue(rows, width);
    MergeJoinSorted(DailyGrid(y, m), SortObs(DailyObs(rows)), width);
    DailyRowsSorted(DailyMerged(rows, width, y, m));
  }

  lemma DailyRowsSorted(merged: seq<Obs>)
    requires SortedObs(merged)
    ensures var r := DailyRows(merged);
            forall i, j :: 0 <= i < j < |r| ==> NotAfter(r[i].date, r[j].date)
  {
    var r := DailyRows(merged);
    forall i, j | 0 <= i < j < |r| ensures NotAfter(r[i].date, r[j].date) {
      assert StampLeq(merged[i].key, merged[j].key);
    }
  }

  /** Every day of the chosen month has a row. */
  lemma {:induction false} DailyCovers(rows: seq<Row>, width: nat, d: int)
    requires WellFormed(rows, width) && |rows| > 0
    requires 1 <= d <= DaysInMonth(ChosenMonth(rows).0, ChosenMonth(rows).1)
    ensures exists k :: 0 <= k < |CompleteDaily(rows, width).value|
                        && CompleteDaily(rows, width).value[k].date == Date(ChosenMonth(rows).0, ChosenMonth(rows).1, d)
  {
    var (y, m) := ChosenMonth(rows);
    CompleteDailyValue(rows, width);
    var merged := DailyMerged(rows, width, y, m);
    var g := Stamp(Date(y, m, d), 0);
    assert g in DailyGrid(y, m);
    MergeCovers(DailyGrid(y, m), SortObs(DailyObs(rows)), width, g);
    var k :| 0 <= k < |merged| && merged[k].key == g;
    assert DailyRows(merged)[k].date == Date(y, m, d);
  }

  /** Every station row is in the completed frame, whatever its month (the
      merge is an outer one). */
  lemma {:induction false} DailyKeeps(rows: seq<Row>, width: nat, row: Row)
    requires WellFormed(rows, width) && |rows| > 0 && row in rows
    ensures row in CompleteDaily(rows, width).value
  {
    var (y, m) := ChosenMonth(rows);
    CompleteDailyValue(rows, width);
    var o := Obs(Stamp(row.date, 0), row.cells);
    var i :| 0 <= i < |rows| && rows[i] == row;
    assert DailyObs(rows)[i] == o;
    SortedKeepsMembers(DailyObs(rows), o);
    MergeKeeps(DailyGrid(y, m), SortObs(DailyObs(rows)), width, o);
    var merged := DailyMerged(rows, width, y, m);
    var k :| 0 <= k < |merged| && merged[k] == o;
    assert DailyRows(merged)[k] == row;
  }

  /** Every other row of the completed frame is an empty row for a day of
      the chosen month that no station row has. */
  lemma {:induction false} DailyOnlyBlanks(rows: seq<Row>, width: nat, x: Row)
    requires WellFormed(rows, width) && |rows| > 0
    requires x in CompleteDaily(rows, width).value && x !in rows
    ensures InMonth(x.date, ChosenMonth(rows).0, ChosenMonth(rows).1)
    ensures x.cells == Blank(width)
    ensures forall i :: 0 <= i < |rows| ==> rows[i].date != x.date
  {
    var (y, m) := ChosenMonth(rows);
    CompleteDailyValue(rows, width);
    var obs := SortObs(DailyObs(rows));
    var merged := DailyMerged(rows, width, y, m);
    var k :| 0 <= k < |merged| && DailyRows(merged)[k] == x;
    MergeMembers(DailyGrid(y, m), obs, width, merged[k]);
    forall o | o in obs ensures Row(o.key.date, o.values) in rows {
      DailyObsMember(rows, o);
    }
    forall i | 0 <= i < |rows| ensures rows[i].date != x.date {
      var o := DailyObs(rows)[i];
      SortedKeepsMembers(DailyObs(rows), o);
    }
  }

  // ---------------------------------------------------------------------
  // Hourly completion (automatic stations)
  // ---------------------------------------------------------------------

  /** The time of day of a row: its `HOUR` cell read as `HH:MM`; an empty
      cell or any other text does not give a time stamp. */
  function HourOf(row: Row): (r: Option<nat>)
    ensures r.Some? ==> r.value < 24 * 60
  {
    if |row.cells| == 0 then None
    else match row.cells[0]
      case None => None
      case Some(t) => ParseClock(t)
  }

  /** `pd.to_datetime(DATE + " " + HOUR + ':00')` with `DATE` and `HOUR`
      dropped: one time stamp per row, or an error when some row's hour
      cannot be read. Its element-wise ensures are there for the lemmas
      about the hourly frame (`HourlyOrigin`, `HourlyKeeps`), which state
      what the completion keeps. */
  function HourlyObs(rows: seq<Row>): (r: Result<seq<Obs>>)
    ensures r.Ok? <==> forall i :: 0 <= i < |rows| ==> HourOf(rows[i]).Some?
    ensures r.Err? ==> r.error == UnparsableValue
    ensures r.Ok? ==> |r.value| == |rows| && forall i :: 0 <= i < |rows| ==>
              r.value[i] == Obs(Stamp(rows[i].date, HourOf(rows[i]).value), rows[i].cells[1..])
  {
    if exists i :: 0 <= i < |rows| && HourOf(rows[i]).None? then Err(UnparsableValue)
    else Ok(seq(|rows|, i requires 0 <= i < |rows| => Obs(Stamp(rows[i].date, HourOf(rows[i]).value), rows[i].cells[1..])))
  }

  /** A completed hourly row: `DATE`, then `HOUR` written `%H:%M:%S`, then
      the other cells. */
  function HourlyRow(date: Date, minute: nat, values: seq<Cell>): Row
    requires minute < 24 * 60
  {
    Row(date, [Some(ClockText(minute))] + values)
  }

  predicate DayMinutes(obs: seq<Obs>) {
    forall k :: 0 <= k < |obs| ==> 0 <= obs[k].key.minute < 24 * 60
  }

  function HourlyMerged(obs: seq<Obs>, width: nat, y: int, m: int): seq<Obs>
    requires y >= 1 && 1 <= m <= 12 && width >= 1
  {
    MergeJoin(HourlyGrid(y, m), SortObs(obs), width - 1)
  }

  /** Every merged key is a time of day: a station row's or a grid slot's. */
  lemma {:induction false} MergedMinutes(obs: seq<Obs>, width: nat, y: int, m: int)
    requires y >= 1 && 1 <= m <= 12 && width >= 1 && DayMinutes(obs)
    ensures DayMinutes(HourlyMerged(obs, width, y, m))
  {
    var grid, sorted := HourlyGrid(y, m), SortObs(obs);
    var merged := HourlyMerged(obs, width, y, m);
    HourlyGridMembers(y, m);
    forall k | 0 <= k < |merged| ensures 0 <= merged[k].key.minute < 24 * 60 {
      var x := merged[k];
      MergeMembers(grid, sorted, width - 1, x);
      SortedKeepsMembers(obs, x);
      if x in obs {
        var i :| 0 <= i < |obs| && obs[i] == x;
      } else {
        assert HourOfMonth(x.key, y, m);
      }
    }
  }

  function HourlyRows(merged: seq<Obs>): (r: seq<Row>)
    requires DayMinutes(merged)
    ensures |r| == |merged|
    ensures forall k :: 0 <= k < |merged| ==> r[k] == HourlyRow(merged[k].key.date, merged[k].key.minute, merged[k].values)
  {
    seq(|merged|, k requires 0 <= k < |merged| => HourlyRow(merged[k].key.date, merged[k].key.minute, merged[k].values))
  }

  function HourlyMergedRows(obs: seq<Obs>, width: nat, y: int, m: int): seq<Row>
    requires y >= 1 && 1 <= m <= 12 && width >= 1 && DayMinutes(obs)
  {
    MergedMinutes(obs, width, y, m);
    HourlyRows(HourlyMerged(obs, width, y, m))
  }

  /** The `automatic` branch: the hourly grid of the majority month merged
      with the rows. A frame without an `HOUR` column, an hour that does not
      read as a time, or no rows at all raise. */
  function CompleteHourly(rows: seq<Row>, width: nat): (r: Result<seq<Row>>)
    requires WellFormed(rows, width)
    ensures r.Ok? <==> width > 0 && |rows| > 0 && forall i :: 0 <= i < |rows| ==> HourOf(rows[i]).Some?
    ensures width == 0 ==> r == Err(MissingColumn)
  {
    if width == 0 then Err(MissingColumn)
    else
      var obs :- HourlyObs(rows);
      var ym :- MajorityMonth(RowDates(rows));
      Ok(HourlyMergedRows(obs, width, ym.0, ym.1))
  }

  lemma CompleteHourlyValue(rows: seq<Row>, width: nat)
    requires WellFormed(rows, width) && CompleteHourly(rows, width).Ok?
    ensures |rows| > 0 && width >= 1 && HourlyObs(rows).Ok? && DayMinutes(HourlyObs(rows).value)
    ensures CompleteHourly(rows, width).value
            == HourlyMergedRows(HourlyObs(rows).value, width, ChosenMonth(rows).0, ChosenMonth(rows).1)
  {
  }

  lemma {:induction false} HourlyObsMember(rows: seq<Row>, o: Obs)
    requires HourlyObs(rows).Ok? && o in SortObs(HourlyObs(rows).value)
    ensures exists i :: 0 <= i < |rows| && o == HourlyObs(rows).value[i]
  {
    SortedKeepsMembers(HourlyObs(rows).value, o);
  }

  /** Rows built from a sorted merge are in date order. */
  lemma RowsOfSortedSorted(merged: seq<Obs>)
    requires DayMinutes(merged) && SortedObs(merged)
    ensures var r := HourlyRows(merged);
            forall i, j :: 0 <= i < j < |r| ==> NotAfter(r[i].date, r[j].date)
  {
    var r := HourlyRows(merged);
    forall i, j | 0 <= i < j < |r| ensures NotAfter(r[i].date, r[j].date) {
      assert StampLeq(merged[i].key, merged[j].key);
    }
  }

  /** The merged hourly frame is in date order. */
  lemma {:induction false} HourlyRowsSorted(obs: seq<Obs>, width: nat, y: int, m: int)
    requires y >= 1 && 1 <= m <= 12 && width >= 1 && DayMinutes(obs)
    ensures var r := HourlyMergedRows(obs, width, y, m);
            forall i, j :: 0 <= i < j < |r| ==> NotAfter(r[i].date, r[j].date)
  {
    var merged := HourlyMerged(obs, width, y, m);
    assert SortedObs(merged) by {
      MergeJoinSorted(HourlyGrid(y, m), SortObs(obs), width - 1);
    }
    assert DayMinutes(merged) by {
      MergedMinutes(obs, width, y, m);
    }
    RowsOfSortedSorted(merged);
  }

  lemma {:induction false} HourlyRowsCover(obs: seq<Obs>, width: nat, y: int, m: int, d: int, h: int)
    requires y >= 1 && 1 <= m <= 12 && width >= 1 && DayMinutes(obs)
    requires 1 <= d <= DaysInMonth(y, m) && 0 <= h < 24
    ensures var r := HourlyMergedRows(obs, width, y, m);
            exists k :: 0 <= k < |r| && r[k].date == Date(y, m, d) && r[k].cells[0] == Some(ClockText(h * 60))
  {
    var g := Stamp(Date(y, m, d), h * 60);
    var merged := HourlyMerged(obs, width, y, m);
    var k: int :| 0 <= k < |merged| && merged[k].key == g by {
      assert g in HourlyGrid(y, m) by {
        HourlyGridMembers(y, m);
        assert HourOfMonth(g, y, m);
      }
      MergeCovers(HourlyGrid(y, m), SortObs(obs), width - 1, g);
    }
    assert DayMinutes(merged) by {
      MergedMinutes(obs, width, y, m);
    }
    var r := HourlyMergedRows(obs, width, y, m);
    assert r == HourlyRows(merged);
    assert r[k] == HourlyRow(Date(y, m, d), h * 60, merged[k].values);
    assert r[k].date == Date(y, m, d) && r[k].cells[0] == Some(ClockText(h * 60));
  }

  lemma {:induction false} HourlyRowsKeep(obs: seq<Obs>, width: nat, y: int, m: int, i: int)
    requires y >= 1 && 1 <= m <= 12 && width >= 1 && DayMinutes(obs)
    requires 0 <= i < |obs|
    ensures HourlyRow(obs[i].key.date, obs[i].key.minute, obs[i].values) in HourlyMergedRows(obs, width, y, m)
  {
    var o := obs[i];
    var merged := HourlyMerged(obs, width, y, m);
    MergedKeeps(obs, width, y, m, o);
    var k :| 0 <= k < |merged| && merged[k] == o;
    assert DayMinutes(merged) by {
      MergedMinutes(obs, width, y, m);
    }
    RowsKeep(merged, k);
  }

  lemma {:induction false} MergedKeeps(obs: seq<Obs>, width: nat, y: int, m: int, o: Obs)
    requires y >= 1 && 1 <= m <= 12 && width >= 1 && o in obs
    ensures o in HourlyMerged(obs, width, y, m)
  {
    SortedKeepsMembers(obs, o);
    MergeKeeps(HourlyGrid(y, m), SortObs(obs), width - 1, o);
  }

  lemma RowsKeep(merged: seq<Obs>, k: int)
    requires DayMinutes(merged) && 0 <= k < |merged|
    ensures HourlyRow(merged[k].key.date, merged[k].key.minute, merged[k].values) in HourlyRows(merged)
  {
    assert HourlyRows(merged)[k] == HourlyRow(merged[k].key.date, merged[k].key.minute, merged[k].values);
  }

  /** A merged row that is no station row is an empty grid slot no station
      row has. */
  lemma {:induction false} MergedBlank(obs: seq<Obs>, width: nat, y: int, m: int, k: int)
    requires y >= 1 && 1 <= m <= 12 && width >= 1 && DayMinutes(obs)
    requires 0 <= k < |HourlyMerged(obs, width, y, m)|
    requires HourlyMerged(obs, width, y, m)[k] !in obs
    ensures var x := HourlyMerged(obs, width, y, m)[k];
            HourOfMonth(x.key, y, m) && x.values == Blank(width - 1)
            && forall o :: o in obs ==> o.key != x.key
  {
    var grid := HourlyGrid(y, m);
    var sorted := SortObs(obs);
    var merged := MergeJoin(grid, sorted, width - 1);
    assert merged == HourlyMerged(obs, width, y, m);
    var x := merged[k];
    assert x in merged;
    assert x !in sorted by {
      SortedKeepsMembers(obs, x);
    }
    MergeBlankRow(grid, sorted, width - 1, x);
    assert HourOfMonth(x.key, y, m) by {
      HourlyGridMembers(y, m);
    }
    forall o | o in obs ensures o.key != x.key {
      SortedKeepsMembers(obs, o);
    }
  }

  lemma {:induction false} HourlyRowsOnlyBlanks(obs: seq<Obs>, width: nat, y: int, m: int, k: int)
    requires y >= 1 && 1 <= m <= 12 && width >= 1 && DayMinutes(obs)
    requires 0 <= k < |HourlyMergedRows(obs, width, y, m)|
    requires forall i :: 0 <= i < |obs| ==>
               HourlyMergedRows(obs, width, y, m)[k] != HourlyRow(obs[i].key.date, obs[i].key.minute, obs[i].values)
    ensures var x := HourlyMergedRows(obs, width, y, m)[k];
            InMonth(x.date, y, m)
            && (exists h :: 0 <= h < 24 && x == HourlyRow(x.date, h * 60, Blank(width - 1))
                  && forall o :: o in obs ==> o.key != Stamp(x.date, h * 60))
  {
    var merged := HourlyMerged(obs, width, y, m);
    assert DayMinutes(merged) by {
      MergedMinutes(obs, width, y, m);
    }
    var x := HourlyRows(merged)[k];
    var e := merged[k];
    assert x == HourlyRow(e.key.date, e.key.minute, e.values);
    forall i | 0 <= i < |obs| ensures obs[i] != e {
      assert x != HourlyRow(obs[i].key.date, obs[i].key.minute, obs[i].values);
    }
    MergedBlank(obs, width, y, m, k);
    var h := e.key.minute / 60;
    assert e.key == Stamp(x.date, h * 60);
  }

  /** The completed hourly frame is in date order. */
  lemma HourlySorted(rows: seq<Row>, width: nat)
    requires WellFormed(rows, width) && CompleteHourly(rows, width).Ok?
    ensures var r := CompleteHourly(rows, width).value;
            forall i, j :: 0 <= i < j < |r| ==> NotAfter(r[i].date, r[j].date)
  {
    CompleteHourlyValue(rows, width);
    HourlyRowsSorted(HourlyObs(rows).value, width, ChosenMonth(rows).0, ChosenMonth(rows).1);
  }

  /** Every hour of every day of the chosen month has a row. */
  lemma HourlyCovers(rows: seq<Row>, width: nat, d: int, h: int)
    requires WellFormed(rows, width) && CompleteHourly(rows, width).Ok?
    requires 1 <= d <= DaysInMonth(ChosenMonth(rows).0, ChosenMonth(rows).1) && 0 <= h < 24
    ensures exists k :: 0 <= k < |CompleteHourly(rows, width).value|
              && CompleteHourly(rows, width).value[k].date == Date(ChosenMonth(rows).0, ChosenMonth(rows).1, d)
              && CompleteHourly(rows, width).value[k].cells[0] == Some(ClockText(h * 60))
  {
    CompleteHourlyValue(rows, width);
    HourlyRowsCover(HourlyObs(rows).value, width, ChosenMonth(rows).0, ChosenMonth(rows).1, d, h);
  }

  /** Every station row is in the completed frame, its hour rewritten as
      `%H:%M:%S`, whatever its month. */
  lemma HourlyKeeps(rows: seq<Row>, width: nat, i: int)
    requires WellFormed(rows, width) && CompleteHourly(rows, width).Ok?
    requires 0 <= i < |rows|
    ensures HourlyRow(rows[i].date, HourOf(rows[i]).value, rows[i].cells[1..]) in CompleteHourly(rows, width).value
  {
    CompleteHourlyValue(rows, width);
    HourlyRowsKeep(HourlyObs(rows).value, width, ChosenMonth(rows).0, ChosenMonth(rows).1, i);
  }

  /** Every other row of the completed hourly frame is an empty row for an
      hour of the chosen month that no station row has. */
  lemma HourlyOnlyBlanks(rows: seq<Row>, width: nat, k: int)
    requires WellFormed(rows, width) && CompleteHourly(rows, width).Ok?
    requires 0 <= k < |CompleteHourly(rows, width).value|
    requires forall i :: 0 <= i < |rows| ==>
               CompleteHourly(rows, width).value[k] != HourlyRow(rows[i].date, HourOf(rows[i]).value, rows[i].cells[1..])
    ensures var x := CompleteHourly(rows, width).value[k];
            InMonth(x.date, ChosenMonth(rows).0, ChosenMonth(rows).1)
            && (exists h :: 0 <= h < 24 && x == HourlyRow(x.date, h * 60, Blank(width - 1))
                  && forall i :: 0 <= i < |rows| ==> (rows[i].date, HourOf(rows[i]).value) != (x.date, h * 60))
  {
    CompleteHourlyValue(rows, width);
    var obs := HourlyObs(rows).value;
    var (y, m) := ChosenMonth(rows);
    HourlyRowsOnlyBlanks(obs, width, y, m, k);
    var x := CompleteHourly(rows, width).value[k];
    var h :| 0 <= h < 24 && x == HourlyRow(x.date, h * 60, Blank(width - 1))
             && forall o :: o in obs ==> o.key != Stamp(x.date, h * 60);
    forall i | 0 <= i < |rows| ensures (rows[i].date, HourOf(rows[i]).value) != (x.date, h * 60) {
      assert obs[i] in obs;
    }
  }

  /** Where a row of the completed daily frame comes from: a station row, or
      an empty row for a day of the chosen month. */
  lemma {:induction false} DailyOrigin(rows: seq<Row>, width: nat, k: int)
    requires WellFormed(rows, width) && |rows| > 0
    requires 0 <= k < |CompleteDaily(rows, width).value|
    ensures var x := CompleteDaily(rows, width).value[k];
            x in rows || (InMonth(x.date, ChosenMonth(rows).0, ChosenMonth(rows).1) && x.cells == Blank(width))
  {
    var x := CompleteDaily(rows, width).value[k];
    if x !in rows {
      DailyOnlyBlanks(rows, width, x);
    }
  }

  /** Where a row of the completed hourly frame comes from: a station row
      with its hour rewritten, or an empty row for an hour of the chosen
      month. */
  lemma {:induction false} HourlyOrigin(rows: seq<Row>, width: nat, k: int)
    requires WellFormed(rows, width) && CompleteHourly(rows, width).Ok?
    requires 0 <= k < |CompleteHourly(rows, width).value|
    ensures width >= 1
    ensures var x := CompleteHourly(rows, width).value[k];
            (exists i :: 0 <= i < |rows| && x == HourlyRow(rows[i].date, HourOf(rows[i]).value, rows[i].cells[1..]))
            || (InMonth(x.date, ChosenMonth(rows).0, ChosenMonth(rows).1)
                && exists h :: 0 <= h < 24 && x == HourlyRow(x.date, h * 60, Blank(width - 1)))
  {
    CompleteHourlyValue(rows, width);
    var x := CompleteHourly(rows, width).value[k];
    if forall i :: 0 <= i < |rows| ==> x != HourlyRow(rows[i].date, HourOf(rows[i]).value, rows[i].cells[1..]) {
      HourlyOnlyBlanks(rows, width, k);
    }
  }

  // ---------------------------------------------------------------------
  // Dispatch
  // ---------------------------------------------------------------------

  /** `complete_monthly_data(station_data, station_class)`: the suffix after
      the last `_` of the class chooses the grid. */
  function CompleteMonthlyData(rows: seq<Row>, stationClass: string, width: nat): (r: Result<seq<Row>>)
    requires WellFormed(rows, width)
    ensures ClassSuffix(stationClass) == "automatic" ==> r == CompleteHourly(rows, width)
    ensures ClassSuffix(stationClass) in {"realtime", "deferred"} ==> r == CompleteDaily(rows, width)
    ensures ClassSuffix(stationClass) !in {"automatic", "realtime", "deferred"} ==> r == Err(UnknownStationClass)
    ensures r.Ok? ==> |rows| > 0 && WellFormed(r.value, width)
  {
    var suffix := ClassSuffix(stationClass);
    if suffix == "automatic" then
      var r := CompleteHourly(rows, width);
      if r.Ok? then HourlyWellFormed(rows, width); r else r
    else if suffix == "realtime" || suffix == "deferred" then
      if |rows| > 0 then DailyWellFormed(rows, width); CompleteDaily(rows, width) else CompleteDaily(rows, width)
    else Err(UnknownStationClass)
  }

  /** Every row of the completed daily frame has a valid date and one cell
      per column. */
  lemma {:induction false} DailyWellFormed(rows: seq<Row>, width: nat)
    requires WellFormed(rows, width) && |rows| > 0
    ensures WellFormed(CompleteDaily(rows, width).value, width)
  {
    var r := CompleteDaily(rows, width).value;
    forall k | 0 <= k < |r| ensures ValidDate(r[k].date) && |r[k].cells| == width {
      DailyOrigin(rows, width, k);
    }
  }

  lemma {:induction false} HourlyWellFormed(rows: seq<Row>, width: nat)
    requires WellFormed(rows, width) && CompleteHourly(rows, width).Ok?
    ensures WellFormed(CompleteHourly(rows, width).value, width)
  {
    var r := CompleteHourly(rows, width).value;
    forall k | 0 <= k < |r| ensures ValidDate(r[k].date) && |r[k].cells| == width {
      HourlyOrigin(rows, width, k);
    }
  }
}
