/** `download_data_range` of the real-time scraper: the months between two
    dates (or only the start date, when `specific`), downloaded one after
    the other and stacked into one frame. */
module RealtimeRange {
  import opened Wrappers
  import opened Calendar
  import opened DateText
  import opened Stations
  import opened Realtime

  /** `pd.date_range(start=init_date, end=last_date, freq='MS')`: both texts
      must read as dates a timestamp can hold. */
  function MonthRange(initDate: string, lastDate: string): (r: Result<seq<Date>>)
    ensures r.Ok? <==> ParseIsoDate(initDate).Some? && ParseIsoDate(lastDate).Some?
                       && TimestampYear(ParseIsoDate(initDate).value.year) && TimestampYear(ParseIsoDate(lastDate).value.year)
    ensures ParseIsoDate(initDate).None? ==> r == Err(UnparsableValue)
  {
    var init :- ParseDate(initDate);
    var last :- ParseDate(lastDate);
    if !TimestampYear(init.year) || !TimestampYear(last.year) then Err(OutOfBoundsYear)
    else Ok(MonthStarts(init, last))
  }

  /** `range_date`: the start text alone when `specific`, otherwise every
      month start written `%Y-%m-%d`. The month starts are computed, and
      can raise, in both cases. */
  function RangeDates(initDate: string, lastDate: string, specific: bool): (r: Result<seq<string>>)
    ensures r.Ok? <==> MonthRange(initDate, lastDate).Ok?
    ensures r.Err? ==> r.error == MonthRange(initDate, lastDate).error
    ensures r.Ok? && specific ==> r.value == [initDate]
    ensures r.Ok? && !specific ==>
              var starts := MonthRange(initDate, lastDate).value;
              |r.value| == |starts|
              && forall i :: 0 <= i < |starts| ==> ValidDate(starts[i]) && r.value[i] == FormatIsoDate(starts[i])
  {
    var starts :- MonthRange(initDate, lastDate);
    MonthStartsValid(ParseIsoDate(initDate).value, ParseIsoDate(lastDate).value);
    if specific then Ok([initDate])
    else Ok(seq(|starts|, i requires 0 <= i < |starts| => FormatIsoDate(starts[i])))
  }

  lemma MonthStartsValid(start: Date, end: Date)
    requires ValidDate(start) && ValidDate(end)
    ensures forall i :: 0 <= i < |MonthStarts(start, end)| ==> ValidDate(MonthStarts(start, end)[i])
  {
  }

  /** `pd.concat` of the frames in order onto the initial empty frame; the
      first result that is an exception ends the loop with it. */
  function Stacked(results: seq<Result<Frame>>): Result<Frame>
    decreases |results|
  {
    if |results| == 0 then Ok(Frame([], []))
    else
      var front :- Stacked(results[..|results| - 1]);
      var f :- results[|results| - 1];
      Ok(Frame(f.columns, front.records + f.records))
  }

  /** `download_data` on each of the months. */
  function MonthFrames(db: seq<StationRecord>, code: string, months: seq<string>, completedata: bool, specific: bool,
                       svc: Service): (r: seq<Result<Frame>>)
    requires SoundParser(svc.parse)
    ensures |r| == |months|
    ensures forall i :: 0 <= i < |months| ==> r[i] == DownloadData(db, code, months[i], completedata, specific, svc)
  {
    seq(|months|, i requires 0 <= i < |months| => DownloadData(db, code, months[i], completedata, specific, svc))
  }

  /** The loop of `download_data_range` over `months`. */
  function DownloadAll(db: seq<StationRecord>, code: string, months: seq<string>, completedata: bool, specific: bool,
                       svc: Service): Result<Frame>
    requires SoundParser(svc.parse)
  {
    Stacked(MonthFrames(db, code, months, completedata, specific, svc))
  }

  /** `download_data_range`: the frame it writes out (to the CSV file, or to
      the console). `show_message` looks the station up first unless
      `quiet`. */
  method DownloadDataRange(db: seq<StationRecord>, code: string, initDate: string, lastDate: string,
                           completedata: bool, specific: bool, quiet: bool, svc: Service) returns (r: Result<Frame>)
    requires SoundParser(svc.parse)
    ensures RangeDates(initDate, lastDate, specific).Err? ==> r == Err(RangeDates(initDate, lastDate, specific).error)
    ensures RangeDates(initDate, lastDate, specific).Ok? && !quiet && Lookup(db, code).Err? ==>
              r == Err(DuplicatedStationCode)
    ensures RangeDates(initDate, lastDate, specific).Ok? && (quiet || Lookup(db, code).Ok?) ==>
              r == DownloadAll(db, code, RangeDates(initDate, lastDate, specific).value, completedata, specific, svc)
  {
    var months :- RangeDates(initDate, lastDate, specific);
    if !quiet {
      var shown := Lookup(db, code);
      if shown.Err? {
        return Err(shown.error);
      }
    }
    r := DownloadMonths(db, code, months, completedata, specific, svc);
  }

  /** The loop over `range_date`: each month downloaded and stacked onto the
      frame so far. */
  method DownloadMonths(db: seq<StationRecord>, code: string, months: seq<string>, completedata: bool, specific: bool,
                        svc: Service) returns (r: Result<Frame>)
    requires SoundParser(svc.parse)
    ensures r == DownloadAll(db, code, months, completedata, specific, svc)
  {
    ghost var all := MonthFrames(db, code, months, completedata, specific, svc);
    var frame := Frame([], []);
    for i := 0 to |months|
      invariant Stacked(all[..i]) == Ok(frame)
    {
      var f := DownloadData(db, code, months[i], completedata, specific, svc);
      StackedStep(all, i, frame);
      if f.Err? {
        StackedStops(all, i + 1);
        return Err(f.error);
      }
      frame := Frame(f.value.columns, frame.records + f.value.records);
    }
    assert all[..|months|] == all;
    return Ok(frame);
  }

  /** One more result stacked onto the frame so far. */
  lemma StackedStep(results: seq<Result<Frame>>, i: int, frame: Frame)
    requires 0 <= i < |results| && Stacked(results[..i]) == Ok(frame)
    ensures Stacked(results[..i + 1])
            == if results[i].Ok? then Ok(Frame(results[i].value.columns, frame.records + results[i].value.records))
               else Err(results[i].error)
  {
    assert results[..i + 1][..i] == results[..i];
  }

  /** A month that raises ends the whole download with its error. */
  lemma {:induction false} StackedStops(results: seq<Result<Frame>>, i: int)
    requires 0 <= i <= |results| && Stacked(results[..i]).Err?
    ensures Stacked(results) == Stacked(results[..i])
    decreases |results|
  {
    if i == |results| {
      assert results[..i] == results;
    } else {
      var front := results[..|results| - 1];
      assert front[..i] == results[..i];
      StackedStops(front, i);
    }
  }

  /** Every result stacked without error is a frame, and the stacked frame
      carries the last one's columns. */
  lemma {:induction false} StackedEach(results: seq<Result<Frame>>)
    requires Stacked(results).Ok?
    ensures forall i :: 0 <= i < |results| ==> results[i].Ok?
    ensures |results| > 0 ==> Stacked(results).value.columns == results[|results| - 1].value.columns
    decreases |results|
  {
    if |results| > 0 {
      var front := results[..|results| - 1];
      StackedEach(front);
      forall i | 0 <= i < |results| ensures results[i].Ok? {
        if i < |front| {
          assert results[i] == front[i];
        }
      }
    }
  }

  /** Earlier results come first: the stack of a prefix is a prefix of the
      stack. */
  lemma {:induction false} StackedPrefix(results: seq<Result<Frame>>, i: int)
    requires 0 <= i <= |results| && Stacked(results).Ok?
    ensures Stacked(results[..i]).Ok?
    ensures var all := Stacked(results).value.records;
            var part := Stacked(results[..i]).value.records;
            |part| <= |all| && all[..|part|] == part
    decreases |results|
  {
    if i == |results| {
      assert results[..i] == results;
    } else {
      var front := results[..|results| - 1];
      assert front[..i] == results[..i];
      StackedPrefix(front, i);
      var all := Stacked(results).value.records;
      var mid := Stacked(front).value.records;
      assert all[..|mid|] == mid;
    }
  }

  /** Every month of a successful download succeeds, and the stacked frame
      carries the station's column list. */
  lemma DownloadAllEachMonth(db: seq<StationRecord>, code: string, months: seq<string>,
                             completedata: bool, specific: bool, svc: Service)
    requires SoundParser(svc.parse)
    requires DownloadAll(db, code, months, completedata, specific, svc).Ok?
    ensures forall i :: 0 <= i < |months| ==> DownloadData(db, code, months[i], completedata, specific, svc).Ok?
    ensures |months| > 0 ==>
              Lookup(db, code).Ok? && ColumnsOf(Lookup(db, code).value).Ok?
              && DownloadAll(db, code, months, completedata, specific, svc).value.columns
                 == ColumnsOf(Lookup(db, code).value).value
  {
    StackedEach(MonthFrames(db, code, months, completedata, specific, svc));
  }

  /** Months are stacked in order: the frame of the first `i` months opens
      the frame of all of them. */
  lemma DownloadAllPrefix(db: seq<StationRecord>, code: string, months: seq<string>, i: int,
                          completedata: bool, specific: bool, svc: Service)
    requires SoundParser(svc.parse) && 0 <= i <= |months|
    requires DownloadAll(db, code, months, completedata, specific, svc).Ok?
    ensures DownloadAll(db, code, months[..i], completedata, specific, svc).Ok?
    ensures var all := DownloadAll(db, code, months, completedata, specific, svc).value.records;
            var part := DownloadAll(db, code, months[..i], completedata, specific, svc).value.records;
            |part| <= |all| && all[..|part|] == part
  {
    var all := MonthFrames(db, code, months, completedata, specific, svc);
    assert MonthFrames(db, code, months[..i], completedata, specific, svc) == all[..i];
    StackedPrefix(all, i);
  }

  /** Without `specific`, every text processed is the first day of a month
      between the two dates, written `%Y-%m-%d`. */
  lemma RangeTextsAreMonthStarts(initDate: string, lastDate: string, t: string)
    requires RangeDates(initDate, lastDate, false).Ok?
    requires t in RangeDates(initDate, lastDate, false).value
    ensures var init, last := ParseIsoDate(initDate).value, ParseIsoDate(lastDate).value;
            ParseIsoDate(t).Some? && ParseIsoDate(t).value.day == 1
            && NotAfter(init, ParseIsoDate(t).value) && NotAfter(ParseIsoDate(t).value, last)
  {
    var init, last := ParseIsoDate(initDate).value, ParseIsoDate(lastDate).value;
    var starts := MonthStarts(init, last);
    var texts := RangeDates(initDate, lastDate, false).value;
    var i :| 0 <= i < |texts| && texts[i] == t;
    assert MonthStartsInYears(starts, init, last, i) by {
      MonthStartsBounded(init, last, i);
    }
    assert TimestampYear(init.year) && TimestampYear(last.year);
    assert ValidDate(starts[i]) by {
      MonthStartsValid(init, last);
    }
    IsoDateRoundTrip(starts[i]);
    assert starts[i] in starts;
    MonthStartsMembers(init, last, starts[i]);
  }

  /** Without `specific`, the first day of every month between the two
      dates is processed. */
  lemma MonthStartsAreProcessed(initDate: string, lastDate: string, d: Date)
    requires RangeDates(initDate, lastDate, false).Ok?
    requires ValidDate(d) && d.day == 1
    requires NotAfter(ParseIsoDate(initDate).value, d) && NotAfter(d, ParseIsoDate(lastDate).value)
    ensures FormatIsoDate(d) in RangeDates(initDate, lastDate, false).value
  {
    var init, last := ParseIsoDate(initDate).value, ParseIsoDate(lastDate).value;
    var starts := MonthStarts(init, last);
    var texts := RangeDates(initDate, lastDate, false).value;
    MonthStartsMembers(init, last, d);
    var i :| 0 <= i < |starts| && starts[i] == d;
    assert texts[i] == FormatIsoDate(d);
  }

  predicate MonthStartsInYears(starts: seq<Date>, init: Date, last: Date, i: int) {
    0 <= i < |starts| && init.year <= starts[i].year <= last.year
  }

  lemma MonthStartsBounded(init: Date, last: Date, i: int)
    requires ValidDate(init) && ValidDate(last) && 0 <= i < |MonthStarts(init, last)|
    ensures MonthStartsInYears(MonthStarts(init, last), init, last, i)
  {
    var d := MonthStarts(init, last)[i];
    assert d in MonthStarts(init, last);
    MonthStartsMembers(init, last, d);
  }

  /** A start date after the first of its month loses that month: no date
      of the start's own month is processed. */
  lemma PartialFirstMonthSkipped(initDate: string, lastDate: string, d: Date)
    requires MonthRange(initDate, lastDate).Ok?
    requires ParseIsoDate(initDate).value.day > 1
    requires d in MonthRange(initDate, lastDate).value
    ensures (d.year, d.month) != (ParseIsoDate(initDate).value.year, ParseIsoDate(initDate).value.month)
  {
    MonthStartsMembers(ParseIsoDate(initDate).value, ParseIsoDate(lastDate).value, d);
  }

  /** With `specific`, only the start date is downloaded: the result is that
      one day's frame. */
  lemma SpecificDownloadsStartOnly(db: seq<StationRecord>, code: string, initDate: string, lastDate: string,
                                   completedata: bool, svc: Service)
    requires SoundParser(svc.parse) && RangeDates(initDate, lastDate, true).Ok?
    ensures var one := DownloadData(db, code, initDate, completedata, true, svc);
            DownloadAll(db, code, RangeDates(initDate, lastDate, true).value, completedata, true, svc)
            == if one.Ok? then Ok(one.value) else Err(one.error)
  {
    var months := RangeDates(initDate, lastDate, true).value;
    StackedSingle(MonthFrames(db, code, months, completedata, true, svc));
  }

  lemma StackedSingle(results: seq<Result<Frame>>)
    requires |results| == 1
    ensures Stacked(results) == if results[0].Ok? then Ok(results[0].value) else Err(results[0].error)
  {
    assert results[..0] == [];
    if results[0].Ok? {
      assert [] + results[0].value.records == results[0].value.records;
    }
  }
}
