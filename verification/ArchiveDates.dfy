/** `generate_date` of the historic archive scrapers: the chart gives only
    the year of each daily value, and the dates are rebuilt as one run of
    consecutive days. The first year's values are taken to be its last days
    (the run ends that year on 31 December), the last year's values its
    first days (the run starts that year on 1 January). */
module ArchiveDates {
  import opened Wrappers
  import opened Calendar

  /** `len(df[df[field_dates] == y])`: how many rows hold year `y`. */
  function Occurrences(years: seq<int>, y: int): nat
    decreases |years|
  {
    if |years| == 0 then 0
    else Occurrences(years[..|years| - 1], y) + (if years[|years| - 1] == y then 1 else 0)
  }

  /** `date_rng_fy[-len_first_year]`: the first year's days, counted back
      from 31 December. An empty column fails on `[0]`, a year outside the
      timestamp range fails in `date_range`, and more rows than days fail on
      the index. */
  function FirstYearStart(years: seq<int>): (r: Result<Date>)
    ensures r.Ok? ==> |years| > 0 && TimestampYear(years[0])
    ensures r.Ok? ==> var n := Occurrences(years, years[0]);
                      ValidDate(r.value) && r.value.year == years[0]
                      && 1 <= n <= DaysInYear(years[0]) && DayOfYear(r.value) == DaysInYear(years[0]) - n + 1
    ensures |years| == 0 ==> r == Err(IndexOutOfRange)
    ensures |years| > 0 && !TimestampYear(years[0]) ==> r == Err(OutOfBoundsYear)
    ensures |years| > 0 && TimestampYear(years[0]) && Occurrences(years, years[0]) > DaysInYear(years[0]) ==>
              r == Err(IndexOutOfRange)
  {
    if |years| == 0 then Err(IndexOutOfRange)
    else
      var fy := years[0];
      var n := Occurrences(years, fy);
      OccurrencesOfMember(years, 0);
      if !TimestampYear(fy) then Err(OutOfBoundsYear)
      else if n > DaysInYear(fy) then Err(IndexOutOfRange)
      else Ok(YearDays(fy)[DaysInYear(fy) - n])
  }

  /** `date_rng_ly[len_last_year - 1]`: the last year's days, counted from
      1 January. */
  function LastYearEnd(years: seq<int>): (r: Result<Date>)
    requires |years| > 0
    ensures r.Ok? ==> TimestampYear(years[|years| - 1])
    ensures r.Ok? ==> var m := Occurrences(years, years[|years| - 1]);
                      ValidDate(r.value) && r.value.year == years[|years| - 1]
                      && 1 <= m <= DaysInYear(years[|years| - 1]) && DayOfYear(r.value) == m
    ensures !TimestampYear(years[|years| - 1]) ==> r == Err(OutOfBoundsYear)
    ensures TimestampYear(years[|years| - 1]) && Occurrences(years, years[|years| - 1]) > DaysInYear(years[|years| - 1]) ==>
              r == Err(IndexOutOfRange)
  {
    var ly := years[|years| - 1];
    var m := Occurrences(years, ly);
    OccurrencesOfMember(years, |years| - 1);
    if !TimestampYear(ly) then Err(OutOfBoundsYear)
    else if m > DaysInYear(ly) then Err(IndexOutOfRange)
    else Ok(YearDays(ly)[m - 1])
  }

  /** The new date column: every day from the first year's start to the last
      year's end. Assigning it to the frame needs one date per row. */
  function GenerateDate(years: seq<int>): (r: Result<seq<Date>>)
    ensures r.Ok? ==> FirstYearStart(years).Ok? && LastYearEnd(years).Ok?
    ensures r.Ok? ==> |r.value| == |years| && r.value[0] == FirstYearStart(years).value
                      && r.value[|years| - 1] == LastYearEnd(years).value
    ensures FirstYearStart(years).Err? ==> r == Err(FirstYearStart(years).error)
    ensures FirstYearStart(years).Ok? && LastYearEnd(years).Err? ==> r == Err(LastYearEnd(years).error)
  {
    var start :- FirstYearStart(years);
    var end :- LastYearEnd(years);
    var dates := DayRange(start, end);
    if |dates| != |years| then Err(LengthMismatch)
    else Ok(dates)
  }

  /** The rebuilt dates are one run of days: each date's day number is the
      first's plus its position, so they strictly increase. */
  lemma GenerateDateIncreases(years: seq<int>, i: int, j: int)
    requires GenerateDate(years).Ok? && 0 <= i < j < |years|
    ensures var r := GenerateDate(years).value;
            ValidDate(r[i]) && ValidDate(r[j]) && DayNumber(r[j]) == DayNumber(r[i]) + (j - i) && Before(r[i], r[j])
  {
    var start := FirstYearStart(years).value;
    var end := LastYearEnd(years).value;
    var r := DayRange(start, end);
    BeforeIsDayNumberOrder(r[i], r[j]);
  }

  /** The first year's `n` rows are the last `n` days of that year: the
      `n`-th date is 31 December. */
  lemma FirstYearEndsOnNewYearsEve(years: seq<int>)
    requires GenerateDate(years).Ok?
    ensures var n := Occurrences(years, years[0]);
            var r := GenerateDate(years).value;
            1 <= n <= |r| && r[n - 1] == Date(years[0], 12, 31)
  {
    var fy := years[0];
    var n := Occurrences(years, fy);
    var start := FirstYearStart(years).value;
    var end := LastYearEnd(years).value;
    var r := GenerateDate(years).value;
    assert r == DayRange(start, end) && 1 <= n <= |r| by {
      OccurrencesAtMost(years, fy);
    }
    RunEndsYear(start, end, n);
  }

  /** A run whose start is `n` days before the end of its year reaches 31
      December at its `n`-th day. */
  lemma RunEndsYear(start: Date, end: Date, n: int)
    requires ValidDate(start) && ValidDate(end) && 1 <= n <= |DayRange(start, end)|
    requires DayOfYear(start) == DaysInYear(start.year) - n + 1
    ensures DayRange(start, end)[n - 1] == Date(start.year, 12, 31)
  {
    var last := Date(start.year, 12, 31);
    assert ValidDate(last) && DayNumber(last) == DayNumber(start) + (n - 1) by {
      YearStep(start.year);
      LastDayOfYear(last);
    }
    RunReaches(start, end, n - 1, last);
  }

  /** The last year's `m` rows are the first `m` days of that year: the
      `m`-th date from the end is 1 January. */
  lemma LastYearStartsOnNewYearsDay(years: seq<int>)
    requires GenerateDate(years).Ok?
    ensures var m := Occurrences(years, years[|years| - 1]);
            var r := GenerateDate(years).value;
            1 <= m <= |r| && r[|r| - m] == Date(years[|years| - 1], 1, 1)
  {
    var ly := years[|years| - 1];
    var m := Occurrences(years, ly);
    OccurrencesAtMost(years, ly);
    var start := FirstYearStart(years).value;
    var end := LastYearEnd(years).value;
    var r := GenerateDate(years).value;
    assert ValidDate(start);
    assert ValidDate(end);
    assert r == DayRange(start, end);
    assert 1 <= m <= |r|;
    assert DayOfYear(end) == m;
    assert end.year == ly;
    RunStartsYear(start, end, m, r);
  }

  /** A run whose end is the `m`-th day of its year passes 1 January `m`
      days before its end. */
  lemma RunStartsYear(start: Date, end: Date, m: int, r: seq<Date>)
    requires ValidDate(start) && ValidDate(end) && r == DayRange(start, end) && 1 <= m <= |r|
    requires DayOfYear(end) == m
    ensures r[|r| - m] == Date(end.year, 1, 1)
  {
    var first := Date(end.year, 1, 1);
    assert ValidDate(first) && DayNumber(first) == DayNumber(start) + (|r| - m) by {
      FirstDayOfYear(end.year);
      RunEnd(start, end);
    }
    RunReaches(start, end, |r| - m, first);
  }

  /** The `k`-th day of a run is the date `k` days after its start. */
  lemma RunReaches(start: Date, end: Date, k: int, target: Date)
    requires ValidDate(start) && ValidDate(end) && ValidDate(target)
    requires 0 <= k < |DayRange(start, end)| && DayNumber(target) == DayNumber(start) + k
    ensures DayRange(start, end)[k] == target
  {
    DayNumberInjective(DayRange(start, end)[k], target);
  }

  /** A run that is not empty ends on its end date. */
  lemma RunEnd(start: Date, end: Date)
    requires ValidDate(start) && ValidDate(end) && |DayRange(start, end)| > 0
    ensures DayNumber(end) == DayNumber(start) + |DayRange(start, end)| - 1
  {
  }

  // ---------------------------------------------------------------------
  // When the years come from a run of days
  // ---------------------------------------------------------------------

  /** The year of each day: what the chart's categories hold for a daily
      record. */
  function YearsOf(days: seq<Date>): (r: seq<int>)
    ensures |r| == |days| && forall i :: 0 <= i < |days| ==> r[i] == days[i].year
  {
    seq(|days|, i requires 0 <= i < |days| => days[i].year)
  }

  lemma {:induction false} OccurrencesOfMember(s: seq<int>, i: int)
    requires 0 <= i < |s|
    ensures Occurrences(s, s[i]) >= 1
    decreases |s|
  {
    if i < |s| - 1 {
      OccurrencesOfMember(s[..|s| - 1], i);
    }
  }

  lemma OccurrencesAtMost(s: seq<int>, y: int)
    ensures Occurrences(s, y) <= |s|
  {
  }

  /** A value occurs as often as the positions from `a` up to `b` that hold
      it, when it is held exactly there. */
  lemma {:induction false} CountRun(s: seq<int>, y: int, a: int, b: int)
    requires 0 <= a <= b <= |s|
    requires forall i :: 0 <= i < |s| ==> (s[i] == y <==> a <= i < b)
    ensures Occurrences(s, y) == b - a
    decreases |s|
  {
    if |s| > 0 {
      var front := s[..|s| - 1];
      var a', b' := if a < |s| then a else |s| - 1, if b < |s| then b else |s| - 1;
      forall i | 0 <= i < |front| ensures front[i] == y <==> a' <= i < b' {
        assert front[i] == s[i];
      }
      CountRun(front, y, a', b');
    }
  }

  /** A record of consecutive days that crosses at least one new year, with
      both end years in the timestamp range, gets its own dates back. */
  lemma GenerateDateRecovers(d0: Date, n: nat)
    requires ValidDate(d0) && n >= 1
    requires var days := DaysFrom(d0, n);
             TimestampYear(d0.year) && TimestampYear(days[n - 1].year) && d0.year < days[n - 1].year
    ensures GenerateDate(YearsOf(DaysFrom(d0, n))) == Ok(DaysFrom(d0, n))
  {
    var days := DaysFrom(d0, n);
    var years := YearsOf(days);
    var last := days[n - 1];
    var fy, ly := d0.year, last.year;
    YearStep(fy);
    YearsApart(fy, ly);
    YearOfDayNumber(last, ly);
    // The first year: the first k days.
    var k := DaysBeforeYear(fy + 1) - DayNumber(d0);
    YearOfDayNumber(d0, fy);
    assert 1 <= k < n;
    forall i | 0 <= i < n ensures years[i] == fy <==> 0 <= i < k {
      YearOfDayNumber(days[i], fy);
    }
    CountRun(years, fy, 0, k);
    FirstStartIs(years, d0);
    // The last year: the days from position n - m on.
    var m := DayNumber(last) - DaysBeforeYear(ly) + 1;
    assert 1 <= m < n;
    forall i | 0 <= i < n ensures years[i] == ly <==> n - m <= i < n {
      YearOfDayNumber(days[i], ly);
      if i < n - m {
        assert DayNumber(days[i]) < DaysBeforeYear(ly);
      }
    }
    CountRun(years, ly, n - m, n);
    LastEndIs(years, last);
    // The range between them is the run itself.
    var r := DayRange(d0, last);
    assert |r| == n;
    forall i | 0 <= i < n ensures r[i] == days[i] {
      DayNumberInjective(r[i], days[i]);
    }
  }

  /** The start is `d`, when the first year occurs as many times as there
      are days from `d` to 31 December. */
  lemma FirstStartIs(years: seq<int>, d: Date)
    requires ValidDate(d) && |years| > 0 && years[0] == d.year && TimestampYear(d.year)
    requires Occurrences(years, d.year) == DaysInYear(d.year) - DayOfYear(d) + 1
    ensures FirstYearStart(years) == Ok(d)
  {
    var s := FirstYearStart(years).value;
    assert DayNumber(s) == DayNumber(d);
    DayNumberInjective(s, d);
  }

  /** The end is `d`, when the last year occurs as many times as there are
      days from 1 January to `d`. */
  lemma LastEndIs(years: seq<int>, d: Date)
    requires ValidDate(d) && |years| > 0 && years[|years| - 1] == d.year && TimestampYear(d.year)
    requires Occurrences(years, d.year) == DayOfYear(d)
    ensures LastYearEnd(years) == Ok(d)
  {
    var e := LastYearEnd(years).value;
    assert DayNumber(e) == DayNumber(d);
    DayNumberInjective(e, d);
  }

  /** A record within one year is anchored at both ends of that year, so it
      only fits when it is the whole year: `n` rows of year `y` give all the
      days of `y` when `n` is the length of the year, and fail when fewer. */
  lemma SingleYear(y: int, n: nat)
    requires TimestampYear(y) && 1 <= n <= DaysInYear(y)
    ensures n == DaysInYear(y) ==> GenerateDate(seq(n, _ => y)) == Ok(YearDays(y))
    ensures n < DaysInYear(y) ==> GenerateDate(seq(n, _ => y)) == Err(LengthMismatch)
  {
    var years: seq<int> := seq(n, _ => y);
    CountRun(years, y, 0, n);
    var start := FirstYearStart(years).value;
    var end := LastYearEnd(years).value;
    FirstDayOfYear(y);
    var r := DayRange(start, end);
    if n == DaysInYear(y) {
      var days := YearDays(y);
      assert |r| == n;
      forall i | 0 <= i < n ensures r[i] == days[i] {
        DayNumberInjective(r[i], days[i]);
      }
    } else {
      assert DayNumber(end) - DayNumber(start) + 1 == 2 * n - DaysInYear(y);
    }
  }
}
