/** The proleptic Gregorian calendar as Python's `calendar` and `datetime`
    modules (and pandas' daily `date_range`) use it. A date is a plain
    (year, month, day) triple; `DayNumber` counts days from 0001-01-01, the
    first day `datetime` can represent. */
module Calendar {

  datatype Date = Date(year: int, month: int, day: int)

  /** Years a pandas timestamp holds in full: 1 January and 31 December of
      the year are both representable. */
  predicate TimestampYear(y: int) {
    1678 <= y <= 2261
  }

  predicate IsLeapYear(y: int) {
    y % 4 == 0 && (y % 100 != 0 || y % 400 == 0)
  }

  function DaysInYear(y: int): int {
    if IsLeapYear(y) then 366 else 365
  }

  /** `calendar.monthrange(y, m)[1]`. */
  function DaysInMonth(y: int, m: int): (n: int)
    requires 1 <= m <= 12
    ensures 28 <= n <= 31
    ensures m == 2 ==> (n == 29 <==> IsLeapYear(y))
  {
    if m == 2 then (if IsLeapYear(y) then 29 else 28)
    else if m == 4 || m == 6 || m == 9 || m == 11 then 30
    else 31
  }

  /** Days of year `y` that come before the first of month `m`; month 13
      stands for the first of the next year. */
  function DaysBeforeMonth(y: int, m: int): int
    requires 1 <= m <= 13
  {
    var cumulative := [0, 31, 59, 90, 120, 151, 181, 212, 243, 273, 304, 334, 365];
    cumulative[m - 1] + (if m >= 3 && IsLeapYear(y) then 1 else 0)
  }

  lemma MonthStep(y: int, m: int)
    requires 1 <= m <= 12
    ensures DaysBeforeMonth(y, m + 1) == DaysBeforeMonth(y, m) + DaysInMonth(y, m)
    ensures DaysBeforeMonth(y, 13) == DaysInYear(y)
  {
  }

  lemma MonthMonotone(y: int, m1: int, m2: int)
    requires 1 <= m1 < m2 <= 13
    ensures DaysBeforeMonth(y, m1) + DaysInMonth(y, m1) <= DaysBeforeMonth(y, m2)
  {
  }

  /** A date `datetime` accepts: year at least 1 (MINYEAR), a month 1..12 and
      a day within that month. */
  predicate ValidDate(d: Date) {
    d.year >= 1 && 1 <= d.month <= 12 && 1 <= d.day <= DaysInMonth(d.year, d.month)
  }

  /** Lexicographic order on dates, the order pandas compares timestamps in. */
  predicate Before(a: Date, b: Date) {
    a.year < b.year
    || (a.year == b.year && a.month < b.month)
    || (a.year == b.year && a.month == b.month && a.day < b.day)
  }

  predicate NotAfter(a: Date, b: Date) {
    a == b || Before(a, b)
  }

  /** 1-based position of `d` within its year. */
  function DayOfYear(d: Date): (k: int)
    requires ValidDate(d)
    ensures 1 <= k <= DaysInYear(d.year)
  {
    MonthStep(d.year, d.month);
    MonthMonotone(d.year, d.month, 13);
    DaysBeforeMonth(d.year, d.month) + d.day
  }

  function DaysBeforeYear(y: int): (n: int)
    requires y >= 1
    ensures n >= 0
  {
    if y == 1 then 0 else DaysBeforeYear(y - 1) + DaysInYear(y - 1)
  }

  /** Days elapsed since 0001-01-01. */
  function DayNumber(d: Date): int
    requires ValidDate(d)
  {
    DaysBeforeYear(d.year) + DayOfYear(d) - 1
  }

  lemma {:induction false} YearsApart(a: int, b: int)
    requires 1 <= a < b
    ensures DaysBeforeYear(a) + DaysInYear(a) <= DaysBeforeYear(b)
  {
    if a + 1 < b {
      YearsApart(a, b - 1);
    }
  }

  /** The day numbers of year `y` are exactly [DaysBeforeYear(y), DaysBeforeYear(y + 1)). */
  lemma YearOfDayNumber(d: Date, y: int)
    requires ValidDate(d) && y >= 1
    ensures d.year == y <==> DaysBeforeYear(y) <= DayNumber(d) < DaysBeforeYear(y + 1)
  {
    if d.year < y {
      YearsApart(d.year, y);
    } else if d.year > y {
      YearsApart(y, d.year);
    }
  }

  /** Lexicographic order and day-number order agree on valid dates. */
  lemma {:induction false} BeforeIsDayNumberOrder(a: Date, b: Date)
    requires ValidDate(a) && ValidDate(b)
    ensures Before(a, b) <==> DayNumber(a) < DayNumber(b)
    ensures a == b <==> DayNumber(a) == DayNumber(b)
  {
    if a.year < b.year {
      YearsApart(a.year, b.year);
    } else if a.year > b.year {
      YearsApart(b.year, a.year);
    } else if a.month < b.month {
      MonthMonotone(a.year, a.month, b.month);
    } else if a.month > b.month {
      MonthMonotone(a.year, b.month, a.month);
    }
  }

  lemma DayNumberInjective(a: Date, b: Date)
    requires ValidDate(a) && ValidDate(b) && DayNumber(a) == DayNumber(b)
    ensures a == b
  {
    BeforeIsDayNumberOrder(a, b);
  }

  /** The following calendar day. */
  function NextDay(d: Date): (r: Date)
    requires ValidDate(d)
    ensures ValidDate(r)
    ensures DayNumber(r) == DayNumber(d) + 1
  {
    var r := if d.day < DaysInMonth(d.year, d.month) then Date(d.year, d.month, d.day + 1)
             else if d.month < 12 then Date(d.year, d.month + 1, 1)
             else Date(d.year + 1, 1, 1);
    NextDayStep(d, r);
    r
  }

  lemma NextDayStep(d: Date, r: Date)
    requires ValidDate(d)
    requires r == if d.day < DaysInMonth(d.year, d.month) then Date(d.year, d.month, d.day + 1)
                  else if d.month < 12 then Date(d.year, d.month + 1, 1)
                  else Date(d.year + 1, 1, 1)
    ensures ValidDate(r) && DayNumber(r) == DayNumber(d) + 1
  {
    if d.day < DaysInMonth(d.year, d.month) {
    } else if d.month < 12 {
      NextMonthStep(d);
    } else {
      NextYearStep(d);
    }
  }

  /** The last day of a month other than December is followed by the first
      of the next month. */
  lemma NextMonthStep(d: Date)
    requires ValidDate(d) && d.day == DaysInMonth(d.year, d.month) && d.month < 12
    ensures ValidDate(Date(d.year, d.month + 1, 1)) && DayNumber(Date(d.year, d.month + 1, 1)) == DayNumber(d) + 1
  {
    MonthStep(d.year, d.month);
    assert DayOfYear(Date(d.year, d.month + 1, 1)) == DaysBeforeMonth(d.year, d.month + 1) + 1;
  }

  /** 31 December is followed by 1 January. */
  lemma NextYearStep(d: Date)
    requires ValidDate(d) && d.day == DaysInMonth(d.year, d.month) && d.month == 12
    ensures ValidDate(Date(d.year + 1, 1, 1)) && DayNumber(Date(d.year + 1, 1, 1)) == DayNumber(d) + 1
  {
    YearTurn(d.year);
  }

  lemma YearTurn(y: int)
    requires y >= 1
    ensures ValidDate(Date(y, 12, 31)) && ValidDate(Date(y + 1, 1, 1))
    ensures DayNumber(Date(y + 1, 1, 1)) == DayNumber(Date(y, 12, 31)) + 1
  {
    var a, b := DayNumber(Date(y, 12, 31)), DayNumber(Date(y + 1, 1, 1));
    assert a == DaysBeforeYear(y) + DaysInYear(y) - 1 by {
      LastDayOfYear(Date(y, 12, 31));
    }
    assert b == DaysBeforeYear(y + 1) by {
      FirstDayOfYear(y + 1);
    }
    YearStep(y);
  }

  lemma LastDayOfYear(d: Date)
    requires ValidDate(d) && d.month == 12 && d.day == 31
    ensures DayNumber(d) == DaysBeforeYear(d.year) + DaysInYear(d.year) - 1
  {
    MonthStep(d.year, 12);
  }

  lemma FirstDayOfYear(y: int)
    requires y >= 1
    ensures ValidDate(Date(y, 1, 1)) && DayNumber(Date(y, 1, 1)) == DaysBeforeYear(y)
  {
  }

  lemma YearStep(y: int)
    requires y >= 1
    ensures DaysBeforeYear(y + 1) == DaysBeforeYear(y) + DaysInYear(y)
  {
  }

  /** `n` consecutive days starting at `d`. */
  function DaysFrom(d: Date, n: nat): (r: seq<Date>)
    requires ValidDate(d)
    ensures |r| == n
    ensures forall i :: 0 <= i < n ==> ValidDate(r[i]) && DayNumber(r[i]) == DayNumber(d) + i
    ensures forall i :: 0 <= i < n - 1 ==> r[i + 1] == NextDay(r[i])
    decreases n
  {
    if n == 0 then [] else [d] + DaysFrom(NextDay(d), n - 1)
  }

  /** `pd.date_range(start, end, freq='D')`: every day from `start` to `end`
      inclusive, empty when `end` comes before `start`. */
  function DayRange(start: Date, end: Date): (r: seq<Date>)
    requires ValidDate(start) && ValidDate(end)
    ensures DayNumber(start) <= DayNumber(end) ==>
              |r| == DayNumber(end) - DayNumber(start) + 1 && r[0] == start && r[|r| - 1] == end
    ensures DayNumber(end) < DayNumber(start) ==> r == []
    ensures forall i :: 0 <= i < |r| ==> ValidDate(r[i]) && DayNumber(r[i]) == DayNumber(start) + i
    ensures forall i :: 0 <= i < |r| - 1 ==> r[i + 1] == NextDay(r[i])
  {
    var n := if DayNumber(end) >= DayNumber(start) then DayNumber(end) - DayNumber(start) + 1 else 0;
    var r := DaysFrom(start, n);
    if n > 0 then
      DayNumberInjective(r[n - 1], end);
      r
    else
      r
  }

  /** A valid date lies in the range exactly when it lies between its ends. */
  lemma DayRangeMembers(start: Date, end: Date, d: Date)
    requires ValidDate(start) && ValidDate(end) && ValidDate(d)
    ensures d in DayRange(start, end) <==> NotAfter(start, d) && NotAfter(d, end)
  {
    var r := DayRange(start, end);
    BeforeIsDayNumberOrder(start, d);
    BeforeIsDayNumberOrder(d, end);
    if DayNumber(start) <= DayNumber(d) <= DayNumber(end) {
      var i := DayNumber(d) - DayNumber(start);
      DayNumberInjective(r[i], d);
    }
  }

  /** Every day of year `y`, 1 January to 31 December. */
  function YearDays(y: int): (r: seq<Date>)
    requires y >= 1
    ensures |r| == DaysInYear(y)
    ensures forall i :: 0 <= i < |r| ==> ValidDate(r[i]) && r[i].year == y && DayOfYear(r[i]) == i + 1
  {
    var r := DayRange(Date(y, 1, 1), Date(y, 12, 31));
    MonthStep(y, 12);
    assert forall i :: 0 <= i < |r| ==> r[i].year == y by {
      forall i | 0 <= i < |r| ensures r[i].year == y {
        YearOfDayNumber(r[i], y);
      }
    }
    r
  }

  /** Months counted from January of year 0: the month of `d`. */
  function MonthIndex(d: Date): int {
    d.year * 12 + d.month - 1
  }

  /** The first day of month number `i`. */
  function MonthStart(i: int): (d: Date)
    requires i >= 12
    ensures ValidDate(d) && d.day == 1 && MonthIndex(d) == i
  {
    Date(i / 12, i % 12 + 1, 1)
  }

  /** A date's month number determines its year and month. */
  lemma MonthIndexDecides(a: Date, b: Date)
    requires 1 <= a.month <= 12 && 1 <= b.month <= 12
    ensures MonthIndex(a) == MonthIndex(b) <==> a.year == b.year && a.month == b.month
    ensures MonthIndex(a) < MonthIndex(b) <==> a.year < b.year || (a.year == b.year && a.month < b.month)
  {
  }

  /** The first days of months `a` to `b`, in order. */
  function MonthsFrom(a: int, b: int): (r: seq<Date>)
    requires a >= 12
    ensures |r| == if a <= b then b - a + 1 else 0
    ensures forall i :: 0 <= i < |r| ==> r[i] == MonthStart(a + i)
    decreases b - a
  {
    if a > b then [] else [MonthStart(a)] + MonthsFrom(a + 1, b)
  }

  /** `pd.date_range(start, end, freq='MS')`: the first day of every month
      that lies between `start` and `end`; a start after the first of its
      month begins with the next month. */
  function MonthStarts(start: Date, end: Date): seq<Date>
    requires ValidDate(start) && ValidDate(end)
  {
    MonthsFrom(if start.day == 1 then MonthIndex(start) else MonthIndex(start) + 1, MonthIndex(end))
  }

  /** A date is in the range exactly when it is the first of a month and
      lies between the ends. */
  lemma MonthStartsMembers(start: Date, end: Date, d: Date)
    requires ValidDate(start) && ValidDate(end)
    ensures d in MonthStarts(start, end) <==> ValidDate(d) && d.day == 1 && NotAfter(start, d) && NotAfter(d, end)
  {
    var a := if start.day == 1 then MonthIndex(start) else MonthIndex(start) + 1;
    var r := MonthStarts(start, end);
    if d in r {
      var i :| 0 <= i < |r| && r[i] == d;
      MonthIndexDecides(start, d);
      MonthIndexDecides(d, end);
    }
    if ValidDate(d) && d.day == 1 && NotAfter(start, d) && NotAfter(d, end) {
      MonthIndexDecides(start, d);
      MonthIndexDecides(d, end);
      var i := MonthIndex(d) - a;
      MonthIndexDecides(r[i], d);
    }
  }

  /** The month starts come in strictly increasing order. */
  lemma MonthStartsIncrease(start: Date, end: Date, i: int, j: int)
    requires ValidDate(start) && ValidDate(end)
    requires 0 <= i < j < |MonthStarts(start, end)|
    ensures Before(MonthStarts(start, end)[i], MonthStarts(start, end)[j])
  {
    var r := MonthStarts(start, end);
    MonthIndexDecides(r[i], r[j]);
  }
}
