/** Dates and clock times as the scraper writes and reads them: the
    `'%Y-%m-%d'` form of `strftime`/`strptime`, the `'%s%02d'` period of the
    real-time query, the `'%s_%02d'` month key used to find the majority
    month, and the `'%H:%M'` hour cells of automatic stations. */
module DateText {
  import opened Wrappers
  import opened Text
  import opened Calendar

  /** `strftime('%Y-%m-%d')`. The year is written without padding, as the C
      library does for years below 1000; month and day take two digits. */
  function FormatIsoDate(d: Date): (s: string)
    requires ValidDate(d)
    ensures 1000 <= d.year <= 9999 ==> |s| == 10 && s[4] == '-' && s[7] == '-'
  {
    NatToStringFourDigits(d.year);
    NatToString(d.year) + "-" + Pad2(d.month) + "-" + Pad2(d.day)
  }

  /** A run of one or two decimal digits. */
  predicate ShortNumber(s: string) {
    1 <= |s| <= 2 && AllDigits(s)
  }

  /** The `%d` field of `strptime`: one or two digits, or a space followed
      by a digit from 1 to 9 (` 5` is the 5th). */
  function DayField(s: string): (r: Option<nat>)
    ensures r.Some? ==> r.value <= 99
  {
    if ShortNumber(s) then
      DigitsBound(s);
      Some(DigitsValue(s))
    else if |s| == 2 && s[0] == ' ' && '1' <= s[1] <= '9' then Some(DigitValue(s[1]))
    else None
  }

  /** `datetime.strptime(s, '%Y-%m-%d')`: exactly four year digits, a month
      of one or two digits, a day field, and a date that exists (`datetime`
      refuses year 0 and days past the end of the month). */
  function ParseIsoDate(s: string): (r: Option<Date>)
    ensures r.Some? ==> ValidDate(r.value) && 0 <= r.value.year <= 9999
  {
    var parts := Split(s, '-');
    if |parts| != 3 || !(|parts[0]| == 4 && AllDigits(parts[0])) then None
    else if !ShortNumber(parts[1]) || DayField(parts[2]).None? then None
    else
      DigitsBound(parts[0]);
      var y, m, d := DigitsValue(parts[0]), DigitsValue(parts[1]), DayField(parts[2]).value;
      if y >= 1 && 1 <= m <= 12 && 1 <= d <= DaysInMonth(y, m) then Some(Date(y, m, d)) else None
  }

  /** A day written as a space and a digit reads as the same day written
      with a leading zero. */
  lemma SpacePaddedDay(ys: string, ms: string, c: char)
    requires '-' !in ys && '-' !in ms && '1' <= c <= '9'
    ensures ParseIsoDate(ys + "-" + ms + "- " + [c]) == ParseIsoDate(ys + "-" + ms + "-0" + [c])
  {
    var spaced, padded := [' ', c], ['0', c];
    SplitDate(ys, ms, spaced);
    SplitDate(ys, ms, padded);
    assert ys + "-" + ms + "- " + [c] == ys + "-" + ms + "-" + spaced;
    assert ys + "-" + ms + "-0" + [c] == ys + "-" + ms + "-" + padded;
    assert !IsDigit(spaced[0]);
    assert IsDigit(padded[0]) && IsDigit(padded[1]);
    assert DigitsValue(padded) == DigitValue(c) by {
      var zero := padded[..1];
      assert zero[..0] == [];
      assert DigitsValue(zero) == 0;
    }
  }

  lemma SplitDate(ys: string, ms: string, ds: string)
    requires '-' !in ys && '-' !in ms && '-' !in ds
    ensures Split(ys + "-" + ms + "-" + ds, '-') == [ys, ms, ds]
  {
    var tail := ms + ['-'] + ds;
    SplitNoSeparator(ds, '-');
    SplitSeparated(ms, ds, '-');
    assert Split(tail, '-') == [ms, ds];
    SplitSeparated(ys, tail, '-');
    assert ys + "-" + ms + "-" + ds == ys + ['-'] + tail;
  }

  /** The space-padded example: ` 5` is the 5th of March. */
  lemma SpacePaddedExample()
    ensures ParseIsoDate("2019-03- 5") == Some(Date(2019, 3, 5))
  {
    var ys, ms, ds := "2019", "03", " 5";
    SplitDate(ys, ms, ds);
    assert "2019-03- 5" == ys + "-" + ms + "-" + ds;
    ExampleFields();
    assert DaysInMonth(2019, 3) == 31;
  }

  lemma ExampleFields()
    ensures AllDigits("2019") && DigitsValue("2019") == 2019
    ensures ShortNumber("03") && DigitsValue("03") == 3
    ensures DayField(" 5") == Some(5)
  {
    var ys, ms, ds := "2019", "03", " 5";
    var a, b, c := ys[..1], ys[..2], ys[..3];
    assert a[..0] == [] && b[..1] == a && c[..2] == b && ys[..3] == c;
    assert DigitsValue(a) == 2;
    assert DigitsValue(b) == 20;
    assert DigitsValue(c) == 201;
    assert ms[..1] == "0" && ms[..1][..0] == [];
    assert !IsDigit(ds[0]);
  }

  lemma {:induction false} DigitsBound(s: string)
    requires AllDigits(s) && |s| <= 4
    ensures DigitsValue(s) <= 9999
    ensures |s| <= 3 ==> DigitsValue(s) <= 999
    ensures |s| <= 2 ==> DigitsValue(s) <= 99
    ensures |s| <= 1 ==> DigitsValue(s) <= 9
    decreases |s|
  {
    if |s| > 0 {
      DigitsBound(s[..|s| - 1]);
    }
  }

  lemma NatToStringFourDigits(n: nat)
    ensures 1000 <= n <= 9999 ==> |NatToString(n)| == 4
  {
    if 1000 <= n <= 9999 {
      assert |NatToString(n / 1000)| == 1;
      assert NatToString(n / 100) == NatToString(n / 1000) + [DigitChar(n / 100 % 10)];
      assert NatToString(n / 10) == NatToString(n / 100) + [DigitChar(n / 10 % 10)];
    }
  }

  /** `int` reads back a number that `'%02d'` wrote. */
  lemma Pad2Value(n: nat)
    ensures DigitsValue(Pad2(n)) == n
  {
    if n < 10 {
      var s := Pad2(n);
      assert s[..1] == ['0'];
      assert DigitsValue(['0']) == 0 by {
        assert ['0'][..0] == [];
      }
    } else {
      NatToStringValue(n);
    }
  }

  lemma DigitsHaveNoSeparator(s: string, c: char)
    requires AllDigits(s) && !IsDigit(c)
    ensures c !in s
  {
  }

  /** `strptime` reads back every date `strftime` writes with a four-digit
      year. */
  lemma IsoDateRoundTrip(d: Date)
    requires ValidDate(d) && 1000 <= d.year <= 9999
    ensures ParseIsoDate(FormatIsoDate(d)) == Some(d)
  {
    var ys, ms, ds := NatToString(d.year), Pad2(d.month), Pad2(d.day);
    NatToStringFourDigits(d.year);
    DigitsHaveNoSeparator(ys, '-');
    DigitsHaveNoSeparator(ms, '-');
    DigitsHaveNoSeparator(ds, '-');
    SplitNoSeparator(ds, '-');
    SplitSeparated(ms, ds, '-');
    assert ys + "-" + ms + "-" + ds == ys + ['-'] + (ms + ['-'] + ds);
    SplitSeparated(ys, ms + ['-'] + ds, '-');
    assert Split(FormatIsoDate(d), '-') == [ys, ms, ds];
    NatToStringValue(d.year);
    Pad2Value(d.month);
    Pad2Value(d.day);
  }

  /** `'%s%02d' % (year, month)`: the `CBOFiltro` period of the data page. */
  function PeriodToken(year: nat, month: nat): (s: string)
    requires 1 <= month <= 12
    ensures 1000 <= year <= 9999 ==> |s| == 6 && AllDigits(s)
  {
    NatToStringFourDigits(year);
    NatToString(year) + Pad2(month)
  }

  /** Reads a six-digit period back as (year, month). */
  function ParsePeriod(s: string): Option<(nat, nat)> {
    if |s| == 6 && AllDigits(s) then Some((DigitsValue(s[..4]), DigitsValue(s[4..]))) else None
  }

  /** Distinct months of four-digit years get distinct periods: the period
      determines the month it names. */
  lemma PeriodRoundTrip(year: nat, month: nat)
    requires 1000 <= year <= 9999 && 1 <= month <= 12
    ensures ParsePeriod(PeriodToken(year, month)) == Some((year, month))
  {
    var s := PeriodToken(year, month);
    NatToStringFourDigits(year);
    assert s[..4] == NatToString(year);
    assert s[4..] == Pad2(month);
    NatToStringValue(year);
    Pad2Value(month);
  }

  /** `'%s_%02d' % (x.year, x.month)`: the key the majority month is chosen by. */
  function MonthKey(year: nat, month: nat): (s: string)
    ensures '_' in s
  {
    NatToString(year) + "_" + Pad2(month)
  }

  /** `year, month = map(int, key.split('_'))`: unpacking wants exactly two
      pieces, and each must be an integer literal. */
  function ParseMonthKey(key: string): Result<(int, int)> {
    var parts := Split(key, '_');
    if |parts| != 2 then Err(UnparsableValue)
    else match (ParseInt(parts[0]), ParseInt(parts[1]))
      case (Some(y), Some(m)) => Ok((y, m))
      case _ => Err(UnparsableValue)
  }

  /** Splitting the key and converting its halves gives the month back. */
  lemma MonthKeyRoundTrip(year: nat, month: nat)
    ensures ParseMonthKey(MonthKey(year, month)) == Ok((year, month))
  {
    var ys, ms := NatToString(year), Pad2(month);
    DigitsHaveNoSeparator(ys, '_');
    DigitsHaveNoSeparator(ms, '_');
    SplitNoSeparator(ms, '_');
    SplitSeparated(ys, ms, '_');
    ParseIntOfNatToString(year);
    Pad2Value(month);
    assert StripSpaces(ms) == ms by {
      assert IsDigit(ms[0]) && IsDigit(ms[|ms| - 1]);
    }
  }

  /** Distinct months get distinct keys. */
  lemma MonthKeyInjective(y1: nat, m1: nat, y2: nat, m2: nat)
    requires MonthKey(y1, m1) == MonthKey(y2, m2)
    ensures y1 == y2 && m1 == m2
  {
    MonthKeyRoundTrip(y1, m1);
    MonthKeyRoundTrip(y2, m2);
  }

  /** An `HH:MM` hour cell as minutes after midnight; `pd.to_datetime`
      refuses an hour past 23 or a minute past 59. */
  function ParseClock(s: string): (r: Option<nat>)
    ensures r.Some? ==> r.value < 24 * 60
  {
    var parts := Split(s, ':');
    if |parts| != 2 || !ShortNumber(parts[0]) || !ShortNumber(parts[1]) then None
    else
      var h, m := DigitsValue(parts[0]), DigitsValue(parts[1]);
      if h < 24 && m < 60 then Some(h * 60 + m) else None
  }

  /** `strftime('%H:%M:%S')` of a whole-minute time of day. */
  function ClockText(minute: nat): (s: string)
    requires minute < 24 * 60
    ensures |s| == 8 && s[2] == ':' && s[5] == ':'
  {
    Pad2(minute / 60) + ":" + Pad2(minute % 60) + ":00"
  }

  /** The hour cell the station page writes for a time of day is read back
      as that time. */
  lemma ClockRoundTrip(minute: nat)
    requires minute < 24 * 60
    ensures ParseClock(Pad2(minute / 60) + ":" + Pad2(minute % 60)) == Some(minute)
  {
    var hs, ms := Pad2(minute / 60), Pad2(minute % 60);
    DigitsHaveNoSeparator(hs, ':');
    DigitsHaveNoSeparator(ms, ':');
    SplitNoSeparator(ms, ':');
    SplitSeparated(hs, ms, ':');
    Pad2Value(minute / 60);
    Pad2Value(minute % 60);
  }
}
