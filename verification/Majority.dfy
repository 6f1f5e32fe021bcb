/** The month `complete_monthly_data` completes: the most frequent
    `'%s_%02d' % (year, month)` key among the rows (`Series.mode()[0]`, which
    breaks ties by taking the smallest key in string order). */
module Majority {
  import opened Wrappers
  import opened Text
  import opened Calendar
  import opened DateText

  /** Python's string order: a prefix comes first, otherwise the first
      differing character decides. */
  predicate LexLeq(a: string, b: string)
    decreases |a|
  {
    |a| == 0 || (|b| > 0 && (a[0] < b[0] || (a[0] == b[0] && LexLeq(a[1..], b[1..]))))
  }

  lemma {:induction false} LexLeqTotal(a: string, b: string)
    ensures LexLeq(a, b) || LexLeq(b, a)
    decreases |a|
  {
    if |a| > 0 && |b| > 0 && a[0] == b[0] {
      LexLeqTotal(a[1..], b[1..]);
    }
  }

  lemma {:induction false} LexLeqTransitive(a: string, b: string, c: string)
    requires LexLeq(a, b) && LexLeq(b, c)
    ensures LexLeq(a, c)
    decreases |a|
  {
    if |a| > 0 && a[0] == b[0] && b[0] == c[0] {
      LexLeqTransitive(a[1..], b[1..], c[1..]);
    }
  }

  lemma {:induction false} LexLeqAntisymmetric(a: string, b: string)
    requires LexLeq(a, b) && LexLeq(b, a)
    ensures a == b
    decreases |a|
  {
    if |a| > 0 {
      LexLeqAntisymmetric(a[1..], b[1..]);
      assert a == [a[0]] + a[1..] && b == [b[0]] + b[1..];
    }
  }

  /** How many times `k` occurs. */
  function Count(keys: seq<string>, k: string): nat {
    multiset(keys)[k]
  }

  /** `k` is a mode of `keys` that no other mode precedes. */
  predicate IsFirstMode(keys: seq<string>, k: string) {
    k in keys
    && (forall c :: c in keys ==> Count(keys, c) <= Count(keys, k))
    && (forall c :: c in keys && Count(keys, c) == Count(keys, k) ==> LexLeq(k, c))
  }

  /** The best of the candidates `cands`: more occurrences in `keys` win,
      and among equally frequent ones the smaller string. */
  function Best(cands: seq<string>, keys: seq<string>): (r: string)
    requires |cands| > 0
    ensures r in cands
    ensures forall c :: c in cands ==> Count(keys, c) <= Count(keys, r)
    ensures forall c :: c in cands && Count(keys, c) == Count(keys, r) ==> LexLeq(r, c)
    decreases |cands|
  {
    if |cands| == 1 then
      LexLeqTotal(cands[0], cands[0]);
      cands[0]
    else
      var rest := Best(cands[1..], keys);
      var c0 := cands[0];
      assert forall c :: c in cands ==> c == c0 || c in cands[1..];
      LexLeqTotal(c0, rest);
      if Count(keys, c0) > Count(keys, rest)
         || (Count(keys, c0) == Count(keys, rest) && LexLeq(c0, rest)) then
        forall c | c in cands[1..] && Count(keys, c) == Count(keys, c0)
          ensures LexLeq(c0, c)
        {
          LexLeqTransitive(c0, rest, c);
        }
        LexLeqTotal(c0, c0);
        c0
      else
        rest
  }

  /** `Series.mode()[0]`; an empty series has no mode, and indexing it
      raises. */
  function Mode(keys: seq<string>): (r: Result<string>)
    ensures r.Err? <==> |keys| == 0
    ensures r.Err? ==> r.error == EmptyData
    ensures r.Ok? ==> IsFirstMode(keys, r.value)
  {
    if |keys| == 0 then Err(EmptyData) else Ok(Best(keys, keys))
  }

  /** At most one key is the first mode, so the result does not depend on
      the order of the rows. */
  lemma FirstModeUnique(keys: seq<string>, a: string, b: string)
    requires IsFirstMode(keys, a) && IsFirstMode(keys, b)
    ensures a == b
  {
    LexLeqAntisymmetric(a, b);
  }

  /** The month keys of a column of dates. */
  function MonthKeys(dates: seq<Date>): (r: seq<string>)
    requires forall i :: 0 <= i < |dates| ==> ValidDate(dates[i])
    ensures |r| == |dates|
    ensures forall i :: 0 <= i < |dates| ==> ValidDate(dates[i]) && r[i] == MonthKey(dates[i].year, dates[i].month)
  {
    seq(|dates|, i requires 0 <= i < |dates| => assert ValidDate(dates[i]); MonthKey(dates[i].year, dates[i].month))
  }

  /** How many of the dates fall in month `m` of year `y`. */
  function MonthCount(dates: seq<Date>, y: int, m: int): nat
    decreases |dates|
  {
    if |dates| == 0 then 0
    else (if dates[0].year == y && dates[0].month == m then 1 else 0) + MonthCount(dates[1..], y, m)
  }

  /** A key counts the dates of its month: distinct months have distinct
      keys. */
  lemma {:induction false} MonthCountIsKeyCount(dates: seq<Date>, y: nat, m: nat)
    requires forall i :: 0 <= i < |dates| ==> ValidDate(dates[i])
    ensures Count(MonthKeys(dates), MonthKey(y, m)) == MonthCount(dates, y, m)
    decreases |dates|
  {
    if |dates| > 0 {
      var tail := dates[1..];
      MonthKeysCons(dates);
      MonthCountIsKeyCount(tail, y, m);
      CountCons(MonthKey(dates[0].year, dates[0].month), MonthKeys(tail), MonthKey(y, m));
      MonthKeyMatches(dates[0], y, m);
    }
  }

  lemma MonthKeysCons(dates: seq<Date>)
    requires |dates| > 0 && forall i :: 0 <= i < |dates| ==> ValidDate(dates[i])
    ensures forall i :: 0 <= i < |dates[1..]| ==> ValidDate(dates[1..][i])
    ensures MonthKeys(dates) == [MonthKey(dates[0].year, dates[0].month)] + MonthKeys(dates[1..])
  {
    var tail := dates[1..];
    assert forall i :: 0 <= i < |tail| ==> tail[i] == dates[i + 1];
  }

  lemma CountCons(k: string, rest: seq<string>, key: string)
    ensures Count([k] + rest, key) == (if k == key then 1 else 0) + Count(rest, key)
  {
    assert multiset([k] + rest) == multiset{k} + multiset(rest);
  }

  lemma MonthKeyMatches(d: Date, y: nat, m: nat)
    requires ValidDate(d)
    ensures MonthKey(d.year, d.month) == MonthKey(y, m) <==> d.year == y && d.month == m
  {
    if MonthKey(d.year, d.month) == MonthKey(y, m) {
      MonthKeyInjective(d.year, d.month, y, m);
    }
  }

  /** `year, month = map(int, mode.split('_'))`: the month most of the dates
      fall in, the earliest one on a tie (four-digit years order their keys
      as they order the months). */
  function MajorityMonth(dates: seq<Date>): (r: Result<(int, int)>)
    requires forall i :: 0 <= i < |dates| ==> ValidDate(dates[i])
    ensures r.Err? <==> |dates| == 0
    ensures r.Err? ==> r.error == EmptyData
    ensures r.Ok? ==> exists i :: 0 <= i < |dates| && r.value == (dates[i].year, dates[i].month)
    ensures r.Ok? ==> 1 <= r.value.0 && 1 <= r.value.1 <= 12
  {
    var keys := MonthKeys(dates);
    var key :- Mode(keys);
    var i :| 0 <= i < |keys| && keys[i] == key;
    assert ValidDate(dates[i]);
    MonthKeyRoundTrip(dates[i].year, dates[i].month);
    ParseMonthKey(key)
  }

  /** The chosen month has at least as many rows as any other month. */
  lemma MajorityMonthIsMostFrequent(dates: seq<Date>, j: int)
    requires forall i :: 0 <= i < |dates| ==> ValidDate(dates[i])
    requires 0 <= j < |dates|
    ensures MajorityMonth(dates).Ok?
    ensures var (y, m) := MajorityMonth(dates).value;
            MonthCount(dates, dates[j].year, dates[j].month) <= MonthCount(dates, y, m)
  {
    var keys := MonthKeys(dates);
    var key := Mode(keys).value;
    var i :| 0 <= i < |keys| && keys[i] == key;
    assert ValidDate(dates[i]) && ValidDate(dates[j]);
    MonthKeyRoundTrip(dates[i].year, dates[i].month);
    var (y, m) := MajorityMonth(dates).value;
    assert (y, m) == (dates[i].year, dates[i].month);
    assert keys[j] in keys;
    MonthCountIsKeyCount(dates, y, m);
    MonthCountIsKeyCount(dates, dates[j].year, dates[j].month);
  }
}
