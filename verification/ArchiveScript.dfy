/** The chart script of the historic archive page, as both archive scrapers
    read it: the second `text/javascript` script is cleaned, cut into its
    bracketed segments, and the years and the three daily series are read
    from them. */
module ArchiveScript {
  import opened Wrappers
  import opened Text

  // ---------------------------------------------------------------------
  // Cleaning
  // ---------------------------------------------------------------------

  /** `.replace('\n', '').replace('\r', '').replace('\t', '')`. */
  function Unbroken(s: string): (r: string)
    ensures '\n' !in r && '\r' !in r && '\t' !in r
    ensures forall x :: x != '\n' && x != '\r' && x != '\t' ==> (x in r <==> x in s)
  {
    RemoveChar(RemoveChar(RemoveChar(s, '\n'), '\r'), '\t')
  }

  /** The removals work character by character, so they split over a
      concatenation. */
  lemma UnbrokenConcat(a: string, b: string)
    ensures Unbroken(a + b) == Unbroken(a) + Unbroken(b)
  {
    RemoveCharConcat(a, b, '\n');
    RemoveCharConcat(RemoveChar(a, '\n'), RemoveChar(b, '\n'), '\r');
    RemoveCharConcat(RemoveChar(RemoveChar(a, '\n'), '\r'), RemoveChar(RemoveChar(b, '\n'), '\r'), '\t');
  }

  /** A text free of line breaks and tabs is left as it is. */
  lemma UnbrokenAbsent(s: string)
    requires '\n' !in s && '\r' !in s && '\t' !in s
    ensures Unbroken(s) == s
  {
    RemoveCharAbsent(s, '\n');
    RemoveCharAbsent(s, '\r');
    RemoveCharAbsent(s, '\t');
  }

  /** `.replace('\n', '').replace('\r', '').replace('\t', '').replace('null', 'None')`. */
  function CleanScript(s: string): (r: string)
    ensures '\n' !in r && '\r' !in r && '\t' !in r
    ensures !Contains(r, "null")
    ensures '\n' !in s && '\r' !in s && '\t' !in s && !Contains(s, "null") ==> r == s
  {
    var t := Unbroken(s);
    ReplaceKeepsOut(t, '\n');
    ReplaceKeepsOut(t, '\r');
    ReplaceKeepsOut(t, '\t');
    NoNullLeft(t);
    assert '\n' !in s && '\r' !in s && '\t' !in s && !Contains(s, "null") ==> ReplaceAll(t, "null", "None") == s by {
      if '\n' !in s && '\r' !in s && '\t' !in s && !Contains(s, "null") {
        UnbrokenAbsent(s);
        ReplaceAbsent(s);
      }
    }
    ReplaceAll(t, "null", "None")
  }

  /** Without a `null` in it the replacement leaves the text as it is. */
  lemma {:induction false} ReplaceAbsent(s: string)
    requires !Contains(s, "null")
    ensures ReplaceAll(s, "null", "None") == s
    decreases |s|
  {
    if |s| > 0 {
      assert !OccursAt(s, "null", 0);
      assert !Contains(s[1..], "null") by {
        forall j | 0 <= j <= |s[1..]| ensures !OccursAt(s[1..], "null", j) {
          if j + 4 <= |s[1..]| {
            assert s[1..][j..j + 4] == s[j + 1..j + 5];
            assert !OccursAt(s, "null", j + 1);
          }
        }
      }
      ReplaceAbsent(s[1..]);
      assert s == [s[0]] + s[1..];
    }
  }

  /** The cleaning drops a line break or a tab wherever it stands. */
  lemma CleanDropsBreak(a: string, c: char, b: string)
    requires c == '\n' || c == '\r' || c == '\t'
    ensures CleanScript(a + [c] + b) == CleanScript(a + b)
  {
    UnbrokenConcat(a + [c], b);
    UnbrokenConcat(a, [c]);
    UnbrokenConcat(a, b);
    assert Unbroken([c]) == "";
    assert Unbroken(a + [c]) + Unbroken(b) == Unbroken(a) + Unbroken(b);
  }

  /** A `null` becomes `None`: a text that starts with `null` is cleaned to
      `None` followed by the cleaning of the rest. */
  lemma CleanRewritesNull(b: string)
    ensures CleanScript("null" + b) == "None" + CleanScript(b)
  {
    UnbrokenConcat("null", b);
    UnbrokenAbsent("null");
    var t := Unbroken(b);
    assert ("null" + t)[..4] == "null" && ("null" + t)[4..] == t;
  }

  /** A character in neither the text nor `None` is not in the result. */
  lemma {:induction false} ReplaceKeepsOut(s: string, c: char)
    requires c !in s && c !in "None"
    ensures c !in ReplaceAll(s, "null", "None")
    decreases |s|
  {
    if |s| > 0 {
      if 4 <= |s| && s[..4] == "null" {
        ReplaceKeepsOut(s[4..], c);
      } else {
        ReplaceKeepsOut(s[1..], c);
      }
    }
  }

  /** What the replacement writes starting with a text free of `N` was there
      before: `None` is the only text it inserts, and it starts with `N`. */
  lemma {:induction false} ReplacedPrefix(s: string, p: string)
    requires 'N' !in p
    requires |p| <= |ReplaceAll(s, "null", "None")| && ReplaceAll(s, "null", "None")[..|p|] == p
    ensures |p| <= |s| && s[..|p|] == p
    decreases |p|
  {
    if |p| > 0 {
      var r := ReplaceAll(s, "null", "None");
      assert r[0] == p[0] && p[0] != 'N';
      if 4 <= |s| && s[..4] == "null" {
        assert false;
      }
      assert r == [s[0]] + ReplaceAll(s[1..], "null", "None");
      assert r[1..][..|p| - 1] == p[1..];
      ReplacedPrefix(s[1..], p[1..]);
      assert s[..|p|] == [s[0]] + s[1..][..|p| - 1];
    }
  }

  /** No `null` survives the replacement. */
  lemma {:induction false} NoNullLeft(s: string)
    ensures !Contains(ReplaceAll(s, "null", "None"), "null")
    decreases |s|
  {
    if |s| > 0 {
      if 4 <= |s| && s[..4] == "null" {
        NoNullLeft(s[4..]);
        NoNullAfterNone(ReplaceAll(s[4..], "null", "None"));
      } else {
        var rest := ReplaceAll(s[1..], "null", "None");
        NoNullLeft(s[1..]);
        if |rest| >= 3 && rest[..3] == "ull" {
          ReplacedPrefix(s[1..], "ull");
          assert s[..4] == [s[0]] + "ull";
        }
        NoNullAfterChar(s[0], rest);
      }
    }
  }

  /** `None` in front of a text free of `null` does not make one. */
  lemma NoNullAfterNone(rest: string)
    requires !Contains(rest, "null")
    ensures !Contains("None" + rest, "null")
  {
    var r := "None" + rest;
    forall j | 0 <= j <= |r| ensures !OccursAt(r, "null", j) {
      if j < 4 && j + 4 <= |r| {
        assert r[j..j + 4][0] == "None"[j];
        assert r[j..j + 4][1] == r[j + 1];
      }
      if 4 <= j && j + 4 <= |r| {
        assert rest[j - 4..j] == r[j..j + 4];
        assert !OccursAt(rest, "null", j - 4);
      }
    }
  }

  /** One character in front of a text free of `null` makes one only if it
      is `n` and the text starts with `ull`. */
  lemma NoNullAfterChar(c: char, rest: string)
    requires !Contains(rest, "null")
    requires |rest| >= 3 && rest[..3] == "ull" ==> c != 'n'
    ensures !Contains([c] + rest, "null")
  {
    var r := [c] + rest;
    forall j | 0 <= j <= |r| ensures !OccursAt(r, "null", j) {
      if j == 0 && 4 <= |r| {
        assert r[0..4][0] == c && r[0..4][1..] == rest[..3];
        assert "null"[0] == 'n' && "null"[1..] == "ull";
      }
      if 1 <= j && j + 4 <= |r| {
        assert rest[j - 1..j + 3] == r[j..j + 4];
        assert !OccursAt(rest, "null", j - 1);
      }
    }
  }

  // ---------------------------------------------------------------------
  // Bracketed segments
  // ---------------------------------------------------------------------

  /** One match of `\[.*?]`: an opening bracket, then everything up to the
      first closing bracket. */
  predicate IsSegment(z: string) {
    |z| >= 2 && z[0] == '[' && z[|z| - 1] == ']' && ']' !in z[..|z| - 1]
  }

  /** `re.findall("\[.*?]", s)`: the shortest bracketed spans, left to
      right. */
  function BracketSegments(s: string): (r: seq<string>)
    ensures forall k :: 0 <= k < |r| ==> IsSegment(r[k])
    decreases |s|
  {
    match IndexOfChar(s, '[', 0)
    case None => []
    case Some(i) =>
      match IndexOfChar(s, ']', i + 1)
      case None => []
      case Some(j) =>
        var z := s[i..j + 1];
        assert z[..|z| - 1] == s[i..j];
        [z] + BracketSegments(s[j + 1..])
  }

  /** A text without an opening bracket has no segment. */
  lemma NoSegments(g: string)
    requires '[' !in g
    ensures BracketSegments(g) == []
  {
    assert IndexOfChar(g, '[', 0).None?;
  }

  /** The segments of a text laid out as a gap free of `[`, a bracketed body
      free of `]`, and the rest: that bracketed body, then the rest's
      segments. */
  lemma SegmentsStep(g: string, b: string, rest: string)
    requires '[' !in g && ']' !in b
    ensures BracketSegments(g + "[" + b + "]" + rest) == ["[" + b + "]"] + BracketSegments(rest)
  {
    var s := g + "[" + b + "]" + rest;
    var i := |g|;
    var j := |g| + 1 + |b|;
    assert s[i] == '[' && s[j] == ']';
    assert forall k :: 0 <= k < i ==> s[k] == g[k];
    assert forall k :: i + 1 <= k < j ==> s[k] == b[k - i - 1];
    assert IndexOfChar(s, '[', 0) == Some(i);
    assert IndexOfChar(s, ']', i + 1) == Some(j);
    assert s[i..j + 1] == "[" + b + "]";
    assert s[j + 1..] == rest;
  }

  /** `[z for z in highcharts_header if len(z) > 100]`. */
  function LongSegments(segs: seq<string>): (r: seq<string>)
    ensures forall z :: z in r <==> z in segs && |z| > 100
    ensures |r| <= |segs|
    decreases |segs|
  {
    if |segs| == 0 then []
    else
      var rest := LongSegments(segs[1..]);
      assert forall z :: z in segs <==> z == segs[0] || z in segs[1..];
      if |segs[0]| > 100 then [segs[0]] + rest else rest
  }

  /** The filter keeps the order of the segments: filtering two runs of
      segments one after the other is filtering each. */
  lemma {:induction false} LongSegmentsConcat(a: seq<string>, b: seq<string>)
    ensures LongSegments(a + b) == LongSegments(a) + LongSegments(b)
    decreases |a|
  {
    if |a| > 0 {
      assert (a + b)[0] == a[0] && (a + b)[1..] == a[1..] + b;
      LongSegmentsConcat(a[1..], b);
      var head := if |a[0]| > 100 then [a[0]] else [];
      assert LongSegments(a) == head + LongSegments(a[1..]);
      assert LongSegments(a + b) == head + LongSegments(a[1..] + b);
      assert head + (LongSegments(a[1..]) + LongSegments(b)) == head + LongSegments(a[1..]) + LongSegments(b);
    } else {
      assert a + b == b;
    }
  }

  /** `re.findall("(head.*?])", s)[0]` for a `head` ending in `[`: the
      leftmost position where `head` stands with a `]` after it, from there
      to that first `]`. `None` stands for the empty match list, which `[0]`
      cannot index. */
  function FirstMatch(s: string, head: string): (r: Option<string>)
    ensures r.Some? ==> |r.value| > |head| && r.value[..|head|] == head && r.value[|r.value| - 1] == ']'
    ensures r.Some? ==> ']' !in r.value[|head|..|r.value| - 1]
    decreases |s|
  {
    if |head| <= |s| && s[..|head|] == head then
      match IndexOfChar(s, ']', |head|)
      case None => None
      case Some(j) =>
        MatchShape(s, head, 0, j);
        Some(s[0..j + 1])
    else if |s| == 0 then None
    else FirstMatch(s[1..], head)
  }

  /** Where the match stands: there is one if and only if `head` occurs and
      a `]` follows its first occurrence, and it is the text of `s` from
      that first occurrence on. */
  predicate MatchIsFirst(s: string, head: string) {
    (FirstMatch(s, head).Some? <==> IndexOf(s, head).Some? && ']' in s[IndexOf(s, head).value + |head|..])
    && (FirstMatch(s, head).Some? ==>
          var i, m := IndexOf(s, head).value, FirstMatch(s, head).value;
          i + |m| <= |s| && m == s[i..i + |m|])
  }

  /** The match is found at the first occurrence of `head`, wherever it is. */
  lemma {:induction false} FirstMatchIsFirst(s: string, head: string)
    ensures MatchIsFirst(s, head)
    decreases |s|
  {
    if |head| <= |s| && s[..|head|] == head {
      MatchHere(s, head);
    } else if |s| > 0 {
      FirstMatchIsFirst(s[1..], head);
      MatchShift(s, head);
    } else {
      assert IndexOf(s, head).None? && FirstMatch(s, head).None?;
    }
  }

  lemma MatchHere(s: string, head: string)
    requires |head| <= |s| && s[..|head|] == head
    ensures MatchIsFirst(s, head)
  {
    assert IndexOf(s, head) == Some(0);
    match IndexOfChar(s, ']', |head|)
    case None =>
      CloseAbsent(s, |head|);
    case Some(j) =>
      CloseFound(s, |head|, j);
      assert FirstMatch(s, head) == Some(s[0..j + 1]);
  }

  lemma MatchShift(s: string, head: string)
    requires |s| > 0 && !(|head| <= |s| && s[..|head|] == head)
    requires MatchIsFirst(s[1..], head)
    ensures MatchIsFirst(s, head)
  {
    var r := FirstMatch(s, head);
    assert r == FirstMatch(s[1..], head);
    IndexOfShift(s, head);
    match IndexOf(s[1..], head)
    case None =>
      assert IndexOf(s, head).None? && r.None?;
    case Some(k) =>
      assert IndexOf(s, head) == Some(k + 1);
      SuffixShift(s, k + |head|);
      if r.Some? {
        SliceShift(s, k, |r.value|);
      }
  }

  lemma SuffixShift(s: string, n: nat)
    requires 0 < |s| && n <= |s| - 1
    ensures s[1..][n..] == s[n + 1..]
  {
  }

  lemma SliceShift(s: string, k: nat, n: nat)
    requires 0 < |s| && k + n <= |s| - 1
    ensures s[1..][k..k + n] == s[k + 1..k + 1 + n]
  {
  }

  /** Past a position where `pat` does not start, the search goes on one
      character later. */
  lemma IndexOfShift(s: string, pat: string)
    requires |s| > 0 && !(|pat| <= |s| && s[..|pat|] == pat)
    ensures IndexOf(s[1..], pat).None? ==> IndexOf(s, pat).None?
    ensures IndexOf(s[1..], pat).Some? ==> IndexOf(s, pat) == Some(IndexOf(s[1..], pat).value + 1)
  {
    if |pat| > |s| {
      assert IndexOf(s, pat).None?;
      assert IndexOf(s[1..], pat).None?;
    } else {
      assert s[..|pat|] != pat;
      var rest := IndexOf(s[1..], pat);
      assert IndexOf(s, pat) == if rest.None? then None else Some(rest.value + 1);
    }
  }

  lemma CloseAbsent(s: string, from: nat)
    requires from <= |s| && IndexOfChar(s, ']', from).None?
    ensures ']' !in s[from..]
  {
    forall k | 0 <= k < |s[from..]| ensures s[from..][k] != ']' {
      assert s[from..][k] == s[from + k];
    }
  }

  lemma CloseFound(s: string, from: nat, j: nat)
    requires from <= |s| && IndexOfChar(s, ']', from) == Some(j)
    ensures ']' in s[from..]
  {
    assert s[from..][j - from] == ']';
  }

  lemma MatchShape(s: string, head: string, i: nat, j: nat)
    requires OccursAt(s, head, i) && i + |head| <= j < |s| && s[j] == ']'
    requires forall k :: i + |head| <= k < j ==> s[k] != ']'
    ensures var m := s[i..j + 1];
            |m| > |head| && m[..|head|] == head && m[|m| - 1] == ']' && ']' !in m[|head|..|m| - 1]
  {
    var m := s[i..j + 1];
    assert m[..|head|] == s[i..i + |head|];
    var inner := m[|head|..|m| - 1];
    forall k | 0 <= k < |inner| ensures inner[k] != ']' {
      assert inner[k] == m[|head| + k] == s[i + |head| + k];
    }
  }

  // ---------------------------------------------------------------------
  // Years and values
  // ---------------------------------------------------------------------

  /** `[int(z) for z in tokens]`: one token that is not an integer raises. */
  function ParseYears(tokens: seq<string>): (r: Result<seq<int>>)
    ensures r.Ok? <==> forall i :: 0 <= i < |tokens| ==> ParseInt(tokens[i]).Some?
    ensures r.Ok? ==> |r.value| == |tokens| && forall i :: 0 <= i < |tokens| ==> Some(r.value[i]) == ParseInt(tokens[i])
    ensures r.Err? ==> r.error == UnparsableValue
  {
    if exists i :: 0 <= i < |tokens| && ParseInt(tokens[i]).None? then Err(UnparsableValue)
    else Ok(seq(|tokens|, i requires 0 <= i < |tokens| => ParseInt(tokens[i]).value))
  }

  /** The text between `[` and `]` of a `head: [ ... ]` match, as
      `(m.split(':')[1])[2:-2]` cuts it. */
  function AfterColon(m: string): Result<string> {
    var pieces := Split(m, ':');
    if |pieces| < 2 then Err(IndexOutOfRange) else Ok(SliceDropEnds(pieces[1], 2, 2))
  }

  /** What precedes the years in the chart script. */
  const CategoriesHead := "categories: ["

  /** What precedes the precipitation values in the chart script. */
  const DataHead := "data: ["

  /** The years: `categories: [...]` in the first segment, cut `[2:-2]`,
      quotes removed, split on commas, each read as an integer. */
  function Categories(segs: seq<string>): (r: Result<seq<int>>)
  {
    if |segs| == 0 then Err(IndexOutOfRange)
    else
      match FirstMatch(segs[0], CategoriesHead)
      case None => Err(IndexOutOfRange)
      case Some(m) =>
        var body :- AfterColon(m);
        ParseYears(Split(RemoveChar(body, '\''), ','))
  }

  /** One value token: `None` is an absent value, anything else a number
      (kept as its text). */
  function AsValue(token: string): (v: Option<string>)
    ensures v.None? <==> token == "None"
    ensures v.Some? ==> v.value == token
  {
    if token == "None" then None else Some(token)
  }

  /** A token the loop accepts: `None`, or one that `float` reads. */
  predicate Readable(token: string, isFloat: string -> bool) {
    token == "None" || isFloat(token)
  }

  /** The values of a comma-separated series; `float` raising on one token
      fails the whole series. */
  function ReadValues(text: string, isFloat: string -> bool): (r: Result<seq<Option<string>>>)
  {
    var tokens := Split(text, ',');
    if exists i :: 0 <= i < |tokens| && !Readable(tokens[i], isFloat) then Err(UnparsableValue)
    else Ok(seq(|tokens|, i requires 0 <= i < |tokens| => AsValue(tokens[i])))
  }

  /** The append loop over `text.split(',')`. */
  method ParseValues(text: string, isFloat: string -> bool) returns (r: Result<seq<Option<string>>>)
    ensures r == ReadValues(text, isFloat)
  {
    var tokens := Split(text, ',');
    var values := [];
    for i := 0 to |tokens|
      invariant |values| == i
      invariant forall k :: 0 <= k < i ==> Readable(tokens[k], isFloat) && values[k] == AsValue(tokens[k])
    {
      if tokens[i] == "None" {
        values := values + [None];
      } else if isFloat(tokens[i]) {
        values := values + [Some(tokens[i])];
      } else {
        assert !Readable(tokens[i], isFloat);
        return Err(UnparsableValue);
      }
    }
    assert values == seq(|tokens|, i requires 0 <= i < |tokens| => AsValue(tokens[i]));
    return Ok(values);
  }

  /** The precipitation series: `data: [...]` in the second long segment,
      cut `[2:-2]`. */
  function PrecText(data: seq<string>): Result<string> {
    if |data| < 2 then Err(IndexOutOfRange)
    else
      match FirstMatch(data[1], DataHead)
      case None => Err(IndexOutOfRange)
      case Some(m) => AfterColon(m)
  }

  /** A temperature series: the `k`-th long segment cut `[1:-2]`. */
  function SeriesText(data: seq<string>, k: nat): (r: Result<string>)
    ensures r.Ok? <==> k < |data|
    ensures r.Err? ==> r.error == IndexOutOfRange
  {
    if |data| <= k then Err(IndexOutOfRange) else Ok(SliceDropEnds(data[k], 1, 2))
  }

  /** What the chart gives: the year of each day and the three series. */
  datatype Chart = Chart(years: seq<int>, prec: seq<Option<string>>, tmax: seq<Option<string>>, tmin: seq<Option<string>>)

  /** The chart read from the page's `text/javascript` scripts. The script is
      `[1]`; the years come from the first segment of all, the series from
      the second, third and fourth long ones. */
  function ChartOf(scripts: seq<string>, isFloat: string -> bool): (r: Result<Chart>)
    ensures |scripts| < 2 ==> r == Err(IndexOutOfRange)
  {
    if |scripts| < 2 then Err(IndexOutOfRange)
    else
      var segs := BracketSegments(CleanScript(scripts[1]));
      var data := LongSegments(segs);
      var years :- Categories(segs);
      var precText :- PrecText(data);
      var prec :- ReadValues(precText, isFloat);
      var tmaxText :- SeriesText(data, 2);
      var tmax :- ReadValues(tmaxText, isFloat);
      var tminText :- SeriesText(data, 3);
      var tmin :- ReadValues(tminText, isFloat);
      Ok(Chart(years, prec, tmax, tmin))
  }

  /** `ChartOf` as the scraper runs it, the series built by the append
      loops. */
  method ReadChart(scripts: seq<string>, isFloat: string -> bool) returns (r: Result<Chart>)
    ensures r == ChartOf(scripts, isFloat)
  {
    if |scripts| < 2 {
      return Err(IndexOutOfRange);
    }
    var segs := BracketSegments(CleanScript(scripts[1]));
    var data := LongSegments(segs);
    var years :- Categories(segs);
    var precText :- PrecText(data);
    var prec :- ParseValues(precText, isFloat);
    var tmaxText :- SeriesText(data, 2);
    var tmax :- ParseValues(tmaxText, isFloat);
    var tminText :- SeriesText(data, 3);
    var tmin :- ParseValues(tminText, isFloat);
    r := Ok(Chart(years, prec, tmax, tmin));
  }

  // ---------------------------------------------------------------------
  // The layouts that read back
  // ---------------------------------------------------------------------

  /** How a series writes its values: absent as `None`, a number as its
      text. */
  function Rendered(vals: seq<Option<string>>): (r: seq<string>)
    ensures |r| == |vals|
  {
    seq(|vals|, i requires 0 <= i < |vals| => match vals[i] case None => "None" case Some(t) => t)
  }

  /** Number texts that `float` reads, that are not `None` and hold no
      comma. */
  predicate Writable(vals: seq<Option<string>>, isFloat: string -> bool) {
    forall i :: 0 <= i < |vals| ==> vals[i].Some? ==>
      vals[i].value != "None" && ',' !in vals[i].value && isFloat(vals[i].value)
  }

  /** Reading a written series gives the values back, in order. */
  lemma ReadValuesRoundTrip(vals: seq<Option<string>>, isFloat: string -> bool)
    requires |vals| >= 1 && Writable(vals, isFloat)
    ensures ReadValues(Join(Rendered(vals), ','), isFloat) == Ok(vals)
  {
    var parts := Rendered(vals);
    forall k | 0 <= k < |parts| ensures ',' !in parts[k] && Readable(parts[k], isFloat) && AsValue(parts[k]) == vals[k] {
      if vals[k].None? {
        assert parts[k] == "None";
      }
    }
    SplitJoin(parts, ',');
    var tokens := Split(Join(parts, ','), ',');
    assert seq(|tokens|, i requires 0 <= i < |tokens| => AsValue(tokens[i])) == vals;
  }

  /** A temperature segment written `[v1,...,vn,]`, with the comma before the
      closing bracket, reads back as its values. */
  lemma SeriesRoundTrip(vals: seq<Option<string>>, isFloat: string -> bool)
    requires |vals| >= 1 && Writable(vals, isFloat)
    ensures ReadValues(SliceDropEnds("[" + Join(Rendered(vals), ',') + ",]", 1, 2), isFloat) == Ok(vals)
  {
    var body := Join(Rendered(vals), ',');
    var seg := "[" + body + ",]";
    assert seg[1..|seg| - 2] == body;
    ReadValuesRoundTrip(vals, isFloat);
  }

  /** Without the comma before the closing bracket, `[1:-2]` also cuts the
      last character of the last value: `[1.5,2.25]` reads as 1.5 and 2.2. */
  lemma SeriesWithoutTrailingComma(isFloat: string -> bool)
    requires isFloat("1.5") && isFloat("2.2")
    ensures ReadValues(SliceDropEnds("[1.5,2.25]", 1, 2), isFloat) == Ok([Some("1.5"), Some("2.2")])
  {
    var vals := [Some("1.5"), Some("2.2")];
    assert Rendered(vals) == ["1.5", "2.2"];
    assert Join(["1.5", "2.2"], ',') == "1.5,2.2";
    assert SliceDropEnds("[1.5,2.25]", 1, 2) == "1.5,2.2";
    ReadValuesRoundTrip(vals, isFloat);
  }

  /** A precipitation match written `data: [v1,...,vn,]` reads back as its
      values. */
  lemma PrecRoundTrip(vals: seq<Option<string>>, isFloat: string -> bool)
    requires |vals| >= 1 && Writable(vals, isFloat)
    requires forall i :: 0 <= i < |vals| ==> vals[i].Some? ==> ':' !in vals[i].value
    ensures var m := DataHead + Join(Rendered(vals), ',') + ",]";
            AfterColon(m).Ok? && ReadValues(AfterColon(m).value, isFloat) == Ok(vals)
  {
    var body := Join(Rendered(vals), ',');
    var tail := " [" + body + ",]";
    assert DataHead + body + ",]" == "data" + [':'] + tail;
    assert ':' !in body by {
      JoinFree(Rendered(vals), ',', ':');
    }
    assert ':' !in tail;
    SplitSeparated("data", tail, ':');
    SplitNoSeparator(tail, ':');
    assert tail[2..|tail| - 2] == body;
    ReadValuesRoundTrip(vals, isFloat);
  }

  /** Joining pieces free of a character other than the separator gives a
      text free of it. */
  lemma {:induction false} JoinFree(parts: seq<string>, sep: char, c: char)
    requires c != sep
    requires forall k :: 0 <= k < |parts| ==> c !in parts[k]
    ensures c !in Join(parts, sep)
    decreases |parts|
  {
    if |parts| > 1 {
      JoinFree(parts[1..], sep, c);
    }
  }

  /** How the chart writes its years: each one quoted. */
  function Quoted(years: seq<nat>): (r: seq<string>)
    ensures |r| == |years|
  {
    seq(|years|, i requires 0 <= i < |years| => "'" + NatToString(years[i]) + "'")
  }

  /** The years as plain decimal texts. */
  function Decimals(years: seq<nat>): (r: seq<string>)
    ensures |r| == |years|
  {
    seq(|years|, i requires 0 <= i < |years| => NatToString(years[i]))
  }

  lemma {:induction false} RemoveCharConcat(a: string, b: string, c: char)
    ensures RemoveChar(a + b, c) == RemoveChar(a, c) + RemoveChar(b, c)
    decreases |a|
  {
    if |a| > 0 {
      RemoveCharConcat(a[1..], b, c);
      assert (a + b)[1..] == a[1..] + b;
    } else {
      assert a + b == b;
    }
  }

  lemma {:induction false} RemoveCharAbsent(a: string, c: char)
    requires c !in a
    ensures RemoveChar(a, c) == a
    decreases |a|
  {
    if |a| > 0 {
      RemoveCharAbsent(a[1..], c);
      assert [a[0]] + a[1..] == a;
    }
  }

  /** Removing the quotes from the quoted years leaves the decimal years. */
  lemma {:induction false} UnquoteYears(years: seq<nat>)
    ensures RemoveChar(Join(Quoted(years), ','), '\'') == Join(Decimals(years), ',')
    decreases |years|
  {
    if |years| > 0 {
      var q := Quoted(years)[0];
      UnquoteOne(years[0]);
      if |years| > 1 {
        UnquoteYears(years[1..]);
        assert Quoted(years)[1..] == Quoted(years[1..]);
        assert Decimals(years)[1..] == Decimals(years[1..]);
        UnquoteStep(q, Join(Quoted(years[1..]), ','));
      }
    }
  }

  lemma UnquoteOne(y: nat)
    ensures RemoveChar("'" + NatToString(y) + "'", '\'') == NatToString(y)
  {
    RemoveCharConcat("'" + NatToString(y), "'", '\'');
    RemoveCharConcat("'", NatToString(y), '\'');
    assert forall x :: x in NatToString(y) ==> IsDigit(x);
    RemoveCharAbsent(NatToString(y), '\'');
  }

  lemma UnquoteStep(q: string, rest: string)
    ensures RemoveChar(q + [','] + rest, '\'') == RemoveChar(q, '\'') + [','] + RemoveChar(rest, '\'')
  {
    RemoveCharConcat(q, [','] + rest, '\'');
    RemoveCharConcat([','], rest, '\'');
    assert q + [','] + rest == q + ([','] + rest);
  }

  /** A categories match written `categories: ['y1',...,'yn']` reads back as
      its years. */
  lemma CategoriesRoundTrip(years: seq<nat>)
    requires |years| >= 1
    ensures var m := CategoriesHead + Join(Quoted(years), ',') + "]";
            AfterColon(m).Ok? && ParseYears(Split(RemoveChar(AfterColon(m).value, '\''), ',')) == Ok(years)
  {
    CategoriesBody(years);
    ReadDecimals(years);
  }

  /** Cutting the categories match and removing the quotes leaves the
      decimal years joined by commas. */
  lemma CategoriesBody(years: seq<nat>)
    requires |years| >= 1
    ensures var m := CategoriesHead + Join(Quoted(years), ',') + "]";
            AfterColon(m).Ok? && RemoveChar(AfterColon(m).value, '\'') == Join(Decimals(years), ',')
  {
    var joined := Join(Quoted(years), ',');
    forall k | 0 <= k < |years| ensures ':' !in Quoted(years)[k] {
      var d := NatToString(years[k]);
      assert forall x :: x in d ==> IsDigit(x);
      assert Quoted(years)[k] == "'" + d + "'";
    }
    JoinFree(Quoted(years), ',', ':');
    LastQuote(years);
    CutCategories(joined);
    var body := joined[..|joined| - 1];
    assert joined == body + "'";
    RemoveCharConcat(body, "'", '\'');
    UnquoteYears(years);
  }

  /** `[2:-2]` of the text after the colon drops ` [` in front and the last
      character and `]` behind. */
  lemma CutCategories(joined: string)
    requires ':' !in joined && |joined| >= 1
    ensures AfterColon(CategoriesHead + joined + "]") == Ok(joined[..|joined| - 1])
  {
    var tail := " [" + joined + "]";
    assert CategoriesHead + joined + "]" == "categories" + [':'] + tail;
    SplitSeparated("categories", tail, ':');
    SplitNoSeparator(tail, ':');
    assert tail[2..|tail| - 2] == joined[..|joined| - 1];
  }

  /** The decimal years joined by commas read back as the years. */
  lemma ReadDecimals(years: seq<nat>)
    requires |years| >= 1
    ensures ParseYears(Split(Join(Decimals(years), ','), ',')) == Ok(years)
  {
    var tokens := Decimals(years);
    forall k | 0 <= k < |years| ensures ',' !in tokens[k] {
      assert forall x :: x in tokens[k] ==> IsDigit(x);
    }
    SplitJoin(tokens, ',');
    forall i | 0 <= i < |tokens| ensures ParseInt(tokens[i]) == Some(years[i] as int) {
      ParseIntOfNatToString(years[i]);
    }
    var r := ParseYears(tokens);
    assert r.Ok?;
    assert r.value == years;
  }

  /** The quoted years end with a quote. */
  lemma {:induction false} LastQuote(years: seq<nat>)
    requires |years| >= 1
    ensures var j := Join(Quoted(years), ',');
            |j| >= 1 && j[|j| - 1] == '\''
    decreases |years|
  {
    if |years| > 1 {
      LastQuote(years[1..]);
      assert Quoted(years)[1..] == Quoted(years[1..]);
    }
  }

  /** A match at the very start of a text runs to the first closing bracket. */
  lemma FirstMatchAtStart(head: string, b: string, rest: string)
    requires |head| > 0 && ']' !in head && ']' !in b
    ensures FirstMatch(head + b + "]" + rest, head) == Some(head + b + "]")
  {
    var s := head + b + "]" + rest;
    assert s[..|head|] == head;
    var j := |head| + |b|;
    CloseAfterHead(s, b, |head|);
    assert s[0..j + 1] == head + b + "]";
  }


  /** `head` found right after an opening bracket: the match runs from it
      to the first closing bracket. */
  lemma FirstMatchAfterOpen(head: string, b: string)
    requires |head| > 0 && head[0] != '[' && ']' !in head && ']' !in b
    ensures FirstMatch("[" + head + b + "]", head) == Some(head + b + "]")
  {
    var s := "[" + head + b + "]";
    assert s[0] == '[' && s[1..] == head + b + "]" + "";
    assert |head| <= |s| ==> s[..|head|][0] != head[0];
    FirstMatchAtStart(head, b, "");
  }

  lemma CloseAfterHead(s: string, b: string, from: nat)
    requires ']' !in b && from + |b| < |s| && s[from..from + |b| + 1] == b + "]"
    ensures IndexOfChar(s, ']', from) == Some(from + |b|)
  {
    assert s[from + |b|] == s[from..from + |b| + 1][|b|];
    forall k | from <= k < from + |b| ensures s[k] != ']' {
      assert s[k] == s[from..from + |b| + 1][k - from] == b[k - from];
    }
  }

  // ---------------------------------------------------------------------
  // The whole chart script
  // ---------------------------------------------------------------------

  /** Characters that neither cleaning nor cutting touches: no line break,
      no tab, no `l` (so no `null`), no closing bracket, no colon. */
  predicate Inert(t: string) {
    '\n' !in t && '\r' !in t && '\t' !in t && 'l' !in t && ']' !in t && ':' !in t
  }

  /** Series values a chart can carry: at least one, each a number text
      that `float` reads and that holds nothing the cutting reacts to. */
  predicate ChartValues(vals: seq<Option<string>>, isFloat: string -> bool) {
    |vals| >= 1 && Writable(vals, isFloat) &&
    forall i :: 0 <= i < |vals| ==> vals[i].Some? ==> Inert(vals[i].value)
  }

  /** The first segment: the years, quoted. */
  function CategoriesSegment(years: seq<nat>): string {
    "[" + CategoriesHead + Join(Quoted(years), ',') + "]"
  }

  /** The precipitation segment: `data: [...]` with its trailing comma. */
  function PrecSegment(prec: seq<Option<string>>): string {
    "[" + DataHead + Join(Rendered(prec), ',') + ",]"
  }

  /** A temperature segment: the bare array with its trailing comma. */
  function SeriesSegment(vals: seq<Option<string>>): string {
    "[" + Join(Rendered(vals), ',') + ",]"
  }

  /** A chart script: five stretches of other text, free of opening
      brackets, around the four segments. */
  function ChartScript(gaps: seq<string>, years: seq<nat>, prec: seq<Option<string>>,
                       tmax: seq<Option<string>>, tmin: seq<Option<string>>): string
    requires |gaps| == 5
  {
    gaps[0] + CategoriesSegment(years) + (gaps[1] + PrecSegment(prec) + (gaps[2] +
    SeriesSegment(tmax) + (gaps[3] + SeriesSegment(tmin) + gaps[4])))
  }

  /** Reading a script whose cleaned text is laid out by `ChartScript`
      gives back the years and the three series, when every segment is
      longer than 100 characters (the daily series of a year always are).
      The text between the arrays may hold anything but `[`: line breaks
      and `null`s there are what the cleaning removes or rewrites. */
  lemma ChartRoundTrip(scripts: seq<string>, gaps: seq<string>, years: seq<nat>, prec: seq<Option<string>>,
                       tmax: seq<Option<string>>, tmin: seq<Option<string>>, isFloat: string -> bool)
    requires |gaps| == 5 && forall k :: 0 <= k < 5 ==> '[' !in gaps[k]
    requires |years| >= 1 && ChartValues(prec, isFloat) && ChartValues(tmax, isFloat) && ChartValues(tmin, isFloat)
    requires |CategoriesSegment(years)| > 100 && |PrecSegment(prec)| > 100
    requires |SeriesSegment(tmax)| > 100 && |SeriesSegment(tmin)| > 100
    requires |scripts| >= 2 && CleanScript(scripts[1]) == ChartScript(gaps, years, prec, tmax, tmin)
    ensures ChartOf(scripts, isFloat) == Ok(Chart(years, prec, tmax, tmin))
  {
    var segs := [CategoriesSegment(years), PrecSegment(prec), SeriesSegment(tmax), SeriesSegment(tmin)];
    ChartScriptSegments(gaps, years, prec, tmax, tmin);
    LongAll(segs);
    ChartCategories(years, segs);
    ChartPrec(prec, segs, isFloat);
    SeriesRoundTrip(tmax, isFloat);
    SeriesRoundTrip(tmin, isFloat);
    ChartOfSegments(scripts, segs, years, prec, tmax, tmin, isFloat);
  }

  /** Segments all longer than 100 characters are all kept. */
  lemma {:induction false} LongAll(segs: seq<string>)
    requires forall k :: 0 <= k < |segs| ==> |segs[k]| > 100
    ensures LongSegments(segs) == segs
    decreases |segs|
  {
    if |segs| > 0 {
      LongAll(segs[1..]);
      assert segs == [segs[0]] + segs[1..];
    }
  }

  /** `ChartOf` once each of its readings is known. */
  lemma ChartOfSegments(scripts: seq<string>, segs: seq<string>, years: seq<int>, prec: seq<Option<string>>,
                        tmax: seq<Option<string>>, tmin: seq<Option<string>>, isFloat: string -> bool)
    requires |scripts| >= 2 && BracketSegments(CleanScript(scripts[1])) == segs
    requires |segs| == 4 && LongSegments(segs) == segs
    requires Categories(segs) == Ok(years)
    requires PrecText(segs).Ok? && ReadValues(PrecText(segs).value, isFloat) == Ok(prec)
    requires ReadValues(SliceDropEnds(segs[2], 1, 2), isFloat) == Ok(tmax)
    requires ReadValues(SliceDropEnds(segs[3], 1, 2), isFloat) == Ok(tmin)
    ensures ChartOf(scripts, isFloat) == Ok(Chart(years, prec, tmax, tmin))
  {
  }

  /** The years read from the first segment. */
  lemma ChartCategories(years: seq<nat>, segs: seq<string>)
    requires |years| >= 1 && |segs| >= 1 && segs[0] == CategoriesSegment(years)
    ensures Categories(segs) == Ok(years)
  {
    var m := CategoriesHead + Join(Quoted(years), ',') + "]";
    CategoriesMatch(years);
    CategoriesRoundTrip(years);
    CategoriesOf(segs, m);
  }

  lemma CategoriesMatch(years: seq<nat>)
    ensures FirstMatch(CategoriesSegment(years), CategoriesHead) == Some(CategoriesHead + Join(Quoted(years), ',') + "]")
  {
    QuotedFree(years, ']');
    HeadsPlain();
    FirstMatchAfterOpen(CategoriesHead, Join(Quoted(years), ','));
  }

  lemma CategoriesOf(segs: seq<string>, m: string)
    requires |segs| >= 1 && FirstMatch(segs[0], CategoriesHead) == Some(m) && AfterColon(m).Ok?
    ensures Categories(segs) == ParseYears(Split(RemoveChar(AfterColon(m).value, '\''), ','))
  {
  }

  lemma HeadsPlain()
    ensures CategoriesHead[0] != '[' && ']' !in CategoriesHead
    ensures DataHead[0] != '[' && ']' !in DataHead
  {
  }

  /** The precipitation read from the second segment. */
  lemma ChartPrec(prec: seq<Option<string>>, segs: seq<string>, isFloat: string -> bool)
    requires ChartValues(prec, isFloat) && |segs| >= 2 && segs[1] == PrecSegment(prec)
    ensures PrecText(segs).Ok? && ReadValues(PrecText(segs).value, isFloat) == Ok(prec)
  {
    var m := DataHead + Join(Rendered(prec), ',') + ",]";
    PrecMatch(prec);
    PrecTextOf(segs, m);
    PrecRoundTrip(prec, isFloat);
  }

  lemma PrecMatch(prec: seq<Option<string>>)
    requires forall i :: 0 <= i < |prec| ==> prec[i].Some? ==> ']' !in prec[i].value
    ensures FirstMatch(PrecSegment(prec), DataHead) == Some(DataHead + Join(Rendered(prec), ',') + ",]")
  {
    var p := Join(Rendered(prec), ',');
    RenderedFree(prec, ']');
    HeadsPlain();
    FirstMatchAfterOpen(DataHead, p + ",");
    CommaClose("[" + DataHead, p);
    CommaClose(DataHead, p);
  }

  lemma PrecTextOf(segs: seq<string>, m: string)
    requires |segs| >= 2 && FirstMatch(segs[1], DataHead) == Some(m)
    ensures PrecText(segs) == AfterColon(m)
  {
  }

  lemma CommaClose(a: string, p: string)
    ensures a + (p + ",") + "]" == a + p + ",]"
  {
  }

  /** A chart script whose gaps hold no line break, `l`, `]` or `:` needs
      no cleaning, so it meets `ChartRoundTrip` as it stands. */
  lemma ChartScriptClean(gaps: seq<string>, years: seq<nat>, prec: seq<Option<string>>,
                         tmax: seq<Option<string>>, tmin: seq<Option<string>>)
    requires |gaps| == 5 && forall k :: 0 <= k < 5 ==> Inert(gaps[k])
    requires forall i :: 0 <= i < |prec| ==> prec[i].Some? ==> Inert(prec[i].value)
    requires forall i :: 0 <= i < |tmax| ==> tmax[i].Some? ==> Inert(tmax[i].value)
    requires forall i :: 0 <= i < |tmin| ==> tmin[i].Some? ==> Inert(tmin[i].value)
    ensures CleanScript(ChartScript(gaps, years, prec, tmax, tmin)) == ChartScript(gaps, years, prec, tmax, tmin)
  {
    var s := ChartScript(gaps, years, prec, tmax, tmin);
    forall c | c in "\n\r\tl" ensures c !in s {
      QuotedFree(years, c);
      RenderedFree(prec, c);
      RenderedFree(tmax, c);
      RenderedFree(tmin, c);
    }
    assert 'l' !in s;
    NoLetterNoNull(s);
  }

  /** The four segments of a chart script, in order. */
  lemma ChartScriptSegments(gaps: seq<string>, years: seq<nat>, prec: seq<Option<string>>,
                            tmax: seq<Option<string>>, tmin: seq<Option<string>>)
    requires |gaps| == 5 && forall k :: 0 <= k < 5 ==> '[' !in gaps[k]
    requires forall i :: 0 <= i < |prec| ==> prec[i].Some? ==> ']' !in prec[i].value
    requires forall i :: 0 <= i < |tmax| ==> tmax[i].Some? ==> ']' !in tmax[i].value
    requires forall i :: 0 <= i < |tmin| ==> tmin[i].Some? ==> ']' !in tmin[i].value
    ensures BracketSegments(ChartScript(gaps, years, prec, tmax, tmin)) ==
            [CategoriesSegment(years), PrecSegment(prec), SeriesSegment(tmax), SeriesSegment(tmin)]
  {
    var c, p, x, n := CategoriesSegment(years), PrecSegment(prec), SeriesSegment(tmax), SeriesSegment(tmin);
    QuotedFree(years, ']');
    SegmentBody(c, CategoriesHead + Join(Quoted(years), ','));
    ChartSeriesShape(prec, tmax, tmin);
    FourSegments(gaps, c, p, x, n);
  }

  lemma ChartSeriesShape(prec: seq<Option<string>>, tmax: seq<Option<string>>, tmin: seq<Option<string>>)
    requires forall i :: 0 <= i < |prec| ==> prec[i].Some? ==> ']' !in prec[i].value
    requires forall i :: 0 <= i < |tmax| ==> tmax[i].Some? ==> ']' !in tmax[i].value
    requires forall i :: 0 <= i < |tmin| ==> tmin[i].Some? ==> ']' !in tmin[i].value
    ensures IsSegment(PrecSegment(prec)) && IsSegment(SeriesSegment(tmax)) && IsSegment(SeriesSegment(tmin))
  {
    RenderedFree(prec, ']');
    RenderedFree(tmax, ']');
    RenderedFree(tmin, ']');
    SegmentBody(PrecSegment(prec), DataHead + Join(Rendered(prec), ',') + ",");
    SegmentBody(SeriesSegment(tmax), Join(Rendered(tmax), ',') + ",");
    SegmentBody(SeriesSegment(tmin), Join(Rendered(tmin), ',') + ",");
  }

  /** Four segments between five stretches free of `[`. */
  lemma FourSegments(gaps: seq<string>, c: string, p: string, x: string, n: string)
    requires |gaps| == 5 && forall k :: 0 <= k < 5 ==> '[' !in gaps[k]
    requires IsSegment(c) && IsSegment(p) && IsSegment(x) && IsSegment(n)
    ensures BracketSegments(gaps[0] + c + (gaps[1] + p + (gaps[2] + x + (gaps[3] + n + gaps[4])))) == [c, p, x, n]
  {
    var r2 := gaps[2] + x + (gaps[3] + n + gaps[4]);
    TwoSegments(gaps[2], x, gaps[3], n, gaps[4]);
    NoSegments(gaps[4]);
    TwoSegments(gaps[0], c, gaps[1], p, r2);
    assert [c, p] + ([x, n] + []) == [c, p, x, n];
  }

  /** Two segments, each after a stretch free of `[`. */
  lemma TwoSegments(g: string, z: string, h: string, w: string, rest: string)
    requires '[' !in g && '[' !in h && IsSegment(z) && IsSegment(w)
    ensures BracketSegments(g + z + (h + w + rest)) == [z, w] + BracketSegments(rest)
  {
    SegmentsOf(h, w, rest);
    SegmentsOf(g, z, h + w + rest);
    assert [z] + ([w] + BracketSegments(rest)) == [z, w] + BracketSegments(rest);
  }


  /** A bracketed body free of `]` is one segment. */
  lemma SegmentBody(z: string, b: string)
    requires z == "[" + b + "]" && ']' !in b
    ensures IsSegment(z)
  {
    assert z[..|z| - 1] == "[" + b;
  }

  /** `SegmentsStep` for a segment given whole. */
  lemma SegmentsOf(g: string, z: string, rest: string)
    requires '[' !in g && IsSegment(z)
    ensures BracketSegments(g + z + rest) == [z] + BracketSegments(rest)
  {
    var b := z[1..|z| - 1];
    assert z == "[" + b + "]";
    assert ']' !in b by {
      assert b == z[..|z| - 1][1..];
    }
    SegmentsStep(g, b, rest);
    assert g + "[" + b + "]" + rest == g + z + rest;
  }

  /** A text without an `l` has no `null`. */
  lemma NoLetterNoNull(s: string)
    requires 'l' !in s
    ensures !Contains(s, "null")
  {
    forall j | 0 <= j <= |s| ensures !OccursAt(s, "null", j) {
      if j + 4 <= |s| {
        assert s[j + 2] in s;
        assert s[j..j + 4][2] == s[j + 2] != 'l' == "null"[2];
      }
    }
  }

  /** A character that is neither a quote nor a digit nor a comma is not in
      the written years. */
  lemma QuotedFree(years: seq<nat>, c: char)
    requires c != '\'' && c != ',' && !IsDigit(c)
    ensures c !in Join(Quoted(years), ',')
  {
    var q := Quoted(years);
    forall k | 0 <= k < |q| ensures c !in q[k] {
      var d := NatToString(years[k]);
      assert q[k] == "'" + d + "'";
      assert c !in d by {
        assert forall m :: 0 <= m < |d| ==> IsDigit(d[m]);
      }
    }
    JoinFree(q, ',', c);
  }

  /** A character in neither `None`, a comma nor any value is not in the
      written series. */
  lemma RenderedFree(vals: seq<Option<string>>, c: char)
    requires c != ',' && c !in "None"
    requires forall i :: 0 <= i < |vals| ==> vals[i].Some? ==> c !in vals[i].value
    ensures c !in Join(Rendered(vals), ',')
  {
    JoinFree(Rendered(vals), ',', c);
  }
}
