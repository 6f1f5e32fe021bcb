/** The outer merge of `complete_monthly_data`: a frame holding one row per
    slot of a month (a day, or an hour) is merged with the station's rows on
    the time stamp. pandas' outer merge sorts the keys, keeps every row of
    both sides, and leaves the value cells of a slot no station row fills
    empty. */
module Merge {
  import opened Wrappers
  import opened Calendar
  import opened Frames

  /** A time stamp: a date and the minutes after its midnight. */
  datatype Stamp = Stamp(date: Date, minute: int)

  predicate StampLess(a: Stamp, b: Stamp) {
    Before(a.date, b.date) || (a.date == b.date && a.minute < b.minute)
  }

  predicate StampLeq(a: Stamp, b: Stamp) {
    a == b || StampLess(a, b)
  }

  /** A station row keyed by its time stamp; `values` are its other cells. */
  datatype Obs = Obs(key: Stamp, values: seq<Cell>)

  predicate SortedObs(s: seq<Obs>) {
    forall i, j :: 0 <= i < j < |s| ==> StampLeq(s[i].key, s[j].key)
  }

  predicate Increasing(g: seq<Stamp>) {
    forall i, j :: 0 <= i < j < |g| ==> StampLess(g[i], g[j])
  }

  lemma {:induction false} ConsSorted(x: Obs, s: seq<Obs>)
    requires SortedObs(s)
    requires forall y :: y in s ==> StampLeq(x.key, y.key)
    ensures SortedObs([x] + s)
  {
    var r := [x] + s;
    forall i, j | 0 <= i < j < |r| ensures StampLeq(r[i].key, r[j].key) {
      assert r[j] == s[j - 1];
      if i > 0 {
        assert r[i] == s[i - 1];
      }
    }
  }

  /** Inserts `x` before the first row whose key is not smaller, so rows
      with equal keys keep their order. */
  function Insert(x: Obs, s: seq<Obs>): (r: seq<Obs>)
    requires SortedObs(s)
    ensures SortedObs(r)
    ensures multiset(r) == multiset(s) + multiset{x}
    decreases |s|
  {
    if |s| == 0 then [x]
    else if StampLeq(x.key, s[0].key) then
      ConsSorted(x, s);
      [x] + s
    else
      var rest := Insert(x, s[1..]);
      assert s == [s[0]] + s[1..];
      assert forall y :: y in rest ==> StampLeq(s[0].key, y.key) by {
        forall y | y in rest ensures StampLeq(s[0].key, y.key) {
          assert y in multiset(rest);
          if y != x {
            assert y in s[1..];
          }
        }
      }
      ConsSorted(s[0], rest);
      [s[0]] + rest
  }

  /** The stable sort of the merge. */
  function SortObs(s: seq<Obs>): (r: seq<Obs>)
    ensures SortedObs(r)
    ensures multiset(r) == multiset(s)
    decreases |s|
  {
    if |s| == 0 then []
    else
      assert s == [s[0]] + s[1..];
      Insert(s[0], SortObs(s[1..]))
  }

  /** Some station row has the slot's stamp. */
  predicate Filled(g: Stamp, obs: seq<Obs>) {
    exists i :: 0 <= i < |obs| && obs[i].key == g
  }

  /** The slots of the grid no station row fills, in grid order. */
  function Unfilled(grid: seq<Stamp>, obs: seq<Obs>): (r: seq<Stamp>)
    ensures forall g :: g in r <==> g in grid && !Filled(g, obs)
    ensures |r| <= |grid|
    decreases |grid|
  {
    if |grid| == 0 then []
    else (if Filled(grid[0], obs) then [] else [grid[0]]) + Unfilled(grid[1..], obs)
  }

  function Blank(width: nat): (r: seq<Cell>)
    ensures |r| == width && forall j :: 0 <= j < width ==> r[j] == None
  {
    seq(width, _ => None)
  }

  /** One empty row per slot. */
  function BlankRows(slots: seq<Stamp>, width: nat): (r: seq<Obs>)
    ensures |r| == |slots|
    ensures forall y: Obs :: y in r <==> y.key in slots && y.values == Blank(width)
  {
    var r := seq(|slots|, i requires 0 <= i < |slots| => Obs(slots[i], Blank(width)));
    assert forall y: Obs :: y.key in slots && y.values == Blank(width) ==> y in r by {
      forall y: Obs | y.key in slots && y.values == Blank(width) ensures y in r {
        var i :| 0 <= i < |slots| && slots[i] == y.key;
        assert r[i] == y;
      }
    }
    r
  }

  lemma {:induction false} BlankRowsCons(g: Stamp, slots: seq<Stamp>, width: nat)
    ensures BlankRows([g] + slots, width) == [Obs(g, Blank(width))] + BlankRows(slots, width)
  {
  }

  lemma UnfilledSame(grid: seq<Stamp>, a: seq<Obs>, b: seq<Obs>)
    requires forall g :: g in grid ==> (Filled(g, a) <==> Filled(g, b))
    ensures Unfilled(grid, a) == Unfilled(grid, b)
    decreases |grid|
  {
    if |grid| > 0 {
      UnfilledSame(grid[1..], a, b);
    }
  }

  /** Filling by the head row or by the rest. */
  lemma {:induction false} FilledCons(g: Stamp, obs: seq<Obs>)
    requires |obs| > 0
    ensures Filled(g, obs) <==> obs[0].key == g || Filled(g, obs[1..])
  {
    if Filled(g, obs[1..]) {
      var i :| 0 <= i < |obs[1..]| && obs[1..][i].key == g;
      assert obs[i + 1].key == g;
    }
    if Filled(g, obs) && obs[0].key != g {
      var i :| 0 <= i < |obs| && obs[i].key == g;
      assert obs[1..][i - 1].key == g;
    }
  }

  lemma {:induction false} TailsStayOrdered(grid: seq<Stamp>, obs: seq<Obs>)
    requires Increasing(grid) && SortedObs(obs)
    ensures |grid| > 0 ==> Increasing(grid[1..])
    ensures |obs| > 0 ==> SortedObs(obs[1..])
  {
    if |grid| > 0 {
      forall i, j | 0 <= i < j < |grid| - 1 ensures StampLess(grid[1..][i], grid[1..][j]) {
        assert grid[1..][i] == grid[i + 1] && grid[1..][j] == grid[j + 1];
      }
    }
    if |obs| > 0 {
      forall i, j | 0 <= i < j < |obs| - 1 ensures StampLeq(obs[1..][i].key, obs[1..][j].key) {
        assert obs[1..][i] == obs[i + 1] && obs[1..][j] == obs[j + 1];
      }
    }
  }

  /** A station row that comes before the whole grid fills no slot. */
  lemma {:induction false} UnfilledRowFirst(grid: seq<Stamp>, obs: seq<Obs>)
    requires Increasing(grid) && |grid| > 0 && |obs| > 0
    requires StampLess(obs[0].key, grid[0])
    ensures Unfilled(grid, obs) == Unfilled(grid, obs[1..])
  {
    forall g | g in grid ensures Filled(g, obs) <==> Filled(g, obs[1..]) {
      FilledCons(g, obs);
      var k :| 0 <= k < |grid| && grid[k] == g;
      assert k == 0 || StampLess(grid[0], grid[k]);
    }
    UnfilledSame(grid, obs, obs[1..]);
  }

  /** A station row on the first slot fills it and no later one. */
  lemma {:induction false} UnfilledRowOnSlot(grid: seq<Stamp>, obs: seq<Obs>)
    requires Increasing(grid) && |grid| > 0 && |obs| > 0
    requires obs[0].key == grid[0]
    ensures Unfilled(grid, obs) == Unfilled(grid[1..], obs[1..])
  {
    forall g | g in grid[1..] ensures Filled(g, obs) <==> Filled(g, obs[1..]) {
      FilledCons(g, obs);
      var k :| 0 <= k < |grid| - 1 && grid[1..][k] == g;
      assert StampLess(grid[0], grid[k + 1]);
    }
    UnfilledSame(grid[1..], obs, obs[1..]);
    assert Filled(grid[0], obs);
  }

  /** A slot before every station row stays unfilled. */
  lemma {:induction false} UnfilledSlotFirst(grid: seq<Stamp>, obs: seq<Obs>)
    requires SortedObs(obs) && |grid| > 0 && |obs| > 0
    requires StampLess(grid[0], obs[0].key)
    ensures Unfilled(grid, obs) == [grid[0]] + Unfilled(grid[1..], obs)
  {
    forall i | 0 <= i < |obs| ensures obs[i].key != grid[0] {
      assert i == 0 || StampLeq(obs[0].key, obs[i].key);
    }
  }

  /** The merge of the month grid (`grid`, strictly increasing) with the
      sorted station rows: every station row is kept, and every slot no row
      fills gets an empty row. */
  function MergeJoin(grid: seq<Stamp>, obs: seq<Obs>, width: nat): (r: seq<Obs>)
    requires Increasing(grid) && SortedObs(obs)
    ensures multiset(r) == multiset(obs) + multiset(BlankRows(Unfilled(grid, obs), width))
    decreases |grid| + |obs|
  {
    TailsStayOrdered(grid, obs);
    if |obs| == 0 then
      NothingFilled(grid);
      BlankRows(grid, width)
    else if |grid| == 0 then obs
    else if StampLess(obs[0].key, grid[0]) then
      UnfilledRowFirst(grid, obs);
      var rest := MergeJoin(grid, obs[1..], width);
      RowStep(obs, rest, BlankRows(Unfilled(grid, obs), width));
      [obs[0]] + rest
    else if obs[0].key == grid[0] then
      UnfilledRowOnSlot(grid, obs);
      var rest := MergeJoin(grid[1..], obs[1..], width);
      RowStep(obs, rest, BlankRows(Unfilled(grid, obs), width));
      [obs[0]] + rest
    else
      UnfilledSlotFirst(grid, obs);
      BlankRowsCons(grid[0], Unfilled(grid[1..], obs), width);
      var rest := MergeJoin(grid[1..], obs, width);
      BlankStep(Obs(grid[0], Blank(width)), rest, obs, BlankRows(Unfilled(grid[1..], obs), width));
      [Obs(grid[0], Blank(width))] + rest
  }

  /** Emitting the first station row keeps the multiset balance. */
  lemma RowStep(obs: seq<Obs>, rest: seq<Obs>, blanks: seq<Obs>)
    requires |obs| > 0 && multiset(rest) == multiset(obs[1..]) + multiset(blanks)
    ensures multiset([obs[0]] + rest) == multiset(obs) + multiset(blanks)
  {
    assert obs == [obs[0]] + obs[1..];
  }

  /** Emitting an empty row keeps the multiset balance. */
  lemma BlankStep(b: Obs, rest: seq<Obs>, obs: seq<Obs>, blanks: seq<Obs>)
    requires multiset(rest) == multiset(obs) + multiset(blanks)
    ensures multiset([b] + rest) == multiset(obs) + multiset([b] + blanks)
  {
  }

  lemma NothingFilled(grid: seq<Stamp>)
    ensures Unfilled(grid, []) == grid
    decreases |grid|
  {
    if |grid| > 0 {
      NothingFilled(grid[1..]);
    }
  }

  /** A merged row that is no station row is the empty row of a slot no
      station row has. */
  lemma MergeBlankRow(grid: seq<Stamp>, obs: seq<Obs>, width: nat, x: Obs)
    requires Increasing(grid) && SortedObs(obs)
    requires x in MergeJoin(grid, obs, width) && x !in obs
    ensures x.key in grid && x.values == Blank(width)
    ensures forall o :: o in obs ==> o.key != x.key
  {
    MergeMembers(grid, obs, width, x);
    forall o | o in obs ensures o.key != x.key {
      var i :| 0 <= i < |obs| && obs[i] == o;
    }
  }

  /** A merged row is a station row or the empty row of an unfilled slot. */
  lemma {:induction false} MergeMembers(grid: seq<Stamp>, obs: seq<Obs>, width: nat, y: Obs)
    requires Increasing(grid) && SortedObs(obs)
    requires y in MergeJoin(grid, obs, width)
    ensures y in obs || (y.key in grid && !Filled(y.key, obs) && y.values == Blank(width))
  {
    var r := MergeJoin(grid, obs, width);
    assert y in multiset(r);
    if y !in obs {
      assert y in multiset(BlankRows(Unfilled(grid, obs), width));
    }
  }

  /** A bound below every slot and every station row is below every merged
      row. */
  lemma {:induction false} MergeLowerBound(grid: seq<Stamp>, obs: seq<Obs>, width: nat, b: Stamp)
    requires Increasing(grid) && SortedObs(obs)
    requires forall k :: 0 <= k < |grid| ==> StampLeq(b, grid[k])
    requires forall k :: 0 <= k < |obs| ==> StampLeq(b, obs[k].key)
    ensures forall y :: y in MergeJoin(grid, obs, width) ==> StampLeq(b, y.key)
  {
    forall y | y in MergeJoin(grid, obs, width) ensures StampLeq(b, y.key) {
      MergeMembers(grid, obs, width, y);
    }
  }

  lemma {:induction false} RowFirstBound(grid: seq<Stamp>, obs: seq<Obs>)
    requires Increasing(grid) && SortedObs(obs) && |grid| > 0 && |obs| > 0
    requires StampLess(obs[0].key, grid[0])
    ensures forall k :: 0 <= k < |grid| ==> StampLeq(obs[0].key, grid[k])
    ensures forall k :: 0 <= k < |obs| - 1 ==> StampLeq(obs[0].key, obs[1..][k].key)
  {
    forall k | 0 <= k < |grid| ensures StampLeq(obs[0].key, grid[k]) {
      assert k == 0 || StampLess(grid[0], grid[k]);
    }
    forall k | 0 <= k < |obs| - 1 ensures StampLeq(obs[0].key, obs[1..][k].key) {
      assert obs[1..][k] == obs[k + 1];
    }
  }

  lemma {:induction false} SlotBound(grid: seq<Stamp>, obs: seq<Obs>)
    requires Increasing(grid) && SortedObs(obs) && |grid| > 0 && |obs| > 0
    requires StampLeq(grid[0], obs[0].key)
    ensures forall k :: 0 <= k < |grid| - 1 ==> StampLeq(grid[0], grid[1..][k])
    ensures forall k :: 0 <= k < |obs| ==> StampLeq(grid[0], obs[k].key)
    ensures forall k :: 0 <= k < |obs| - 1 ==> StampLeq(grid[0], obs[1..][k].key)
  {
    forall k | 0 <= k < |grid| - 1 ensures StampLeq(grid[0], grid[1..][k]) {
      assert grid[1..][k] == grid[k + 1];
    }
    forall k | 0 <= k < |obs| ensures StampLeq(grid[0], obs[k].key) {
      assert k == 0 || StampLeq(obs[0].key, obs[k].key);
    }
    forall k | 0 <= k < |obs| - 1 ensures StampLeq(grid[0], obs[1..][k].key) {
      assert obs[1..][k] == obs[k + 1];
    }
  }

  /** The merged frame is ordered by time stamp. */
  lemma {:induction false} MergeJoinSorted(grid: seq<Stamp>, obs: seq<Obs>, width: nat)
    requires Increasing(grid) && SortedObs(obs)
    ensures SortedObs(MergeJoin(grid, obs, width))
    decreases |grid| + |obs|
  {
    TailsStayOrdered(grid, obs);
    if |obs| == 0 {
      var r := BlankRows(grid, width);
      assert MergeJoin(grid, obs, width) == r;
      forall i, j | 0 <= i < j < |r| ensures StampLeq(r[i].key, r[j].key) {
        assert r[i] in r && r[j] in r;
      }
    } else if |grid| > 0 {
      if StampLess(obs[0].key, grid[0]) {
        RowFirstBound(grid, obs);
        MergeJoinSorted(grid, obs[1..], width);
        MergeLowerBound(grid, obs[1..], width, obs[0].key);
        ConsSorted(obs[0], MergeJoin(grid, obs[1..], width));
      } else if obs[0].key == grid[0] {
        SlotBound(grid, obs);
        MergeJoinSorted(grid[1..], obs[1..], width);
        MergeLowerBound(grid[1..], obs[1..], width, obs[0].key);
        ConsSorted(obs[0], MergeJoin(grid[1..], obs[1..], width));
      } else {
        SlotBound(grid, obs);
        MergeJoinSorted(grid[1..], obs, width);
        MergeLowerBound(grid[1..], obs, width, grid[0]);
        ConsSorted(Obs(grid[0], Blank(width)), MergeJoin(grid[1..], obs, width));
      }
    }
  }

  /** Every slot of the grid is in the merged frame. */
  lemma {:induction false} MergeCovers(grid: seq<Stamp>, obs: seq<Obs>, width: nat, g: Stamp)
    requires Increasing(grid) && SortedObs(obs) && g in grid
    ensures exists k :: 0 <= k < |MergeJoin(grid, obs, width)| && MergeJoin(grid, obs, width)[k].key == g
  {
    var r := MergeJoin(grid, obs, width);
    var y := Obs(g, Blank(width));
    if Filled(g, obs) {
      var i :| 0 <= i < |obs| && obs[i].key == g;
      y := obs[i];
    } else {
      assert y in BlankRows(Unfilled(grid, obs), width);
    }
    assert y in multiset(r);
    var k :| 0 <= k < |r| && r[k] == y;
  }

  /** Every station row survives the merge. */
  lemma {:induction false} MergeKeeps(grid: seq<Stamp>, obs: seq<Obs>, width: nat, o: Obs)
    requires Increasing(grid) && SortedObs(obs) && o in obs
    ensures o in MergeJoin(grid, obs, width)
  {
    assert o in multiset(MergeJoin(grid, obs, width));
  }

  /** The merged frame has one row per station row plus one per unfilled
      slot. */
  lemma {:induction false} MergeLength(grid: seq<Stamp>, obs: seq<Obs>, width: nat)
    requires Increasing(grid) && SortedObs(obs)
    ensures |MergeJoin(grid, obs, width)| == |obs| + |Unfilled(grid, obs)|
  {
    var r := MergeJoin(grid, obs, width);
    assert |multiset(r)| == |r|;
  }
}
