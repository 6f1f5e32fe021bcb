/** `add_altitude`: the station page is asked for with the station's flags,
    and the altitude is the first word of the last table cell that mentions
    "msnm" (metres above sea level). */
module Altitude {
  import opened Wrappers
  import opened Text
  import opened Stations

  /** A query string as the key/value pairs it is formatted from, in order. */
  type Query = seq<(string, string)>

  /** What `str.format` writes for an argument that may be `None`. */
  function Formatted(value: Option<string>): (s: string)
    ensures value.Some? ==> s == value.value
    ensures value.None? ==> s == "None"
  {
    match value
    case Some(v) => v
    case None => "None"
  }

  predicate HasKey(q: Query, key: string) {
    exists i :: 0 <= i < |q| && q[i].0 == key
  }

  /** The query of `map_red_graf.php` built from a record: `cod_old` is sent
      for every station except an automatic one, and a record without an old
      code sends the text "None". */
  function AltitudeQuery(rec: StationRecord): (q: Query)
    ensures |q| >= 4 && q[0] == ("cod", rec.cod) && q[1] == ("estado", rec.estado)
    ensures q[2] == ("tipo_esta", rec.ico) && q[3] == ("cate", rec.cate)
    ensures HasKey(q, "cod_old") <==> rec.estado != "AUTOMATICA"
    ensures rec.estado != "AUTOMATICA" ==> q[4] == ("cod_old", Formatted(rec.codOld))
  {
    var common := [("cod", rec.cod), ("estado", rec.estado), ("tipo_esta", rec.ico), ("cate", rec.cate)];
    assert !HasKey(common, "cod_old");
    if rec.estado == "AUTOMATICA" then common
    else
      var q := common + [("cod_old", Formatted(rec.codOld))];
      assert q[4].0 == "cod_old";
      q
  }

  /** One `<td>` of the page: how many child nodes it has (`len(s)`) and its
      text. */
  datatype TableCell = TableCell(children: nat, text: string)

  /** A cell the loop takes the altitude from. */
  predicate Mentions(c: TableCell) {
    c.children > 0 && Contains(c.text, "msnm")
  }

  /** `s.text.split(" ")[0]`. */
  function FirstWord(text: string): string {
    Split(text, ' ')[0]
  }

  /** The value `alt` holds after the loop: the first word of the last cell
      that mentions "msnm", or nothing when no cell does. */
  function LastAltitude(cells: seq<TableCell>): (alt: Option<string>)
    ensures alt.None? <==> forall i :: 0 <= i < |cells| ==> !Mentions(cells[i])
    ensures alt.Some? ==> exists i :: 0 <= i < |cells| && Mentions(cells[i]) && alt.value == FirstWord(cells[i].text)
                                 && forall j :: i < j < |cells| ==> !Mentions(cells[j])
    decreases |cells|
  {
    if |cells| == 0 then None
    else
      var last := cells[|cells| - 1];
      if Mentions(last) then Some(FirstWord(last.text))
      else
        var earlier := LastAltitude(cells[..|cells| - 1]);
        assert forall i :: 0 <= i < |cells| - 1 ==> cells[..|cells| - 1][i] == cells[i];
        earlier
  }

  /** Any mention after another one wins: a later cell overrides an earlier
      one, whatever the earlier one said. */
  lemma LaterMentionWins(cells: seq<TableCell>, more: seq<TableCell>)
    requires exists i :: 0 <= i < |more| && Mentions(more[i])
    ensures LastAltitude(cells + more) == LastAltitude(more)
  {
    var i :| 0 <= i < |more| && Mentions(more[i]);
    MentionAtWins(cells, more, i);
  }

  lemma {:induction false} MentionAtWins(cells: seq<TableCell>, more: seq<TableCell>, i: int)
    requires 0 <= i < |more| && Mentions(more[i])
    ensures LastAltitude(cells + more) == LastAltitude(more)
    decreases |more|
  {
    var all := cells + more;
    var last := more[|more| - 1];
    assert all[|all| - 1] == last;
    if i < |more| - 1 {
      var front := more[..|more| - 1];
      assert all[..|all| - 1] == cells + front;
      assert front[i] == more[i];
      if !Mentions(last) {
        SkipsUnmentioned(all);
        SkipsUnmentioned(more);
        MentionAtWins(cells, front, i);
      }
    }
  }

  /** A last cell without a mention leaves the value of the cells before it. */
  lemma SkipsUnmentioned(cells: seq<TableCell>)
    requires |cells| > 0 && !Mentions(cells[|cells| - 1])
    ensures LastAltitude(cells) == LastAltitude(cells[..|cells| - 1])
  {
  }

  /** The loop of `add_altitude` over the cells of the page. */
  method AddAltitude(cells: seq<TableCell>) returns (alt: Option<string>)
    ensures alt == LastAltitude(cells)
  {
    alt := None;
    for i := 0 to |cells|
      invariant alt == LastAltitude(cells[..i])
    {
      assert cells[..i + 1][..i] == cells[..i];
      if cells[i].children > 0 {
        if Contains(cells[i].text, "msnm") {
          alt := Some(FirstWord(cells[i].text));
        }
      }
    }
    assert cells[..|cells|] == cells;
  }
}
