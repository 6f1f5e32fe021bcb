/** The station metadata store and the station classifier: a record is
    found by its code, and its `ico` (network) and `estado` (operating mode)
    flags name one of the station classes, each with a fixed column list. */
module Stations {
  import opened Wrappers
  import opened Text

  /** One dictionary of the metadata store. Only `cod_old` may be missing;
      `alt` is absent until the altitude page has been read. */
  datatype StationRecord = StationRecord(
    cod: string,
    ico: string,
    estado: string,
    cate: string,
    codOld: Option<string>,
    alt: Option<string>)

  // ---------------------------------------------------------------------
  // Lookup by code
  // ---------------------------------------------------------------------

  /** `[dic for dic in metadata_db if dic['cod'] == str(station_code)]`. */
  function Matches(db: seq<StationRecord>, code: string): (r: seq<StationRecord>)
    ensures forall x :: x in r <==> x in db && x.cod == code
    ensures |r| <= |db|
    decreases |db|
  {
    if |db| == 0 then []
    else (if db[0].cod == code then [db[0]] else []) + Matches(db[1..], code)
  }

  /** The search of `download_data` and `gaugestation_clasification`: any
      number of matches other than one raises. */
  function Lookup(db: seq<StationRecord>, code: string): (r: Result<StationRecord>)
    ensures r.Ok? ==> r.value in db && r.value.cod == code
    ensures r.Err? ==> r.error == DuplicatedStationCode
  {
    var found := Matches(db, code);
    if |found| != 1 then Err(DuplicatedStationCode) else Ok(found[0])
  }

  /** Exactly one record carries the code at position `i`. */
  predicate UniqueAt(db: seq<StationRecord>, code: string, i: int) {
    0 <= i < |db| && db[i].cod == code && forall j :: 0 <= j < |db| && j != i ==> db[j].cod != code
  }

  /** The lookup succeeds exactly when a single position of the store holds
      the code, and then it returns that record; zero matches fail as well
      as duplicates. */
  lemma {:induction false} LookupExactlyOne(db: seq<StationRecord>, code: string)
    ensures Lookup(db, code).Ok? <==> exists i :: UniqueAt(db, code, i)
    ensures forall i :: UniqueAt(db, code, i) ==> Lookup(db, code) == Ok(db[i])
    decreases |db|
  {
    if |db| > 0 {
      var tail := db[1..];
      LookupExactlyOne(tail, code);
      var rest := Matches(tail, code);
      assert forall i :: 1 <= i < |db| ==> (UniqueAt(db, code, i) <==> db[0].cod != code && UniqueAt(tail, code, i - 1)) by {
        forall i | 1 <= i < |db|
          ensures UniqueAt(db, code, i) <==> db[0].cod != code && UniqueAt(tail, code, i - 1)
        {
          if UniqueAt(db, code, i) {
            forall j | 0 <= j < |tail| && j != i - 1 ensures tail[j].cod != code {
              assert tail[j] == db[j + 1];
            }
          }
          if db[0].cod != code && UniqueAt(tail, code, i - 1) {
            forall j | 0 <= j < |db| && j != i ensures db[j].cod != code {
              if j > 0 { assert db[j] == tail[j - 1]; }
            }
          }
        }
      }
      if db[0].cod == code {
        assert Matches(db, code) == [db[0]] + rest;
        if |rest| == 0 {
          assert UniqueAt(db, code, 0) by {
            forall j | 0 <= j < |db| && j != 0 ensures db[j].cod != code {
              assert db[j] in tail;
            }
          }
        } else {
          assert rest[0] in tail && rest[0].cod == code;
          var k :| 0 <= k < |tail| && tail[k] == rest[0];
          assert db[k + 1].cod == code;
          assert !UniqueAt(db, code, 0);
        }
      } else {
        assert Matches(db, code) == rest;
        assert !UniqueAt(db, code, 0);
        if exists k :: UniqueAt(tail, code, k) {
          var k :| UniqueAt(tail, code, k);
          assert UniqueAt(db, code, k + 1);
        }
        forall i | UniqueAt(db, code, i) ensures Lookup(db, code) == Ok(db[i]) {
          assert UniqueAt(tail, code, i - 1);
          assert tail[i - 1] == db[i];
        }
      }
    }
  }

  // ---------------------------------------------------------------------
  // Classification
  // ---------------------------------------------------------------------

  /** `var_01`: 'meteo' for a meteorological station, 'hidro' for a
      hydrological one. */
  function NetworkToken(ico: string): Result<string> {
    if ico == "M" then Ok("meteo")
    else if ico == "H" then Ok("hidro")
    else Err(UnknownIco)
  }

  /** `var_02`: the operating mode. */
  function ModeToken(estado: string): Result<string> {
    if estado == "DIFERIDO" then Ok("manual_deferred")
    else if estado == "REAL" then Ok("manual_realtime")
    else if estado == "AUTOMATICA" then Ok("automatic")
    else Err(UnknownEstado)
  }

  /** The class identifier `'%s_%s' % (var_01, var_02)`; `ico` is checked
      before `estado`. */
  function StationClass(rec: StationRecord): Result<string> {
    var network :- NetworkToken(rec.ico);
    var mode :- ModeToken(rec.estado);
    Ok(network + "_" + mode)
  }

  /** The dictionary `variables_by_typestation`. */
  const VariablesByTypestation: map<string, seq<string>> := map[
    "meteo_manual_realtime" := ["DATE", "TX", "TN", "HUM", "PREC_D"],
    "meteo_manual_deferred" := ["DATE", "TX", "TN", "HUM", "PREC_D"],
    "meteo_automatic" := ["DATE", "HOUR", "TEMP", "PREC_H", "HUM", "W_DIR", "W_VEL"],
    "hidro_manual_realtime" := ["DATE", "LEVEL_06", "LEVEL_10", "LEVEL_14", "LEVEL_18"],
    "hidro_manual_deferred" := ["DATE", "HOUR", "LEVEL", "PREC_H"]
  ]

  /** The column list of a record's class; a class that is not a key of the
      dictionary raises `KeyError`. */
  function ColumnsOf(rec: StationRecord): Result<seq<string>> {
    var id :- StationClass(rec);
    if id in VariablesByTypestation then Ok(VariablesByTypestation[id]) else Err(MissingSchema)
  }

  /** What `gaugestation_clasification` returns: the column list, or with
      `return_type=False` the class identifier itself. */
  datatype Classification = Columns(names: seq<string>) | ClassName(id: string)

  /** `gaugestation_clasification(station_code, return_type)`: look the code
      up, then classify. */
  function GaugestationClasification(db: seq<StationRecord>, code: string, returnType: bool): (r: Result<Classification>)
    ensures Lookup(db, code).Err? ==> r == Err(DuplicatedStationCode)
    ensures Lookup(db, code).Ok? && StationClass(Lookup(db, code).value).Err? ==> r.Err? && r.error != DuplicatedStationCode
    ensures r.Ok? && returnType ==> r.value.Columns? && |r.value.names| >= 4 && r.value.names[0] == "DATE"
    ensures r.Ok? && !returnType ==> r.value.ClassName? && r.value.id in ClassNames
    ensures Lookup(db, code).Ok? ==>
              var rec := Lookup(db, code).value;
              (!KnownIco(rec.ico) ==> r == Err(UnknownIco))
              && (KnownIco(rec.ico) && !KnownEstado(rec.estado) ==> r == Err(UnknownEstado))
    ensures Lookup(db, code).Ok? && returnType ==>
              var rec := Lookup(db, code).value;
              (r.Ok? <==> ColumnsOf(rec).Ok?)
              && (r.Ok? ==> r.value == Columns(ColumnsOf(rec).value))
              && (r.Err? ==> r.error == ColumnsOf(rec).error)
              && (rec.ico == "H" && rec.estado == "AUTOMATICA" ==> r == Err(MissingSchema))
    ensures Lookup(db, code).Ok? && !returnType ==>
              var rec := Lookup(db, code).value;
              (r.Ok? <==> KnownIco(rec.ico) && KnownEstado(rec.estado))
              && (r.Ok? ==> r.value == ClassName(StationClass(rec).value)
                            && FlagsOf(r.value.id) == Some((rec.ico, rec.estado)))
  {
    var rec :- Lookup(db, code);
    ClassesCovered(rec);
    ColumnsByFlags(rec);
    assert StationClass(rec).Ok? ==> FlagsOf(StationClass(rec).value) == Some((rec.ico, rec.estado)) by {
      if StationClass(rec).Ok? {
        StationClassInjective(rec);
      }
    }
    if returnType then
      var cols :- ColumnsOf(rec);
      Ok(Columns(cols))
    else
      var id :- StationClass(rec);
      Ok(ClassName(id))
  }

  /** The six identifiers the classifier can build. */
  const ClassNames: set<string> := {
    "meteo_manual_deferred", "meteo_manual_realtime", "meteo_automatic",
    "hidro_manual_deferred", "hidro_manual_realtime", "hidro_automatic"
  }

  predicate KnownIco(ico: string) { ico == "M" || ico == "H" }

  predicate KnownEstado(estado: string) {
    estado == "DIFERIDO" || estado == "REAL" || estado == "AUTOMATICA"
  }

  /** The identifier is `network + '_' + mode`, one of the six names, and the
      only failures are an unknown `ico` (checked first) or `estado`. */
  lemma ClassesCovered(rec: StationRecord)
    ensures !KnownIco(rec.ico) ==> StationClass(rec) == Err(UnknownIco)
    ensures KnownIco(rec.ico) && !KnownEstado(rec.estado) ==> StationClass(rec) == Err(UnknownEstado)
    ensures KnownIco(rec.ico) && KnownEstado(rec.estado) ==>
              StationClass(rec).Ok? && StationClass(rec).value in ClassNames
    ensures ColumnsOf(rec).Ok? ==> |ColumnsOf(rec).value| >= 4 && ColumnsOf(rec).value[0] == "DATE"
  {
    ClassNameSpelling();
  }

  /** The six identifiers `'%s_%s'` spells out. */
  lemma ClassNameSpelling()
    ensures "meteo" + "_" + "manual_deferred" == "meteo_manual_deferred"
    ensures "meteo" + "_" + "manual_realtime" == "meteo_manual_realtime"
    ensures "meteo" + "_" + "automatic" == "meteo_automatic"
    ensures "hidro" + "_" + "manual_deferred" == "hidro_manual_deferred"
    ensures "hidro" + "_" + "manual_realtime" == "hidro_manual_realtime"
    ensures "hidro" + "_" + "automatic" == "hidro_automatic"
  {
  }

  /** The flags back from an identifier: the inverse of `StationClass`. */
  function FlagsOf(id: string): Option<(string, string)> {
    if id == "meteo_manual_deferred" then Some(("M", "DIFERIDO"))
    else if id == "meteo_manual_realtime" then Some(("M", "REAL"))
    else if id == "meteo_automatic" then Some(("M", "AUTOMATICA"))
    else if id == "hidro_manual_deferred" then Some(("H", "DIFERIDO"))
    else if id == "hidro_manual_realtime" then Some(("H", "REAL"))
    else if id == "hidro_automatic" then Some(("H", "AUTOMATICA"))
    else None
  }

  /** Distinct flag pairs give distinct identifiers: the identifier
      determines the pair it was built from. */
  lemma StationClassInjective(rec: StationRecord)
    requires StationClass(rec).Ok?
    ensures FlagsOf(StationClass(rec).value) == Some((rec.ico, rec.estado))
  {
    ClassNameSpelling();
  }

  /** The column lists per flag pair, as the dictionary gives them. The two
      manual meteorological classes share one list, and the hydrological
      automatic class has no entry, so its lookup raises. */
  lemma ColumnsByFlags(rec: StationRecord)
    ensures rec.ico == "M" && (rec.estado == "REAL" || rec.estado == "DIFERIDO") ==>
              ColumnsOf(rec) == Ok(["DATE", "TX", "TN", "HUM", "PREC_D"])
    ensures rec.ico == "M" && rec.estado == "AUTOMATICA" ==>
              ColumnsOf(rec) == Ok(["DATE", "HOUR", "TEMP", "PREC_H", "HUM", "W_DIR", "W_VEL"])
    ensures rec.ico == "H" && rec.estado == "REAL" ==>
              ColumnsOf(rec) == Ok(["DATE", "LEVEL_06", "LEVEL_10", "LEVEL_14", "LEVEL_18"])
    ensures rec.ico == "H" && rec.estado == "DIFERIDO" ==>
              ColumnsOf(rec) == Ok(["DATE", "HOUR", "LEVEL", "PREC_H"])
    ensures rec.ico == "H" && rec.estado == "AUTOMATICA" ==> ColumnsOf(rec) == Err(MissingSchema)
  {
    ClassNameSpelling();
  }
}
