/**
 * `Response.to_jetset`: the arguments are validated first (all-or-nothing,
 * every invalid argument named), then the flat table is rebuilt under the
 * column names and metadata keys that jetset's data loader reads.
 */
module Jetset {
  import opened Wrappers
  import opened Json
  import opened Schema
  import opened Registry
  import opened Tables
  import opened Projection

  /** The largest finite float64, which `nan_to_num` substitutes for +inf. */
  const MAX_FLOAT64: real := 179769313486231570814527423731704356798070567525844996598917476803157260780028538760589558632766878171540458953514382464234321326889464182768467546703537516986049910576551282076245490090389328944075868508455133942304583236903222948165808559332123348274797826204144723168738177180919299881250404026184124858368.0

  /** The validated arguments of the conversion. */
  datatype Params = Params(z: Float, ulCl: Float, restframe: string, dataScale: string, objName: string)

  /** A float argument with `ge=0.0, le=1.0`. */
  predicate InUnitInterval(v: Value)
  {
    v.Num? && AtLeast(v.n, 0.0) && AtMost(v.n, 1.0)
  }

  predicate IsRestframe(v: Value)
  {
    v.Str? && (v.s == "obs" || v.s == "src")
  }

  predicate IsDataScale(v: Value)
  {
    v.Str? && (v.s == "lin-lin" || v.s == "log-log")
  }

  /** The arguments of the conversion, in parameter order. */
  datatype Argument = Z | UlCl | Restframe | DataScale | ObjName

  /** `[a]` when the argument is invalid, nothing otherwise. */
  function Complaint(valid: bool, a: Argument): (r: seq<Argument>)
    ensures a in r <==> !valid
    ensures forall b :: b in r ==> b == a
  {
    if valid then [] else [a]
  }

  /**
   * Argument validation: either every argument is valid and the payloads are
   * returned, or the invalid arguments are listed in parameter order.
   */
  function ValidateArguments(z: Value, ulCl: Value, restframe: Value, dataScale: Value, objName: Value)
    : (r: Result<Params, seq<Argument>>)
    ensures r.Success? <==>
      InUnitInterval(z) && InUnitInterval(ulCl) && IsRestframe(restframe) && IsDataScale(dataScale) && objName.Str?
    ensures r.Success? ==> r.value == Params(z.n, ulCl.n, restframe.s, dataScale.s, objName.s)
    ensures r.Failure? ==>
      && r.error != []
      && (Z in r.error <==> !InUnitInterval(z))
      && (UlCl in r.error <==> !InUnitInterval(ulCl))
      && (Restframe in r.error <==> !IsRestframe(restframe))
      && (DataScale in r.error <==> !IsDataScale(dataScale))
      && (ObjName in r.error <==> !objName.Str?)
  {
    var invalid :=
      Complaint(InUnitInterval(z), Z) + Complaint(InUnitInterval(ulCl), UlCl)
      + Complaint(IsRestframe(restframe), Restframe) + Complaint(IsDataScale(dataScale), DataScale)
      + Complaint(objName.Str?, ObjName);
    if invalid == [] then Success(Params(z.n, ulCl.n, restframe.s, dataScale.s, objName.s))
    else Failure(invalid)
  }

  /** `np.nan_to_num(x, nan=0.0)`: NaN becomes 0, the infinities the largest finite floats. */
  function NanToNum(x: Float): (r: real)
    ensures x.Finite? ==> r == x.value
    ensures x.NaN? ==> r == 0.0
    ensures x.PosInf? ==> r == MAX_FLOAT64
    ensures x.NegInf? ==> r == -MAX_FLOAT64
  {
    match x
    case Finite(v) => v
    case NaN => 0.0
    case PosInf => MAX_FLOAT64
    case NegInf => -MAX_FLOAT64
  }

  /** A float column's bare values with `nan_to_num` applied; other cells are kept. */
  function NanToZero(cells: seq<Cell>): (r: seq<Cell>)
    ensures |r| == |cells|
    ensures forall i :: 0 <= i < |cells| && cells[i].FloatCell? ==> r[i] == FloatCell(Finite(NanToNum(cells[i].x)))
  {
    seq(|cells|, i requires 0 <= i < |cells| =>
      if cells[i].FloatCell? then FloatCell(Finite(NanToNum(cells[i].x))) else cells[i])
  }

  /**
   * After `nan_to_num` a column holds no NaN and no infinity, its other cells
   * are untouched, and a second application changes nothing.
   */
  lemma NanToZeroCleans(cells: seq<Cell>)
    ensures forall i :: 0 <= i < |cells| && NanToZero(cells)[i].FloatCell? ==> NanToZero(cells)[i].x.Finite?
    ensures forall i :: 0 <= i < |cells| && !cells[i].FloatCell? ==> NanToZero(cells)[i] == cells[i]
    ensures NanToZero(NanToZero(cells)) == NanToZero(cells)
  {
    var once := NanToZero(cells);
    forall i | 0 <= i < |cells|
      ensures NanToZero(once)[i] == once[i]
    {
      if cells[i].FloatCell? {
        assert once[i] == FloatCell(Finite(NanToNum(cells[i].x)));
      }
    }
  }

  /** An optional time as jetset receives it: absent times become 0. */
  function TimeOrZero(t: Option<Float>): real
  {
    NanToNum(Float64Of(t))
  }

  /** `c.astype(np.float64)`: the unit is kept. */
  function AsFloat64(c: Column): Column
  {
    c.(dtype := Float64)
  }

  /** The columns the conversion selects from the flat table. */
  predicate HasJetsetInputs(t: Table)
  {
    && Has(t, "Frequency") && Has(t, "FrequencyError") && Has(t, "Nufnu") && Has(t, "NufnuError")
    && Has(t, "StartTime") && Has(t, "StopTime") && Has(t, "CatalogName")
  }

  /**
   * The jetset table assembled from the seven selected columns of an `n`-row
   * flat table and the validated arguments.
   */
  function Assemble(frequency: Column, frequencyError: Column, nufnu: Column, nufnuError: Column,
                    startTime: Column, stopTime: Column, catalogName: Column, n: nat, p: Params): Table
  {
    Table(
      [ AsFloat64(frequency).(name := "x"),
        AsFloat64(frequencyError).(name := "dx"),
        AsFloat64(nufnu).(name := "y"),
        AsFloat64(nufnuError).(name := "dy"),
        Column("T_start", Float64, None, NanToZero(startTime.cells)),
        Column("T_stop", Float64, None, NanToZero(stopTime.cells)),
        Column("UL", BoolType, None, Repeat(FlagCell(false), n)),
        catalogName.(dtype := StrType, name := "dataset") ],
      map["z" := FloatMeta(p.z), "UL_CL" := FloatMeta(p.ulCl), "restframe" := TextMeta(p.restframe),
          "data_scale" := TextMeta(p.dataScale), "obj_name" := TextMeta(p.objName)])
  }

  /** What `to_jetset` returns for the flat table `t` and validated arguments `p`. */
  function JetsetTable(t: Table, p: Params): Table
    requires HasJetsetInputs(t)
  {
    Assemble(Get(t, "Frequency"), Get(t, "FrequencyError"), Get(t, "Nufnu"), Get(t, "NufnuError"),
             Get(t, "StartTime"), Get(t, "StopTime"), Get(t, "CatalogName"), Length(t), p)
  }

  /**
   * Columns of one length `n` assemble into the eight jetset columns in order,
   * each selected column keeping its unit and none on the times and flags,
   * `n` rows long.
   */
  lemma AssembledShape(frequency: Column, frequencyError: Column, nufnu: Column, nufnuError: Column,
                       startTime: Column, stopTime: Column, catalogName: Column, n: nat, p: Params)
    requires |frequency.cells| == n && |frequencyError.cells| == n && |nufnu.cells| == n
    requires |nufnuError.cells| == n && |startTime.cells| == n && |stopTime.cells| == n
    requires |catalogName.cells| == n
    ensures var out := Assemble(frequency, frequencyError, nufnu, nufnuError, startTime, stopTime, catalogName, n, p);
      && Names(out) == ["x", "dx", "y", "dy", "T_start", "T_stop", "UL", "dataset"]
      && Units(out) == [frequency.units, frequencyError.units, nufnu.units, nufnuError.units, None, None, None,
                        catalogName.units]
      && Rectangular(out) && Length(out) == n
  {
    var out := Assemble(frequency, frequencyError, nufnu, nufnuError, startTime, stopTime, catalogName, n, p);
    assert Length(out) == n;
  }

  /** The columns `to_jetset` selects, by their positions in the flat table. */
  lemma FlatSelect(t: Table)
    requires Names(t) == FLAT_NAMES
    ensures HasJetsetInputs(t)
    ensures Get(t, "Frequency") == t.columns[1] && Get(t, "Nufnu") == t.columns[2]
    ensures Get(t, "FrequencyError") == t.columns[3] && Get(t, "NufnuError") == t.columns[4]
    ensures Get(t, "StartTime") == t.columns[6] && Get(t, "StopTime") == t.columns[7]
    ensures Get(t, "CatalogName") == t.columns[9]
  {
    SelectAt(t, 1);
    SelectAt(t, 2);
    SelectAt(t, 3);
    SelectAt(t, 4);
    SelectAt(t, 6);
    SelectAt(t, 7);
    SelectAt(t, 9);
  }

  /** Every column `to_jetset` selects exists in the flat table of a response, at its registry position. */
  lemma AstropyHasJetsetInputs(r: Response)
    ensures var t := AstropyTable(r);
      && HasJetsetInputs(t)
      && Get(t, "Frequency") == t.columns[1] && Get(t, "Nufnu") == t.columns[2]
      && Get(t, "FrequencyError") == t.columns[3] && Get(t, "NufnuError") == t.columns[4]
      && Get(t, "StartTime") == t.columns[6] && Get(t, "StopTime") == t.columns[7]
      && Get(t, "CatalogName") == t.columns[9]
  {
    AstropyColumns(r);
    FlatSelect(AstropyTable(r));
  }

  /** The frequency and flux columns of the flat table carry their registry units. */
  lemma AstropyInputUnits(r: Response)
    ensures var t := AstropyTable(r);
      && HasJetsetInputs(t)
      && Get(t, "Frequency").units == Some(Hz) && Get(t, "FrequencyError").units == Some(Hz)
      && Get(t, "Nufnu").units == Some(ErgPerSquareCmPerSecond)
      && Get(t, "NufnuError").units == Some(ErgPerSquareCmPerSecond)
      && Get(t, "CatalogName").units == None
  {
    var all := Columns("all");
    assert all[1] == FREQUENCY && all[2] == NUFNU && all[3] == FREQUENCY_ERROR && all[4] == NUFNU_ERROR;
    assert all[9] == CATALOG;
    AstropyColumns(r);
    AstropyHasJetsetInputs(r);
  }

  /**
   * The body of the conversion after validation: adds the jetset columns of the
   * flat table `t` one by one to an empty table, then sets the metadata.
   */
  method FromAstropy(t: Table, p: Params) returns (table: Table)
    requires HasJetsetInputs(t)
    ensures table == JetsetTable(t, p)
  {
    var frequency, frequencyError := Get(t, "Frequency"), Get(t, "FrequencyError");
    var nufnu, nufnuError := Get(t, "Nufnu"), Get(t, "NufnuError");
    var startTime, stopTime, catalogName := Get(t, "StartTime"), Get(t, "StopTime"), Get(t, "CatalogName");
    table := Table([], map[]);
    table := AddColumn(table, AsFloat64(frequency).(name := "x"));
    table := AddColumn(table, AsFloat64(frequencyError).(name := "dx"));
    table := AddColumn(table, AsFloat64(nufnu).(name := "y"));
    table := AddColumn(table, AsFloat64(nufnuError).(name := "dy"));
    table := AddColumn(table, Column("T_start", Float64, None, NanToZero(startTime.cells)));
    table := AddColumn(table, Column("T_stop", Float64, None, NanToZero(stopTime.cells)));
    table := AddColumn(table, Column("UL", BoolType, None, Repeat(FlagCell(false), Length(t))));
    table := AddColumn(table, catalogName.(dtype := StrType, name := "dataset"));
    assert table.columns == Assemble(frequency, frequencyError, nufnu, nufnuError, startTime, stopTime,
                                     catalogName, Length(t), p).columns;
    table := SetMeta(table, "z", FloatMeta(p.z));
    table := SetMeta(table, "UL_CL", FloatMeta(p.ulCl));
    table := SetMeta(table, "restframe", TextMeta(p.restframe));
    table := SetMeta(table, "data_scale", TextMeta(p.dataScale));
    table := SetMeta(table, "obj_name", TextMeta(p.objName));
  }

  /**
   * `to_jetset`: validates the arguments first, reporting every invalid one,
   * and only then builds the flat table and converts it.
   */
  method ToJetset(r: Response, z: Value, ulCl: Value := Num(Finite(0.95)), restframe: Value := Str("obs"),
                  dataScale: Value := Str("lin-lin"), objName: Value := Str("new-src"))
    returns (result: Result<Table, seq<Argument>>)
    ensures var args := ValidateArguments(z, ulCl, restframe, dataScale, objName);
      && (result.Failure? <==> args.Failure?)
      && (result.Failure? ==> result.error == args.error)
      && (result.Success? ==>
            HasJetsetInputs(AstropyTable(r)) && result.value == JetsetTable(AstropyTable(r), args.value))
  {
    var args := ValidateArguments(z, ulCl, restframe, dataScale, objName);
    if args.Failure? {
      return Failure(args.error);
    }
    var t := ToAstropy(r);
    AstropyHasJetsetInputs(r);
    var table := FromAstropy(t, args.value);
    return Success(table);
  }

  // ---------------------------------------------------------------- properties of the output

  /**
   * For any table holding the input columns, all of one length: the eight
   * jetset columns in order, the selected columns' units kept and none on the
   * times, and one row per input row.
   */
  lemma JetsetShape(t: Table, p: Params)
    requires HasJetsetInputs(t) && Rectangular(t)
    ensures var out := JetsetTable(t, p);
      && Names(out) == ["x", "dx", "y", "dy", "T_start", "T_stop", "UL", "dataset"]
      && Units(out) == [Get(t, "Frequency").units, Get(t, "FrequencyError").units,
                        Get(t, "Nufnu").units, Get(t, "NufnuError").units, None, None, None,
                        Get(t, "CatalogName").units]
      && Rectangular(out) && Length(out) == Length(t)
  {
    AssembledShape(Get(t, "Frequency"), Get(t, "FrequencyError"), Get(t, "Nufnu"), Get(t, "NufnuError"),
                   Get(t, "StartTime"), Get(t, "StopTime"), Get(t, "CatalogName"), Length(t), p);
  }

  /** Row `i` of the jetset table, for any table holding the input columns. */
  lemma JetsetRowOf(t: Table, p: Params, i: nat)
    requires HasJetsetInputs(t) && Rectangular(t) && i < Length(t)
    ensures var out := JetsetTable(t, p);
      && Rectangular(out) && i < Length(out)
      && RowAt(out, i) == [
           Get(t, "Frequency").cells[i], Get(t, "FrequencyError").cells[i],
           Get(t, "Nufnu").cells[i], Get(t, "NufnuError").cells[i],
           NanToZero(Get(t, "StartTime").cells)[i], NanToZero(Get(t, "StopTime").cells)[i],
           FlagCell(false), Get(t, "CatalogName").cells[i]]
  {
    JetsetShape(t, p);
  }

  /** The columns `to_jetset` reads from the flat table: their units, and each row's cells. */
  lemma AstropyInputs(r: Response, i: nat)
    requires i < |DataRows(r.catalogs)|
    ensures var t := AstropyTable(r);
      && HasJetsetInputs(t) && Rectangular(t) && i < Length(t)
      && Get(t, "Frequency").cells[i] == FloatCell(DataRows(r.catalogs)[i].frequency)
      && Get(t, "FrequencyError").cells[i] == FloatCell(DataRows(r.catalogs)[i].frequencyError)
      && Get(t, "Nufnu").cells[i] == FloatCell(DataRows(r.catalogs)[i].nufnu)
      && Get(t, "NufnuError").cells[i] == FloatCell(DataRows(r.catalogs)[i].nufnuError)
      && Get(t, "StartTime").cells[i] == FloatCell(Float64Of(DataRows(r.catalogs)[i].startTime))
      && Get(t, "StopTime").cells[i] == FloatCell(Float64Of(DataRows(r.catalogs)[i].stopTime))
      && Get(t, "CatalogName").cells[i] == TextCell(Some(CatalogRows(r.catalogs)[i].catalogName))
  {
    var t := AstropyTable(r);
    AstropyHasJetsetInputs(r);
    AstropyRowIs(r, i);
    var row := RowAt(t, i);
    assert row[1] == t.columns[1].cells[i] && row[2] == t.columns[2].cells[i];
    assert row[3] == t.columns[3].cells[i] && row[4] == t.columns[4].cells[i];
    assert row[6] == t.columns[6].cells[i] && row[7] == t.columns[7].cells[i];
    assert row[9] == t.columns[9].cells[i];
  }

  /**
   * The jetset columns of a response: frequencies in Hz, fluxes in erg/cm^2/s,
   * no unit elsewhere, and one row per measurement.
   */
  lemma JetsetLayout(r: Response, p: Params)
    ensures HasJetsetInputs(AstropyTable(r))
    ensures var out := JetsetTable(AstropyTable(r), p);
      && Names(out) == ["x", "dx", "y", "dy", "T_start", "T_stop", "UL", "dataset"]
      && Units(out) == [Some(Hz), Some(Hz), Some(ErgPerSquareCmPerSecond), Some(ErgPerSquareCmPerSecond),
                        None, None, None, None]
      && Rectangular(out) && Length(out) == TotalMeasurements(r.catalogs)
  {
    AstropyInputUnits(r);
    AstropyColumns(r);
    JetsetShape(AstropyTable(r), p);
  }

  /**
   * The metadata of the jetset table is the five arguments, whatever the flat
   * table's own metadata: its `Nh` entry is not carried over.
   */
  lemma JetsetMetadata(t: Table, p: Params)
    requires HasJetsetInputs(t)
    ensures var out := JetsetTable(t, p);
      && out.meta.Keys == {"z", "UL_CL", "restframe", "data_scale", "obj_name"}
      && "Nh" !in out.meta
      && out.meta["z"] == FloatMeta(p.z) && out.meta["UL_CL"] == FloatMeta(p.ulCl)
      && out.meta["restframe"] == TextMeta(p.restframe) && out.meta["data_scale"] == TextMeta(p.dataScale)
      && out.meta["obj_name"] == TextMeta(p.objName)
  {
  }

  /** The jetset row of a measurement from a catalog, written out column by column. */
  function JetsetRow(d: SourceData, c: Catalog): seq<Cell>
  {
    [ FloatCell(d.frequency), FloatCell(d.frequencyError), FloatCell(d.nufnu), FloatCell(d.nufnuError),
      FloatCell(Finite(TimeOrZero(d.startTime))), FloatCell(Finite(TimeOrZero(d.stopTime))),
      FlagCell(false), TextCell(Some(c.catalogName)) ]
  }

  /** Row `i` of the jetset table comes from the `i`-th measurement and its catalog. */
  lemma JetsetRowIs(r: Response, p: Params, i: nat)
    requires i < |DataRows(r.catalogs)|
    ensures HasJetsetInputs(AstropyTable(r))
    ensures var out := JetsetTable(AstropyTable(r), p);
      && Rectangular(out) && i < Length(out)
      && RowAt(out, i) == JetsetRow(DataRows(r.catalogs)[i], CatalogRows(r.catalogs)[i])
  {
    AstropyInputs(r, i);
    JetsetRowOf(AstropyTable(r), p, i);
  }

  /** A time the schema admits reaches jetset as a non-negative number, and an absent one as 0. */
  lemma TimeOrZeroNonNegative(t: Option<Float>)
    requires t.Some? ==> AtLeast(t.value, 0.0)
    ensures TimeOrZero(t) >= 0.0
    ensures t.None? ==> TimeOrZero(t) == 0.0
    ensures t.Some? && t.value.Finite? ==> TimeOrZero(t) == t.value.value
  {
  }

  // ---------------------------------------------------------------- argument examples

  /** The default arguments are valid for any redshift in [0, 1]. */
  lemma DefaultsAccepted(z: real)
    requires 0.0 <= z <= 1.0
    ensures ValidateArguments(Num(Finite(z)), Num(Finite(0.95)), Str("obs"), Str("lin-lin"), Str("new-src"))
            == Success(Params(Finite(z), Finite(0.95), "obs", "lin-lin", "new-src"))
  {
    assert IsRestframe(Str("obs")) && IsDataScale(Str("lin-lin"));
  }

  /** Both ends of the unit interval are accepted for `ul_cl`, and an empty object name is accepted. */
  lemma InclusiveBoundsAndEmptyName()
    ensures ValidateArguments(Num(Finite(0.0)), Num(Finite(0.0)), Str("src"), Str("log-log"), Str("")).Success?
    ensures ValidateArguments(Num(Finite(1.0)), Num(Finite(1.0)), Str("obs"), Str("lin-lin"), Str("x")).Success?
  {
    assert IsRestframe(Str("src")) && IsDataScale(Str("log-log"));
    assert IsRestframe(Str("obs")) && IsDataScale(Str("lin-lin"));
  }

  /** A redshift above 1 is rejected and named alone. */
  lemma RedshiftAboveOneRejected()
    ensures ValidateArguments(Num(Finite(1.5)), Num(Finite(0.95)), Str("obs"), Str("lin-lin"), Str("s"))
            == Failure([Z])
  {
    assert IsRestframe(Str("obs")) && IsDataScale(Str("lin-lin"));
    assert [Z] + [] + [] + [] + [] == [Z];
  }

  /** A negative redshift and a NaN confidence level are both named. */
  lemma NegativeAndNaNRejected()
    ensures ValidateArguments(Num(Finite(-0.1)), Num(NaN), Str("obs"), Str("lin-lin"), Str("s"))
            == Failure([Z, UlCl])
  {
    assert IsRestframe(Str("obs")) && IsDataScale(Str("lin-lin"));
    assert [Z] + [UlCl] + [] + [] + [] == [Z, UlCl];
  }

  /** The long spellings "observed" and "linear" are not among the literals. */
  lemma LongSpellingsRejected()
    ensures ValidateArguments(Num(Finite(0.1)), Num(Finite(0.95)), Str("observed"), Str("linear"), Str("s"))
            == Failure([Restframe, DataScale])
  {
    assert !IsRestframe(Str("observed")) && !IsDataScale(Str("linear"));
    assert [] + [] + [Restframe] + [DataScale] + [] == [Restframe, DataScale];
  }

  /** Every invalid argument is named, in parameter order, including an infinite redshift. */
  lemma AllInvalidNamedInOrder()
    ensures ValidateArguments(Num(PosInf), Num(Finite(1.01)), Str("source"), Null, Num(Finite(1.0)))
            == Failure([Z, UlCl, Restframe, DataScale, ObjName])
  {
    assert !IsRestframe(Str("source"));
    assert [Z] + [UlCl] + [Restframe] + [DataScale] + [ObjName] == [Z, UlCl, Restframe, DataScale, ObjName];
  }
}
