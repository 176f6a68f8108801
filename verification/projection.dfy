/**
 * The flat-table projection of a validated response (`to_astropy`): one row
 * per measurement, catalog by catalog and row by row, with the enclosing
 * catalog's name and error radius copied onto it; stubs are dropped. Columns
 * follow the registry and `Nh` goes into the metadata.
 */
module Projection {
  import opened Wrappers
  import opened Json
  import opened Schema
  import opened Registry
  import opened Tables

  // ---------------------------------------------------------------- row lists

  /** The measurements of a row list, in order; stubs contribute nothing. */
  function Measurements(rows: seq<Row>): (r: seq<SourceData>)
    ensures |r| <= |rows|
  {
    if |rows| == 0 then []
    else
      var last := rows[|rows| - 1];
      Measurements(rows[..|rows| - 1]) + (if last.Measurement? then [last.data] else [])
  }

  function Repeat<T>(x: T, n: nat): (r: seq<T>)
    ensures |r| == n && forall i :: 0 <= i < n ==> r[i] == x
  {
    seq(n, _ => x)
  }

  /** The measurement rows of every catalog, in catalog order then row order. */
  function DataRows(entries: seq<CatalogEntry>): seq<SourceData>
  {
    if |entries| == 0 then []
    else DataRows(entries[..|entries| - 1]) + Measurements(entries[|entries| - 1].rows)
  }

  /** The catalog each row of `DataRows(entries)` comes from, row for row. */
  function CatalogRows(entries: seq<CatalogEntry>): (r: seq<Catalog>)
    ensures |r| == |DataRows(entries)|
  {
    if |entries| == 0 then []
    else
      var last := entries[|entries| - 1];
      CatalogRows(entries[..|entries| - 1]) + Repeat(last.catalog, |Measurements(last.rows)|)
  }

  // ---------------------------------------------------------------- counting

  /** The number of measurement rows, counted independently from the front. */
  function CountMeasurements(rows: seq<Row>): nat
  {
    if |rows| == 0 then 0
    else (if rows[0].Measurement? then 1 else 0) + CountMeasurements(rows[1..])
  }

  function TotalMeasurements(entries: seq<CatalogEntry>): nat
  {
    if |entries| == 0 then 0
    else CountMeasurements(entries[0].rows) + TotalMeasurements(entries[1..])
  }

  /** Where the measurement at row `b` of catalog `a` lands: the measurements before it. */
  function Position(entries: seq<CatalogEntry>, a: nat, b: nat): nat
    requires a < |entries| && b <= |entries[a].rows|
  {
    TotalMeasurements(entries[..a]) + CountMeasurements(entries[a].rows[..b])
  }

  lemma {:induction false} CountAppend(a: seq<Row>, b: seq<Row>)
    ensures CountMeasurements(a + b) == CountMeasurements(a) + CountMeasurements(b)
  {
    if |a| == 0 {
      assert a + b == b;
    } else {
      assert (a + b)[1..] == a[1..] + b;
      CountAppend(a[1..], b);
    }
  }

  lemma {:induction false} TotalAppend(a: seq<CatalogEntry>, b: seq<CatalogEntry>)
    ensures TotalMeasurements(a + b) == TotalMeasurements(a) + TotalMeasurements(b)
  {
    if |a| == 0 {
      assert a + b == b;
    } else {
      assert (a + b)[1..] == a[1..] + b;
      TotalAppend(a[1..], b);
    }
  }

  lemma {:induction false} MeasurementsCounted(rows: seq<Row>)
    ensures |Measurements(rows)| == CountMeasurements(rows)
  {
    if |rows| > 0 {
      var init, last := rows[..|rows| - 1], rows[|rows| - 1];
      MeasurementsCounted(init);
      CountAppend(init, [last]);
      assert init + [last] == rows;
    }
  }

  /** Exactly one output row per measurement row, across all catalogs. */
  lemma {:induction false} RowsCounted(entries: seq<CatalogEntry>)
    ensures |DataRows(entries)| == TotalMeasurements(entries)
  {
    if |entries| > 0 {
      var init, last := entries[..|entries| - 1], entries[|entries| - 1];
      RowsCounted(init);
      MeasurementsCounted(last.rows);
      TotalAppend(init, [last]);
      assert init + [last] == entries;
    }
  }

  // ---------------------------------------------------------------- placement

  lemma {:induction false} MeasurementAt(rows: seq<Row>, b: nat)
    requires b < |rows| && rows[b].Measurement?
    ensures CountMeasurements(rows[..b]) < |Measurements(rows)|
    ensures Measurements(rows)[CountMeasurements(rows[..b])] == rows[b].data
  {
    var init := rows[..|rows| - 1];
    if b == |rows| - 1 {
      assert rows[..b] == init;
      MeasurementsCounted(init);
    } else {
      assert init[..b] == rows[..b];
      MeasurementAt(init, b);
    }
  }

  lemma {:induction false} MeasurementOrigin(rows: seq<Row>, i: nat)
    requires i < |Measurements(rows)|
    ensures exists b :: 0 <= b < |rows| && rows[b].Measurement? && CountMeasurements(rows[..b]) == i
                        && Measurements(rows)[i] == rows[b].data
  {
    var init, last := rows[..|rows| - 1], rows[|rows| - 1];
    if i < |Measurements(init)| {
      MeasurementOrigin(init, i);
      var b :| 0 <= b < |init| && init[b].Measurement? && CountMeasurements(init[..b]) == i
               && Measurements(init)[i] == init[b].data;
      assert init[..b] == rows[..b];
    } else {
      var b := |rows| - 1;
      assert rows[..b] == init;
      MeasurementsCounted(init);
    }
  }

  /**
   * The measurement at row `b` of catalog `a` is output row `Position(entries, a, b)`,
   * paired with catalog `a`.
   */
  lemma {:induction false} PlacedAt(entries: seq<CatalogEntry>, a: nat, b: nat)
    requires a < |entries| && b < |entries[a].rows| && entries[a].rows[b].Measurement?
    ensures Position(entries, a, b) < |DataRows(entries)|
    ensures DataRows(entries)[Position(entries, a, b)] == entries[a].rows[b].data
    ensures CatalogRows(entries)[Position(entries, a, b)] == entries[a].catalog
  {
    var init := entries[..|entries| - 1];
    if a == |entries| - 1 {
      assert entries[..a] == init;
      RowsCounted(init);
      MeasurementAt(entries[a].rows, b);
    } else {
      assert init[..a] == entries[..a];
      PlacedAt(init, a, b);
    }
  }

  /** The rows of all catalogs but the last come first, unchanged. */
  lemma InitRowsAt(entries: seq<CatalogEntry>, i: nat)
    requires |entries| > 0 && i < |DataRows(entries[..|entries| - 1])|
    ensures i < |DataRows(entries)|
    ensures DataRows(entries)[i] == DataRows(entries[..|entries| - 1])[i]
    ensures CatalogRows(entries)[i] == CatalogRows(entries[..|entries| - 1])[i]
  {
  }

  /** The last catalog's measurements follow, each paired with that catalog. */
  lemma LastRowsAt(entries: seq<CatalogEntry>, i: nat)
    requires |entries| > 0 && |DataRows(entries[..|entries| - 1])| <= i < |DataRows(entries)|
    ensures var j := i - |DataRows(entries[..|entries| - 1])|;
      && j < |Measurements(entries[|entries| - 1].rows)|
      && DataRows(entries)[i] == Measurements(entries[|entries| - 1].rows)[j]
      && CatalogRows(entries)[i] == entries[|entries| - 1].catalog
  {
  }

  /** Every output row comes from one measurement row, and is paired with that row's catalog. */
  lemma {:induction false} OriginOf(entries: seq<CatalogEntry>, i: nat)
    requires i < |DataRows(entries)|
    ensures exists a, b :: 0 <= a < |entries| && 0 <= b < |entries[a].rows| && entries[a].rows[b].Measurement?
                           && Position(entries, a, b) == i
                           && DataRows(entries)[i] == entries[a].rows[b].data
                           && CatalogRows(entries)[i] == entries[a].catalog
  {
    var init, last := entries[..|entries| - 1], entries[|entries| - 1];
    if i < |DataRows(init)| {
      OriginOf(init, i);
      var a, b :| 0 <= a < |init| && 0 <= b < |init[a].rows| && init[a].rows[b].Measurement?
                  && Position(init, a, b) == i
                  && DataRows(init)[i] == init[a].rows[b].data
                  && CatalogRows(init)[i] == init[a].catalog;
      assert init[..a] == entries[..a];
      assert Position(entries, a, b) == i;
      InitRowsAt(entries, i);
    } else {
      var a := |entries| - 1;
      var j := i - |DataRows(init)|;
      MeasurementOrigin(last.rows, j);
      var b :| 0 <= b < |last.rows| && last.rows[b].Measurement? && CountMeasurements(last.rows[..b]) == j
               && Measurements(last.rows)[j] == last.rows[b].data;
      assert entries[..a] == init;
      RowsCounted(init);
      assert Position(entries, a, b) == i;
      LastRowsAt(entries, i);
    }
  }

  lemma CountPrefixGrows(rows: seq<Row>, b: nat, c: nat)
    requires b < c <= |rows| && rows[b].Measurement?
    ensures CountMeasurements(rows[..b]) < CountMeasurements(rows[..c])
  {
    assert rows[..c] == rows[..b] + rows[b..c];
    CountAppend(rows[..b], rows[b..c]);
  }

  lemma TotalPrefixGrows(entries: seq<CatalogEntry>, a: nat, c: nat)
    requires a < c <= |entries|
    ensures TotalMeasurements(entries[..a]) + CountMeasurements(entries[a].rows) <= TotalMeasurements(entries[..c])
  {
    assert entries[..c] == entries[..a] + entries[a..c];
    TotalAppend(entries[..a], entries[a..c]);
  }

  /** Output order is catalog order, then row order. */
  lemma PositionsIncrease(entries: seq<CatalogEntry>, a: nat, b: nat, a': nat, b': nat)
    requires a < |entries| && b < |entries[a].rows| && entries[a].rows[b].Measurement?
    requires a' < |entries| && b' < |entries[a'].rows|
    requires a < a' || (a == a' && b < b')
    ensures Position(entries, a, b) < Position(entries, a', b')
  {
    var rows := entries[a].rows;
    if a == a' {
      CountPrefixGrows(rows, b, b');
    } else {
      CountPrefixGrows(rows, b, |rows|);
      assert rows[..|rows|] == rows;
      TotalPrefixGrows(entries, a, a');
    }
  }

  // ---------------------------------------------------------------- stubs

  /** The rows with the stubs removed, in order. */
  function WithoutStubs(rows: seq<Row>): (r: seq<Row>)
    ensures |r| <= |rows|
    ensures forall j :: 0 <= j < |r| ==> r[j].Measurement? && r[j] in rows
  {
    if |rows| == 0 then []
    else
      var last := rows[|rows| - 1];
      WithoutStubs(rows[..|rows| - 1]) + (if last.Measurement? then [last] else [])
  }

  /** Every entry with its stubs removed; the catalogs are kept. */
  function StripStubs(entries: seq<CatalogEntry>): (r: seq<CatalogEntry>)
    ensures |r| == |entries|
    ensures forall k :: 0 <= k < |r| ==> r[k].catalog == entries[k].catalog
    ensures forall k, j :: 0 <= k < |r| && 0 <= j < |r[k].rows| ==> r[k].rows[j].Measurement?
  {
    if |entries| == 0 then []
    else
      var last := entries[|entries| - 1];
      StripStubs(entries[..|entries| - 1]) + [last.(rows := WithoutStubs(last.rows))]
  }

  lemma {:induction false} MeasurementsIgnoreStubs(rows: seq<Row>)
    ensures Measurements(WithoutStubs(rows)) == Measurements(rows)
  {
    if |rows| > 0 {
      var init, last := rows[..|rows| - 1], rows[|rows| - 1];
      MeasurementsIgnoreStubs(init);
      if last.Measurement? {
        var s := WithoutStubs(init) + [last];
        assert s[..|s| - 1] == WithoutStubs(init);
      } else {
        assert WithoutStubs(rows) == WithoutStubs(init);
      }
    }
  }

  /** Removing every stub row leaves both row lists unchanged. */
  lemma {:induction false} StubsContributeNothing(entries: seq<CatalogEntry>)
    ensures DataRows(StripStubs(entries)) == DataRows(entries)
    ensures CatalogRows(StripStubs(entries)) == CatalogRows(entries)
  {
    if |entries| > 0 {
      var init, last := entries[..|entries| - 1], entries[|entries| - 1];
      StubsContributeNothing(init);
      var s := StripStubs(entries);
      assert s[..|s| - 1] == StripStubs(init);
      MeasurementsIgnoreStubs(last.rows);
    }
  }

  // ---------------------------------------------------------------- the table

  /** A float column's value for an optional field: a missing value becomes NaN. */
  function Float64Of(x: Option<Float>): Float
  {
    if x.Some? then x.value else NaN
  }

  function DataCell(f: DataField, d: SourceData): Cell
  {
    match f
    case Name => TextCell(d.name)
    case Frequency => FloatCell(d.frequency)
    case Nufnu => FloatCell(d.nufnu)
    case FrequencyError => FloatCell(d.frequencyError)
    case NufnuError => FloatCell(d.nufnuError)
    case AngularDistance => FloatCell(Float64Of(d.angularDistance))
    case StartTime => FloatCell(Float64Of(d.startTime))
    case StopTime => FloatCell(Float64Of(d.stopTime))
    case Info => TextCell(d.info)
  }

  function CatalogCell(f: CatalogField, c: Catalog): Cell
  {
    match f
    case CatalogName => TextCell(Some(c.catalogName))
    case ErrorRadius => FloatCell(c.errorRadius)
  }

  function DataColumnOf(spec: ColumnSpec, rows: seq<SourceData>): (c: Column)
    requires spec.DataColumn?
    ensures |c.cells| == |rows|
  {
    Column(ColumnName(spec), spec.dtype, spec.units,
           seq(|rows|, i requires 0 <= i < |rows| => DataCell(spec.dataField, rows[i])))
  }

  function CatalogColumnOf(spec: ColumnSpec, rows: seq<Catalog>): (c: Column)
    requires spec.CatalogColumn?
    ensures |c.cells| == |rows|
  {
    Column(ColumnName(spec), spec.dtype, spec.units,
           seq(|rows|, i requires 0 <= i < |rows| => CatalogCell(spec.catalogField, rows[i])))
  }

  /** The table of the measurement rows under the registry's data columns. */
  function DataTable(rows: seq<SourceData>): (t: Table)
    ensures Rectangular(t) && Length(t) == |rows| && |t.columns| == |Columns("data")| && t.meta == map[]
  {
    var specs := Columns("data");
    Table(seq(|specs|, k requires 0 <= k < |specs| => DataColumnOf(specs[k], rows)), map[])
  }

  /** The table of the catalog rows under the registry's catalog columns. */
  function CatalogTable(rows: seq<Catalog>): (t: Table)
    ensures Rectangular(t) && Length(t) == |rows| && |t.columns| == |Columns("catalog")| && t.meta == map[]
  {
    var specs := Columns("catalog");
    Table(seq(|specs|, k requires 0 <= k < |specs| => CatalogColumnOf(specs[k], rows)), map[])
  }

  function PropertyValue(p: Properties, f: PropertyField): Float
  {
    match f
    case Nh => p.nh
  }

  /** The metadata value of one property: the float, multiplied by its unit when it has one. */
  function MetaEntry(m: PropertyMetadata, p: Properties): MetaValue
  {
    if m.units.Some? then QuantityMeta(PropertyValue(p, m.property), m.units.value)
    else FloatMeta(PropertyValue(p, m.property))
  }

  function WithMetadata(meta: map<string, MetaValue>, ms: seq<PropertyMetadata>, p: Properties): map<string, MetaValue>
  {
    if |ms| == 0 then meta
    else
      var m := ms[|ms| - 1];
      WithMetadata(meta, ms[..|ms| - 1], p)[PropertyName(m.property) := MetaEntry(m, p)]
  }

  /** The stacked data and catalog tables, before metadata is added. */
  function Stacked(r: Response): (t: Table)
    ensures Rectangular(t) && Length(t) == |DataRows(r.catalogs)|
  {
    HStack(DataTable(DataRows(r.catalogs)), CatalogTable(CatalogRows(r.catalogs)))
  }

  /** What `to_astropy` returns for a response. */
  function AstropyTable(r: Response): Table
  {
    var t := Stacked(r);
    t.(meta := WithMetadata(t.meta, Metadata(), r.properties))
  }

  /** The cells of row `i`, column by column. */
  function RowAt(t: Table, i: nat): seq<Cell>
    requires Rectangular(t) && i < Length(t)
  {
    seq(|t.columns|, k requires 0 <= k < |t.columns| => t.columns[k].cells[i])
  }

  /** The output row of a measurement from a catalog, written out in registry column order. */
  function ExpectedRow(d: SourceData, c: Catalog): seq<Cell>
  {
    [ TextCell(d.name), FloatCell(d.frequency), FloatCell(d.nufnu),
      FloatCell(d.frequencyError), FloatCell(d.nufnuError),
      FloatCell(Float64Of(d.angularDistance)), FloatCell(Float64Of(d.startTime)), FloatCell(Float64Of(d.stopTime)),
      TextCell(d.info), TextCell(Some(c.catalogName)), FloatCell(c.errorRadius) ]
  }

  /**
   * The row loops of `to_astropy`: one data row and one catalog row per
   * measurement, catalog by catalog and row by row; stubs are skipped.
   */
  method CollectRows(entries: seq<CatalogEntry>) returns (rowsData: seq<SourceData>, rowsCatalog: seq<Catalog>)
    ensures rowsData == DataRows(entries) && rowsCatalog == CatalogRows(entries)
  {
    rowsData, rowsCatalog := [], [];
    for i := 0 to |entries|
      invariant rowsData == DataRows(entries[..i])
      invariant rowsCatalog == CatalogRows(entries[..i])
    {
      var entry := entries[i];
      var catalogDump := entry.catalog;
      for j := 0 to |entry.rows|
        invariant rowsData == DataRows(entries[..i]) + Measurements(entry.rows[..j])
        invariant rowsCatalog == CatalogRows(entries[..i]) + Repeat(catalogDump, |Measurements(entry.rows[..j])|)
      {
        assert entry.rows[..j + 1][..j] == entry.rows[..j];
        var row := entry.rows[j];
        if !row.Measurement? {
          continue;
        }
        rowsData := rowsData + [row.data];
        rowsCatalog := rowsCatalog + [catalogDump];
      }
      assert entry.rows[..|entry.rows|] == entry.rows;
      assert entries[..i + 1][..i] == entries[..i];
    }
    assert entries[..|entries|] == entries;
  }

  /**
   * The metadata loop of `to_astropy`: each registry property is set as a
   * float, then replaced by a quantity when the registry gives it a unit.
   */
  method AddMetadata(stacked: Table, p: Properties) returns (table: Table)
    ensures table == stacked.(meta := WithMetadata(stacked.meta, Metadata(), p))
  {
    table := stacked;
    var metadata := Metadata();
    for k := 0 to |metadata|
      invariant table == stacked.(meta := WithMetadata(stacked.meta, metadata[..k], p))
    {
      assert metadata[..k + 1][..k] == metadata[..k];
      var m := metadata[k];
      var name := PropertyName(m.property);
      table := SetMeta(table, name, FloatMeta(PropertyValue(p, m.property)));
      if m.units.Some? {
        table := SetMeta(table, name, QuantityMeta(table.meta[name].x, m.units.value));
      }
    }
    assert metadata[..|metadata|] == metadata;
  }

  /** `to_astropy`: the two tables of the collected rows, stacked, then the metadata. */
  method ToAstropy(r: Response) returns (table: Table)
    ensures table == AstropyTable(r)
  {
    var rowsData, rowsCatalog := CollectRows(r.catalogs);
    var tableData := DataTable(rowsData);
    var tableCatalog := CatalogTable(rowsCatalog);
    table := HStack(tableData, tableCatalog);
    table := AddMetadata(table, r.properties);
  }

  // ---------------------------------------------------------------- table lemmas

  /** The column names of the flat table, in registry order. */
  const FLAT_NAMES: seq<string> := [
    "Name", "Frequency", "Nufnu", "FrequencyError", "NufnuError",
    "AngularDistance", "StartTime", "StopTime", "Info", "CatalogName", "ErrorRadius"]

  /** In a table with the flat table's column names, a name selects the column at its position. */
  lemma SelectAt(t: Table, k: nat)
    requires Names(t) == FLAT_NAMES && k < |FLAT_NAMES|
    ensures Has(t, FLAT_NAMES[k]) && Get(t, FLAT_NAMES[k]) == t.columns[k]
  {
    assert forall l :: 0 <= l < k ==> t.columns[l].name != t.columns[k].name;
    LookupFindsFirst(t.columns, k);
  }

  /** The stacked table of any equally long row lists: the registry's columns in order. */
  lemma StackedLayout(data: seq<SourceData>, catalogs: seq<Catalog>)
    requires |data| == |catalogs|
    ensures var t := HStack(DataTable(data), CatalogTable(catalogs));
      && Rectangular(t) && Length(t) == |data|
      && Names(t) == FLAT_NAMES
      && |t.columns| == |Columns("all")|
      && forall k :: 0 <= k < |t.columns| ==>
           t.columns[k].dtype == Columns("all")[k].dtype && t.columns[k].units == Columns("all")[k].units
  {
    var t := HStack(DataTable(data), CatalogTable(catalogs));
    assert Names(t) == Names(DataTable(data)) + Names(CatalogTable(catalogs));
    assert Columns("all") == Columns("data") + Columns("catalog");
  }

  /** Row `i` of that stacked table is the expected row of the `i`-th measurement and catalog. */
  lemma StackedRowAt(data: seq<SourceData>, catalogs: seq<Catalog>, i: nat)
    requires |data| == |catalogs| && i < |data|
    ensures var t := HStack(DataTable(data), CatalogTable(catalogs));
      && Rectangular(t) && i < Length(t) && RowAt(t, i) == ExpectedRow(data[i], catalogs[i])
  {
    var t := HStack(DataTable(data), CatalogTable(catalogs));
    var row, expected := RowAt(t, i), ExpectedRow(data[i], catalogs[i]);
    assert |row| == 11;
    forall k | 0 <= k < 11
      ensures row[k] == expected[k]
    {
      if k < 9 {
        assert t.columns[k] == DataColumnOf(Columns("data")[k], data);
      } else {
        assert t.columns[k] == CatalogColumnOf(Columns("catalog")[k - 9], catalogs);
      }
    }
  }

  /**
   * The table has every registry column, in registry order, with its dtype and
   * unit, and one row per measurement, even when there are none.
   */
  lemma AstropyColumns(r: Response)
    ensures var t := AstropyTable(r);
      && Rectangular(t)
      && Length(t) == TotalMeasurements(r.catalogs)
      && Names(t) == FLAT_NAMES
      && |t.columns| == |Columns("all")|
      && forall k :: 0 <= k < |t.columns| ==>
           t.columns[k].dtype == Columns("all")[k].dtype && t.columns[k].units == Columns("all")[k].units
  {
    RowsCounted(r.catalogs);
    StackedLayout(DataRows(r.catalogs), CatalogRows(r.catalogs));
    assert AstropyTable(r).columns == Stacked(r).columns;
  }

  /** Selecting a column of the table by its registry name gives the column at that position. */
  lemma AstropyGet(r: Response, k: nat)
    requires k < |FLAT_NAMES|
    ensures var t := AstropyTable(r);
      && k < |t.columns| && t.columns[k].units == Columns("all")[k].units
      && Has(t, FLAT_NAMES[k]) && Get(t, FLAT_NAMES[k]) == t.columns[k]
  {
    AstropyColumns(r);
    SelectAt(AstropyTable(r), k);
  }

  /** `Nh` is the one metadata entry, tagged cm^-2. */
  lemma AstropyMetadata(r: Response)
    ensures AstropyTable(r).meta == map["Nh" := QuantityMeta(r.properties.nh, PerSquareCm)]
  {
    var ms := Metadata();
    assert ms[..|ms| - 1] == [];
    assert Stacked(r).meta == map[];
    assert WithMetadata(map[], ms, r.properties) == map[][PropertyName(Nh) := MetaEntry(METADATA_NH, r.properties)];
  }

  /** Output row `i` holds the `i`-th measurement and the catalog it came from. */
  lemma AstropyRowIs(r: Response, i: nat)
    requires i < |DataRows(r.catalogs)|
    ensures Rectangular(AstropyTable(r)) && i < Length(AstropyTable(r))
    ensures RowAt(AstropyTable(r), i) == ExpectedRow(DataRows(r.catalogs)[i], CatalogRows(r.catalogs)[i])
  {
    StackedRowAt(DataRows(r.catalogs), CatalogRows(r.catalogs), i);
    assert AstropyTable(r).columns == Stacked(r).columns;
  }

  /**
   * Every output row is the expected row of one measurement of the response,
   * paired with its own catalog, and sits at that measurement's position.
   */
  lemma AstropyRowOrigin(r: Response, i: nat)
    requires i < Length(AstropyTable(r))
    ensures Rectangular(AstropyTable(r))
    ensures exists a, b :: 0 <= a < |r.catalogs| && 0 <= b < |r.catalogs[a].rows|
                           && r.catalogs[a].rows[b].Measurement?
                           && Position(r.catalogs, a, b) == i
                           && RowAt(AstropyTable(r), i) == ExpectedRow(r.catalogs[a].rows[b].data, r.catalogs[a].catalog)
  {
    AstropyColumns(r);
    RowsCounted(r.catalogs);
    OriginOf(r.catalogs, i);
    AstropyRowIs(r, i);
  }

  /** Every measurement of the response appears, at its position, with its own catalog. */
  lemma AstropyRowPlacement(r: Response, a: nat, b: nat)
    requires a < |r.catalogs| && b < |r.catalogs[a].rows| && r.catalogs[a].rows[b].Measurement?
    ensures Rectangular(AstropyTable(r)) && Position(r.catalogs, a, b) < Length(AstropyTable(r))
    ensures RowAt(AstropyTable(r), Position(r.catalogs, a, b))
            == ExpectedRow(r.catalogs[a].rows[b].data, r.catalogs[a].catalog)
  {
    PlacedAt(r.catalogs, a, b);
    AstropyRowIs(r, Position(r.catalogs, a, b));
  }

  /** Stub rows change nothing in the table. */
  lemma AstropyIgnoresStubs(r: Response)
    ensures AstropyTable(r.(catalogs := StripStubs(r.catalogs))) == AstropyTable(r)
  {
    StubsContributeNothing(r.catalogs);
  }
}
