/**
 * The flat table the conversions produce: named columns of equal length, each
 * with a dtype and an optional unit, plus a free-form metadata map. Only the
 * handful of table operations the conversions use are modelled.
 */
module Tables {
  import opened Wrappers
  import opened Json
  import opened Registry

  datatype Cell = FloatCell(x: Float) | TextCell(s: Option<string>) | FlagCell(b: bool)

  datatype Column = Column(name: string, dtype: Dtype, units: Option<Unit>, cells: seq<Cell>)

  /** A metadata value: a bare float, a float carrying a unit, or a string. */
  datatype MetaValue = FloatMeta(x: Float) | QuantityMeta(q: Float, unit: Unit) | TextMeta(s: string)

  datatype Table = Table(columns: seq<Column>, meta: map<string, MetaValue>)

  function Units(t: Table): (r: seq<Option<Unit>>)
    ensures |r| == |t.columns| && forall k :: 0 <= k < |r| ==> r[k] == t.columns[k].units
  {
    seq(|t.columns|, k requires 0 <= k < |t.columns| => t.columns[k].units)
  }

  function Names(t: Table): (r: seq<string>)
    ensures |r| == |t.columns| && forall k :: 0 <= k < |r| ==> r[k] == t.columns[k].name
  {
    seq(|t.columns|, k requires 0 <= k < |t.columns| => t.columns[k].name)
  }

  /** The number of rows: the length of the first column, 0 for a table without columns. */
  function Length(t: Table): nat
  {
    if |t.columns| == 0 then 0 else |t.columns[0].cells|
  }

  /** Every column holds one cell per row. */
  predicate Rectangular(t: Table)
  {
    forall k :: 0 <= k < |t.columns| ==> |t.columns[k].cells| == Length(t)
  }

  /** Selecting a column by name: the first column so named. */
  function Lookup(columns: seq<Column>, name: string): (r: Option<Column>)
    ensures r.None? <==> forall k :: 0 <= k < |columns| ==> columns[k].name != name
    ensures r.Some? ==> r.value in columns && r.value.name == name
  {
    if |columns| == 0 then None
    else if columns[0].name == name then Some(columns[0])
    else Lookup(columns[1..], name)
  }

  /** A column whose name no earlier column has is the one selected by that name. */
  lemma {:induction false} LookupFindsFirst(columns: seq<Column>, k: nat)
    requires k < |columns|
    requires forall l :: 0 <= l < k ==> columns[l].name != columns[k].name
    ensures Lookup(columns, columns[k].name) == Some(columns[k])
  {
    if k > 0 {
      assert columns[1..][k - 1] == columns[k];
      LookupFindsFirst(columns[1..], k - 1);
    }
  }

  predicate Has(t: Table, name: string)
  {
    Lookup(t.columns, name).Some?
  }

  /** `t[name]`: the column so named, which must exist. */
  function Get(t: Table, name: string): (c: Column)
    requires Has(t, name)
    ensures c.name == name && c in t.columns
    ensures Rectangular(t) ==> |c.cells| == Length(t)
  {
    Lookup(t.columns, name).value
  }

  /** Side-by-side stacking of two tables with the same rows; the second's metadata wins on a clash. */
  function HStack(a: Table, b: Table): (r: Table)
    requires Rectangular(a) && Rectangular(b) && |a.columns| > 0 && Length(a) == Length(b)
    ensures Rectangular(r) && Length(r) == Length(a)
    ensures Names(r) == Names(a) + Names(b)
  {
    Table(a.columns + b.columns, a.meta + b.meta)
  }

  function AddColumn(t: Table, c: Column): (r: Table)
    ensures Names(r) == Names(t) + [c.name]
  {
    t.(columns := t.columns + [c])
  }

  function SetMeta(t: Table, key: string, v: MetaValue): (r: Table)
    ensures r.meta.Keys == t.meta.Keys + {key} && r.meta[key] == v
    ensures r.columns == t.columns
  {
    t.(meta := t.meta[key := v])
  }
}
