/**
 * The fixed column registry of the flat table: every column's field, dtype and
 * unit, in table order, and the per-source properties stored as metadata.
 * Units are tags; no unit arithmetic is modelled.
 */
module Registry {
  import opened Wrappers

  /** Hz, erg/cm^2/s, arcsec, day and cm^-2. */
  datatype Unit = Hz | ErgPerSquareCmPerSecond | Arcsec | Day | PerSquareCm

  datatype Dtype = StrType | Float64 | BoolType

  /** The fields of a measurement row that become columns. */
  datatype DataField =
    | Name | Frequency | Nufnu | FrequencyError | NufnuError
    | AngularDistance | StartTime | StopTime | Info

  /** The fields of a catalog descriptor that become columns. */
  datatype CatalogField = CatalogName | ErrorRadius

  /** The per-source properties that become metadata. */
  datatype PropertyField = Nh

  datatype ColumnSpec =
    | DataColumn(dataField: DataField, dtype: Dtype, units: Option<Unit>)
    | CatalogColumn(catalogField: CatalogField, dtype: Dtype, units: Option<Unit>)

  datatype PropertyMetadata = PropertyMetadata(property: PropertyField, units: Option<Unit>)

  function DataFieldName(f: DataField): string
  {
    match f
    case Name => "Name"
    case Frequency => "Frequency"
    case Nufnu => "Nufnu"
    case FrequencyError => "FrequencyError"
    case NufnuError => "NufnuError"
    case AngularDistance => "AngularDistance"
    case StartTime => "StartTime"
    case StopTime => "StopTime"
    case Info => "Info"
  }

  function CatalogFieldName(f: CatalogField): string
  {
    match f
    case CatalogName => "CatalogName"
    case ErrorRadius => "ErrorRadius"
  }

  function PropertyName(p: PropertyField): string
  {
    match p
    case Nh => "Nh"
  }

  function ColumnName(c: ColumnSpec): string
  {
    match c
    case DataColumn(f, _, _) => DataFieldName(f)
    case CatalogColumn(f, _, _) => CatalogFieldName(f)
  }

  const NAME := DataColumn(Name, StrType, None)
  const FREQUENCY := DataColumn(Frequency, Float64, Some(Hz))
  const NUFNU := DataColumn(Nufnu, Float64, Some(ErgPerSquareCmPerSecond))
  const FREQUENCY_ERROR := DataColumn(FrequencyError, Float64, Some(Hz))
  const NUFNU_ERROR := DataColumn(NufnuError, Float64, Some(ErgPerSquareCmPerSecond))
  const ANGULAR_DISTANCE := DataColumn(AngularDistance, Float64, Some(Arcsec))
  const START_TIME := DataColumn(StartTime, Float64, Some(Day))
  const STOP_TIME := DataColumn(StopTime, Float64, Some(Day))
  const INFO := DataColumn(Info, StrType, None)
  const CATALOG := CatalogColumn(CatalogName, StrType, None)
  const ERROR_RADIUS := CatalogColumn(ErrorRadius, Float64, Some(Arcsec))
  const METADATA_NH := PropertyMetadata(Nh, Some(PerSquareCm))

  /**
   * The columns of one kind ("data", "catalog" or "all") in table order; any
   * other kind selects nothing.
   */
  function Columns(kind: string): (r: seq<ColumnSpec>)
    ensures kind == "data" ==> forall k :: 0 <= k < |r| ==> r[k].DataColumn?
    ensures kind == "catalog" ==> forall k :: 0 <= k < |r| ==> r[k].CatalogColumn?
  {
    (if kind == "all" || kind == "data"
     then [NAME, FREQUENCY, NUFNU, FREQUENCY_ERROR, NUFNU_ERROR, ANGULAR_DISTANCE, START_TIME, STOP_TIME, INFO]
     else [])
    + (if kind == "all" || kind == "catalog" then [CATALOG, ERROR_RADIUS] else [])
  }

  function Metadata(): seq<PropertyMetadata>
  {
    [METADATA_NH]
  }

  function ColumnNames(specs: seq<ColumnSpec>): (r: seq<string>)
    ensures |r| == |specs| && forall k :: 0 <= k < |specs| ==> r[k] == ColumnName(specs[k])
  {
    seq(|specs|, k requires 0 <= k < |specs| => ColumnName(specs[k]))
  }

  /** The full column set is the data columns followed by the catalog columns, in a fixed order. */
  lemma ColumnOrder()
    ensures Columns("all") == Columns("data") + Columns("catalog")
    ensures ColumnNames(Columns("all")) == [
      "Name", "Frequency", "Nufnu", "FrequencyError", "NufnuError",
      "AngularDistance", "StartTime", "StopTime", "Info", "CatalogName", "ErrorRadius"]
  {
  }

  /** A kind other than the three literals selects no column. */
  lemma UnknownKindSelectsNothing(kind: string)
    requires kind != "all" && kind != "data" && kind != "catalog"
    ensures Columns(kind) == []
  {
  }

  /** The unit of every column, in table order. */
  lemma ColumnUnits()
    ensures |Columns("all")| == 11
    ensures seq(11, k requires 0 <= k < 11 => Columns("all")[k].units) == [
      None, Some(Hz), Some(ErgPerSquareCmPerSecond), Some(Hz), Some(ErgPerSquareCmPerSecond),
      Some(Arcsec), Some(Day), Some(Day), None, None, Some(Arcsec)]
  {
  }

  /** String columns are exactly the columns without a unit. */
  lemma StringColumnsHaveNoUnit()
    ensures forall k :: 0 <= k < |Columns("all")| ==>
      (Columns("all")[k].dtype == StrType <==> Columns("all")[k].units.None?)
  {
  }

  /** No two columns share a name. */
  lemma ColumnNamesDistinct()
    ensures forall k, l :: 0 <= k < l < |Columns("all")| ==> ColumnName(Columns("all")[k]) != ColumnName(Columns("all")[l])
  {
  }
}
