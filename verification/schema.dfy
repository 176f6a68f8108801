/**
 * The validated document of an SED Builder response, and the validators that
 * build it from a decoded JSON value. Validation is all-or-nothing: a document
 * either yields a whole `Response` or nothing at all.
 *
 * Both revisions of the schema are modelled by one validator: `Current` is the
 * schema used by the table conversions, `Legacy` the earlier one used by the
 * coordinate query. They differ only in the default of a measurement's
 * optional `Name` and `Info` strings.
 */
module Schema {
  import opened Wrappers
  import opened Json

  datatype Revision = Current | Legacy

  /** Default of a measurement row's `Name` and `Info` when the key is absent. */
  function TextDefault(rev: Revision): Option<string>
  {
    match rev
    case Current => Some("")
    case Legacy => None
  }

  // ---------------------------------------------------------------- records

  datatype ResponseInfo = ResponseInfo(statusCode: string, message: Option<string>)

  /** Per-source scalars; `nh` is the hydrogen column density in cm^-2. */
  datatype Properties = Properties(nh: Float)

  /** A catalog descriptor; `errorRadius` is in arcsec. */
  datatype Catalog = Catalog(catalogName: string, errorRadius: Float)

  /** One measurement row of a catalog. */
  datatype SourceData = SourceData(
    frequency: Float,
    nufnu: Float,
    frequencyError: Float,
    nufnuError: Float,
    name: Option<string>,
    angularDistance: Option<Float>,
    startTime: Option<Float>,
    stopTime: Option<Float>,
    info: Option<string>)

  /**
   * A row of a catalog: a full measurement, or the warning-only stub the
   * service currently sends for rows it tags with a warning.
   */
  datatype Row = Measurement(data: SourceData) | Stub(info: Option<string>)

  datatype CatalogEntry = CatalogEntry(catalog: Catalog, rows: seq<Row>)

  datatype Response = Response(responseInfo: ResponseInfo, properties: Properties, catalogs: seq<CatalogEntry>)

  /** Success is decided by the status code alone. */
  predicate IsSuccessful(r: Response)
  {
    r.responseInfo.statusCode == "OK"
  }

  // ---------------------------------------------------------------- domains

  /** The declared domain of every numeric field of a measurement. */
  predicate SourceDataInDomain(d: SourceData)
  {
    && Above(d.frequency, 0.0)
    && AtLeast(d.frequencyError, 0.0)
    && (d.angularDistance.Some? ==> AtLeast(d.angularDistance.value, 0.0))
    && (d.startTime.Some? ==> AtLeast(d.startTime.value, 0.0))
    && (d.stopTime.Some? ==> AtLeast(d.stopTime.value, 0.0))
  }

  predicate RowInDomain(r: Row)
  {
    r.Measurement? ==> SourceDataInDomain(r.data)
  }

  predicate CatalogEntryInDomain(e: CatalogEntry)
  {
    && AtLeast(e.catalog.errorRadius, 0.0)
    && forall j :: 0 <= j < |e.rows| ==> RowInDomain(e.rows[j])
  }

  predicate ResponseInDomain(r: Response)
  {
    && AtLeast(r.properties.nh, 0.0)
    && forall k :: 0 <= k < |r.catalogs| ==> CatalogEntryInDomain(r.catalogs[k])
  }

  // ---------------------------------------------------------------- fields

  /** The constraint a numeric field carries. */
  datatype Bound = Unbounded | Positive | NonNegative

  predicate Within(x: Float, b: Bound)
  {
    match b
    case Unbounded => true
    case Positive => Above(x, 0.0)
    case NonNegative => AtLeast(x, 0.0)
  }

  function Member(fields: map<string, Value>, key: string): Option<Value>
  {
    if key in fields then Some(fields[key]) else None
  }

  function ListMember(fields: map<string, Value>, key: string): Option<seq<Value>>
  {
    if key in fields && fields[key].Arr? then Some(fields[key].items) else None
  }

  /** A required float field with its bound. */
  function FloatField(fields: map<string, Value>, key: string, b: Bound): Option<Float>
  {
    if key in fields && fields[key].Num? && Within(fields[key].n, b) then Some(fields[key].n) else None
  }

  /** An optional float field with default None; the bound applies only to a number. */
  function OptionalFloatField(fields: map<string, Value>, key: string, b: Bound): Option<Option<Float>>
  {
    if key !in fields || fields[key].Null? then Some(None)
    else if fields[key].Num? && Within(fields[key].n, b) then Some(Some(fields[key].n))
    else None
  }

  /** A required string field. */
  function TextField(fields: map<string, Value>, key: string): Option<string>
  {
    if key in fields && fields[key].Str? then Some(fields[key].s) else None
  }

  /** An optional string field: an absent key gives `default`, null gives None. */
  function OptionalTextField(fields: map<string, Value>, key: string, default: Option<string>): Option<Option<string>>
  {
    if key !in fields then Some(default)
    else if fields[key].Null? then Some(None)
    else if fields[key].Str? then Some(Some(fields[key].s))
    else None
  }

  /**
   * A field typed as a plain string whose default is None. Defaults are not
   * validated, so an absent key gives None, while an explicit null is refused.
   */
  function DefaultedTextField(fields: map<string, Value>, key: string): Option<Option<string>>
  {
    if key !in fields then Some(None)
    else if fields[key].Str? then Some(Some(fields[key].s))
    else None
  }

  // ---------------------------------------------------------------- validators

  /** Validates every element of a list; one failure rejects the whole list. */
  function ValidateEach<T>(vs: seq<Value>, validate: Value -> Option<T>): (r: Option<seq<T>>)
    ensures r.Some? <==> forall i :: 0 <= i < |vs| ==> validate(vs[i]).Some?
    ensures r.Some? ==> |r.value| == |vs| && forall i :: 0 <= i < |vs| ==> validate(vs[i]) == Some(r.value[i])
  {
    if |vs| == 0 then Some([])
    else
      var head :- validate(vs[0]);
      var tail :- ValidateEach(vs[1..], validate);
      Some([head] + tail)
  }

  function ValidateResponseInfo(v: Value): (r: Option<ResponseInfo>)
    ensures r.Some? ==> v.Obj? && "statusCode" in v.fields && v.fields["statusCode"] == Str(r.value.statusCode)
  {
    if !v.Obj? then None
    else
      var statusCode :- TextField(v.fields, "statusCode");
      var message :- OptionalTextField(v.fields, "message", None);
      Some(ResponseInfo(statusCode, message))
  }

  function ValidateProperties(v: Value): (r: Option<Properties>)
    ensures r.Some? ==> AtLeast(r.value.nh, 0.0)
  {
    if !v.Obj? then None
    else
      var nh :- FloatField(v.fields, "Nh", NonNegative);
      Some(Properties(nh))
  }

  function ValidateCatalog(v: Value): (r: Option<Catalog>)
    ensures r.Some? ==> AtLeast(r.value.errorRadius, 0.0)
  {
    if !v.Obj? then None
    else
      var catalogName :- TextField(v.fields, "CatalogName");
      var errorRadius :- FloatField(v.fields, "ErrorRadius", NonNegative);
      Some(Catalog(catalogName, errorRadius))
  }

  function ValidateSourceData(v: Value, rev: Revision): (r: Option<SourceData>)
    ensures r.Some? ==> SourceDataInDomain(r.value)
  {
    if !v.Obj? then None
    else
      var f := v.fields;
      var frequency :- FloatField(f, "Frequency", Positive);
      var nufnu :- FloatField(f, "Nufnu", Unbounded);
      var frequencyError :- FloatField(f, "FrequencyError", NonNegative);
      var nufnuError :- FloatField(f, "NufnuError", Unbounded);
      var name :- OptionalTextField(f, "Name", TextDefault(rev));
      var angularDistance :- OptionalFloatField(f, "AngularDistance", NonNegative);
      var startTime :- OptionalFloatField(f, "StartTime", NonNegative);
      var stopTime :- OptionalFloatField(f, "StopTime", NonNegative);
      var info :- OptionalTextField(f, "Info", TextDefault(rev));
      Some(SourceData(frequency, nufnu, frequencyError, nufnuError, name, angularDistance, startTime, stopTime, info))
  }

  /** The warning-only row: its one field `Info`. */
  function ValidateUpperLimits(v: Value): Option<Option<string>>
  {
    if !v.Obj? then None else DefaultedTextField(v.fields, "Info")
  }

  /**
   * Resolves one raw row of `SourceData | UpperLimits`: a measurement whenever
   * the row validates as one, otherwise a stub when it validates as that.
   */
  function ResolveRow(v: Value, rev: Revision): (r: Option<Row>)
    ensures r.Some? && r.value.Measurement? <==> ValidateSourceData(v, rev).Some?
    ensures r.Some? && r.value.Measurement? ==> r.value.data == ValidateSourceData(v, rev).value
    ensures r.Some? && r.value.Stub? <==>
      && ValidateSourceData(v, rev).None?
      && v.Obj?
      && ("Info" !in v.fields || v.fields["Info"].Str?)
    ensures r.Some? ==> RowInDomain(r.value)
  {
    match ValidateSourceData(v, rev)
    case Some(d) => Some(Measurement(d))
    case None =>
      match ValidateUpperLimits(v)
      case Some(info) => Some(Stub(info))
      case None => None
  }

  /** The element validator of a catalog's row list. */
  function RowValidator(rev: Revision): Value -> Option<Row>
  {
    row => ResolveRow(row, rev)
  }

  /** The element validator of a response's catalog list. */
  function EntryValidator(rev: Revision): Value -> Option<CatalogEntry>
  {
    entry => ValidateCatalogEntry(entry, rev)
  }

  function ValidateCatalogEntry(v: Value, rev: Revision): (r: Option<CatalogEntry>)
    ensures r.Some? ==> CatalogEntryInDomain(r.value)
  {
    if !v.Obj? then None
    else
      var catalogValue :- Member(v.fields, "Catalog");
      var catalog :- ValidateCatalog(catalogValue);
      var rowValues :- ListMember(v.fields, "SourceData");
      var rows :- ValidateEach(rowValues, RowValidator(rev));
      Some(CatalogEntry(catalog, rows))
  }

  /** Builds a whole response from a decoded JSON document, or nothing. */
  function ValidateResponse(v: Value, rev: Revision): (r: Option<Response>)
    ensures r.Some? ==> ResponseInDomain(r.value)
  {
    if !v.Obj? then None
    else
      var infoValue :- Member(v.fields, "ResponseInfo");
      var info :- ValidateResponseInfo(infoValue);
      var propertiesValue :- Member(v.fields, "Properties");
      var properties :- ValidateProperties(propertiesValue);
      var entryValues :- ListMember(v.fields, "Catalogs");
      var entries :- ValidateEach(entryValues, EntryValidator(rev));
      Some(Response(info, properties, entries))
  }

  // ---------------------------------------------------------------- dumping

  function TextValue(s: Option<string>): Value
  {
    if s.Some? then Str(s.value) else Null
  }

  function FloatValue(x: Option<Float>): Value
  {
    if x.Some? then Num(x.value) else Null
  }

  /** The JSON object a validated record dumps to: every field, absent values as null. */
  function DumpSourceData(d: SourceData): Value
  {
    Obj(map[
      "Frequency" := Num(d.frequency),
      "Nufnu" := Num(d.nufnu),
      "FrequencyError" := Num(d.frequencyError),
      "NufnuError" := Num(d.nufnuError),
      "Name" := TextValue(d.name),
      "AngularDistance" := FloatValue(d.angularDistance),
      "StartTime" := FloatValue(d.startTime),
      "StopTime" := FloatValue(d.stopTime),
      "Info" := TextValue(d.info)])
  }

  function DumpRow(r: Row): Value
  {
    match r
    case Measurement(d) => DumpSourceData(d)
    case Stub(info) => Obj(map["Info" := TextValue(info)])
  }

  function DumpCatalogEntry(e: CatalogEntry): Value
  {
    Obj(map[
      "Catalog" := Obj(map["CatalogName" := Str(e.catalog.catalogName), "ErrorRadius" := Num(e.catalog.errorRadius)]),
      "SourceData" := Arr(seq(|e.rows|, j requires 0 <= j < |e.rows| => DumpRow(e.rows[j])))])
  }

  function DumpResponse(r: Response): Value
  {
    Obj(map[
      "ResponseInfo" := Obj(map[
        "statusCode" := Str(r.responseInfo.statusCode),
        "message" := TextValue(r.responseInfo.message)]),
      "Properties" := Obj(map["Nh" := Num(r.properties.nh)]),
      "Catalogs" := Arr(seq(|r.catalogs|, k requires 0 <= k < |r.catalogs| => DumpCatalogEntry(r.catalogs[k])))])
  }

  /**
   * A row whose dump validates again: a measurement in its domain, or a stub
   * that carries an `Info` string.
   */
  predicate Reparseable(r: Row)
  {
    match r
    case Measurement(d) => SourceDataInDomain(d)
    case Stub(info) => info.Some?
  }

  predicate ResponseReparseable(r: Response)
  {
    && AtLeast(r.properties.nh, 0.0)
    && forall k :: 0 <= k < |r.catalogs| ==>
         && AtLeast(r.catalogs[k].catalog.errorRadius, 0.0)
         && forall j :: 0 <= j < |r.catalogs[k].rows| ==> Reparseable(r.catalogs[k].rows[j])
  }

  // ---------------------------------------------------------------- lemmas

  /** An optional float field is absent, null, or a number `>= 0`. */
  predicate AbsentNullOrNonNegative(f: map<string, Value>, key: string)
  {
    key !in f || f[key].Null? || (f[key].Num? && AtLeast(f[key].n, 0.0))
  }

  /** An optional string field is absent, null, or a string. */
  predicate AbsentNullOrText(f: map<string, Value>, key: string)
  {
    key !in f || f[key].Null? || f[key].Str?
  }

  /** The conditions on a measurement's fields, key by key, on the raw object. */
  predicate MeasurementFieldsValid(f: map<string, Value>)
  {
    && "Frequency" in f && f["Frequency"].Num? && Above(f["Frequency"].n, 0.0)
    && "Nufnu" in f && f["Nufnu"].Num?
    && "FrequencyError" in f && f["FrequencyError"].Num? && AtLeast(f["FrequencyError"].n, 0.0)
    && "NufnuError" in f && f["NufnuError"].Num?
    && AbsentNullOrText(f, "Name")
    && AbsentNullOrNonNegative(f, "AngularDistance")
    && AbsentNullOrNonNegative(f, "StartTime")
    && AbsentNullOrNonNegative(f, "StopTime")
    && AbsentNullOrText(f, "Info")
  }

  /** The value an optional float field holds: its number, or None when absent or null. */
  function OptionalNumber(f: map<string, Value>, key: string): Option<Float>
  {
    if key in f && f[key].Num? then Some(f[key].n) else None
  }

  /** The value an optional string field holds: `default` when absent, None when null. */
  function OptionalText(f: map<string, Value>, key: string, default: Option<string>): Option<string>
  {
    if key !in f then default else if f[key].Str? then Some(f[key].s) else None
  }

  /**
   * A measurement is accepted exactly when the value is an object whose
   * fields all meet their conditions, and then it holds the object's values,
   * with the revision's default for an absent `Name` or `Info`.
   */
  lemma SourceDataAcceptance(v: Value, rev: Revision)
    ensures ValidateSourceData(v, rev).Some? <==> v.Obj? && MeasurementFieldsValid(v.fields)
    ensures ValidateSourceData(v, rev).Some? ==>
      var f := v.fields;
      ValidateSourceData(v, rev).value == SourceData(
        f["Frequency"].n, f["Nufnu"].n, f["FrequencyError"].n, f["NufnuError"].n,
        OptionalText(f, "Name", TextDefault(rev)),
        OptionalNumber(f, "AngularDistance"), OptionalNumber(f, "StartTime"), OptionalNumber(f, "StopTime"),
        OptionalText(f, "Info", TextDefault(rev)))
  {
  }

  /**
   * The status record is accepted exactly when `statusCode` is a string and
   * `message` is absent, null or a string; an absent `message` gives None.
   */
  lemma ResponseInfoAcceptance(v: Value)
    ensures ValidateResponseInfo(v).Some? <==>
      v.Obj? && "statusCode" in v.fields && v.fields["statusCode"].Str? && AbsentNullOrText(v.fields, "message")
    ensures ValidateResponseInfo(v).Some? ==>
      ValidateResponseInfo(v).value == ResponseInfo(v.fields["statusCode"].s, OptionalText(v.fields, "message", None))
  {
  }

  /** The properties are accepted exactly when `Nh` is present and a number `>= 0`, and then hold it. */
  lemma PropertiesAcceptance(v: Value)
    ensures ValidateProperties(v).Some? <==>
      v.Obj? && "Nh" in v.fields && v.fields["Nh"].Num? && AtLeast(v.fields["Nh"].n, 0.0)
    ensures ValidateProperties(v).Some? ==> ValidateProperties(v).value == Properties(v.fields["Nh"].n)
  {
  }

  /**
   * A catalog descriptor is accepted exactly when `CatalogName` is a string
   * and `ErrorRadius` a number `>= 0`, and then holds both.
   */
  lemma CatalogAcceptance(v: Value)
    ensures ValidateCatalog(v).Some? <==>
      && v.Obj? && "CatalogName" in v.fields && v.fields["CatalogName"].Str?
      && "ErrorRadius" in v.fields && v.fields["ErrorRadius"].Num? && AtLeast(v.fields["ErrorRadius"].n, 0.0)
    ensures ValidateCatalog(v).Some? ==>
      ValidateCatalog(v).value == Catalog(v.fields["CatalogName"].s, v.fields["ErrorRadius"].n)
  {
  }

  /**
   * A catalog entry is accepted exactly when its `Catalog` validates and its
   * `SourceData` is a list whose every row resolves; it then holds that
   * catalog and the resolved rows, one per element, in order.
   */
  lemma CatalogEntryAcceptance(v: Value, rev: Revision)
    ensures ValidateCatalogEntry(v, rev).Some? <==>
      && v.Obj? && "Catalog" in v.fields && ValidateCatalog(v.fields["Catalog"]).Some?
      && "SourceData" in v.fields && v.fields["SourceData"].Arr?
      && forall j :: 0 <= j < |v.fields["SourceData"].items| ==> ResolveRow(v.fields["SourceData"].items[j], rev).Some?
    ensures ValidateCatalogEntry(v, rev).Some? ==>
      var e := ValidateCatalogEntry(v, rev).value;
      var items := v.fields["SourceData"].items;
      && e.catalog == ValidateCatalog(v.fields["Catalog"]).value
      && |e.rows| == |items|
      && forall j :: 0 <= j < |items| ==> e.rows[j] == ResolveRow(items[j], rev).value
  {
    if v.Obj? && "SourceData" in v.fields && v.fields["SourceData"].Arr? {
      var items := v.fields["SourceData"].items;
      assert forall j :: 0 <= j < |items| ==> RowValidator(rev)(items[j]) == ResolveRow(items[j], rev);
    }
  }

  /**
   * A response is accepted exactly when its status record and properties
   * validate and `Catalogs` is a list whose every entry validates; it then
   * holds those, the entries one per element, in order.
   */
  lemma ResponseAcceptance(v: Value, rev: Revision)
    ensures ValidateResponse(v, rev).Some? <==>
      && v.Obj? && "ResponseInfo" in v.fields && ValidateResponseInfo(v.fields["ResponseInfo"]).Some?
      && "Properties" in v.fields && ValidateProperties(v.fields["Properties"]).Some?
      && "Catalogs" in v.fields && v.fields["Catalogs"].Arr?
      && forall k :: 0 <= k < |v.fields["Catalogs"].items| ==> ValidateCatalogEntry(v.fields["Catalogs"].items[k], rev).Some?
    ensures ValidateResponse(v, rev).Some? ==>
      var r := ValidateResponse(v, rev).value;
      var items := v.fields["Catalogs"].items;
      && r.responseInfo == ValidateResponseInfo(v.fields["ResponseInfo"]).value
      && r.properties == ValidateProperties(v.fields["Properties"]).value
      && |r.catalogs| == |items|
      && forall k :: 0 <= k < |items| ==> r.catalogs[k] == ValidateCatalogEntry(items[k], rev).value
  {
    if v.Obj? && "Catalogs" in v.fields && v.fields["Catalogs"].Arr? {
      var items := v.fields["Catalogs"].items;
      assert forall k :: 0 <= k < |items| ==> EntryValidator(rev)(items[k]) == ValidateCatalogEntry(items[k], rev);
    }
  }

  /** An absent, non-numeric, NaN or non-positive `Frequency` rejects the measurement. */
  lemma BadFrequencyRejected(v: Value, rev: Revision)
    requires v.Obj?
    requires !("Frequency" in v.fields && v.fields["Frequency"].Num? && Above(v.fields["Frequency"].n, 0.0))
    ensures ValidateSourceData(v, rev).None?
  {
    SourceDataAcceptance(v, rev);
  }

  /** An absent, non-numeric, NaN or negative `FrequencyError` rejects the measurement. */
  lemma BadFrequencyErrorRejected(v: Value, rev: Revision)
    requires v.Obj?
    requires !("FrequencyError" in v.fields && v.fields["FrequencyError"].Num?
               && AtLeast(v.fields["FrequencyError"].n, 0.0))
    ensures ValidateSourceData(v, rev).None?
  {
    SourceDataAcceptance(v, rev);
  }

  /** An absent or non-numeric `Nufnu` or `NufnuError` rejects the measurement; any number is accepted. */
  lemma BadFluxRejected(v: Value, rev: Revision, key: string)
    requires key == "Nufnu" || key == "NufnuError"
    requires v.Obj? && !(key in v.fields && v.fields[key].Num?)
    ensures ValidateSourceData(v, rev).None?
  {
    SourceDataAcceptance(v, rev);
  }

  /** A present, non-null `AngularDistance`, `StartTime` or `StopTime` that is not a number `>= 0` rejects the measurement. */
  lemma BadOptionalFloatRejected(v: Value, rev: Revision, key: string)
    requires key == "AngularDistance" || key == "StartTime" || key == "StopTime"
    requires v.Obj? && key in v.fields && !v.fields[key].Null?
    requires !(v.fields[key].Num? && AtLeast(v.fields[key].n, 0.0))
    ensures ValidateSourceData(v, rev).None?
  {
    SourceDataAcceptance(v, rev);
  }

  /** A present `Name` or `Info` that is neither null nor a string rejects the measurement. */
  lemma BadOptionalTextRejected(v: Value, rev: Revision, key: string)
    requires key == "Name" || key == "Info"
    requires v.Obj? && key in v.fields && !v.fields[key].Null? && !v.fields[key].Str?
    ensures ValidateSourceData(v, rev).None?
  {
    SourceDataAcceptance(v, rev);
  }

  /**
   * A row rejected as a measurement but whose `Info` is absent or a string
   * becomes a stub carrying that `Info`, whatever else it holds.
   */
  lemma RejectedMeasurementIsStub(v: Value, rev: Revision)
    requires v.Obj? && !MeasurementFieldsValid(v.fields)
    requires "Info" !in v.fields || v.fields["Info"].Str?
    ensures ResolveRow(v, rev) == Some(Stub(if "Info" in v.fields then Some(v.fields["Info"].s) else None))
  {
    SourceDataAcceptance(v, rev);
  }

  /** In particular, a row with a bad `Frequency` and an `Info` string is a stub with that string. */
  lemma BadFrequencyRowIsStub(v: Value, rev: Revision, s: string)
    requires v.Obj? && "Info" in v.fields && v.fields["Info"] == Str(s)
    requires !("Frequency" in v.fields && v.fields["Frequency"].Num? && Above(v.fields["Frequency"].n, 0.0))
    ensures ResolveRow(v, rev) == Some(Stub(Some(s)))
  {
    RejectedMeasurementIsStub(v, rev);
  }

  /** Any object holding a measurement's dumped fields validates back to that measurement. */
  lemma FieldsValidate(f: map<string, Value>, d: SourceData, rev: Revision)
    requires SourceDataInDomain(d)
    requires "Frequency" in f && f["Frequency"] == Num(d.frequency)
    requires "Nufnu" in f && f["Nufnu"] == Num(d.nufnu)
    requires "FrequencyError" in f && f["FrequencyError"] == Num(d.frequencyError)
    requires "NufnuError" in f && f["NufnuError"] == Num(d.nufnuError)
    requires "Name" in f && f["Name"] == TextValue(d.name)
    requires "AngularDistance" in f && f["AngularDistance"] == FloatValue(d.angularDistance)
    requires "StartTime" in f && f["StartTime"] == FloatValue(d.startTime)
    requires "StopTime" in f && f["StopTime"] == FloatValue(d.stopTime)
    requires "Info" in f && f["Info"] == TextValue(d.info)
    ensures ValidateSourceData(Obj(f), rev) == Some(d)
  {
  }

  /** A measurement in its domain survives dumping and validating again, under either revision. */
  lemma SourceDataRoundTrip(d: SourceData, rev: Revision)
    requires SourceDataInDomain(d)
    ensures ValidateSourceData(DumpSourceData(d), rev) == Some(d)
  {
    FieldsValidate(DumpSourceData(d).fields, d, rev);
  }

  lemma RowRoundTrip(r: Row, rev: Revision)
    requires Reparseable(r)
    ensures ResolveRow(DumpRow(r), rev) == Some(r)
  {
    if r.Measurement? {
      SourceDataRoundTrip(r.data, rev);
    }
  }

  /**
   * A stub whose `Info` was absent dumps to `{"Info": null}`, which neither
   * variant accepts: such a dump cannot be validated again.
   */
  lemma StubWithoutInfoIsNotReparsed(rev: Revision)
    ensures ResolveRow(DumpRow(Stub(None)), rev) == None
  {
    var v := DumpRow(Stub(None));
    assert "Frequency" !in v.fields;
  }

  /** Validating a list gives back `xs` when each element validates to the matching element of `xs`. */
  lemma EachRoundTrip<T>(vs: seq<Value>, xs: seq<T>, validate: Value -> Option<T>)
    requires |vs| == |xs|
    requires forall i :: 0 <= i < |xs| ==> validate(vs[i]) == Some(xs[i])
    ensures ValidateEach(vs, validate) == Some(xs)
  {
    var r := ValidateEach(vs, validate);
    assert r.Some?;
    assert r.value == xs;
  }

  lemma CatalogEntryRoundTrip(e: CatalogEntry, rev: Revision)
    requires AtLeast(e.catalog.errorRadius, 0.0)
    requires forall j :: 0 <= j < |e.rows| ==> Reparseable(e.rows[j])
    ensures ValidateCatalogEntry(DumpCatalogEntry(e), rev) == Some(e)
  {
    var rowValues := DumpCatalogEntry(e).fields["SourceData"].items;
    forall j | 0 <= j < |e.rows|
      ensures RowValidator(rev)(rowValues[j]) == Some(e.rows[j])
    {
      RowRoundTrip(e.rows[j], rev);
    }
    EachRoundTrip(rowValues, e.rows, RowValidator(rev));
  }

  /**
   * Dumping a response and validating the dump gives the same response, for
   * every response whose fields lie in their domains and whose stubs carry
   * their `Info` string.
   */
  lemma ResponseRoundTrip(r: Response, rev: Revision)
    requires ResponseReparseable(r)
    ensures ValidateResponse(DumpResponse(r), rev) == Some(r)
  {
    var fields := DumpResponse(r).fields;
    assert ValidateResponseInfo(fields["ResponseInfo"]) == Some(r.responseInfo);
    assert ValidateProperties(fields["Properties"]) == Some(r.properties);
    var entryValues := fields["Catalogs"].items;
    forall k | 0 <= k < |r.catalogs|
      ensures EntryValidator(rev)(entryValues[k]) == Some(r.catalogs[k])
    {
      CatalogEntryRoundTrip(r.catalogs[k], rev);
    }
    EachRoundTrip(entryValues, r.catalogs, EntryValidator(rev));
  }

  /**
   * A status code other than "OK" still validates into a response; only
   * `IsSuccessful` reports the failure.
   */
  lemma AnyStatusCodeParses(r: Response, rev: Revision)
    requires ResponseReparseable(r)
    ensures ValidateResponse(DumpResponse(r), rev).Some?
    ensures IsSuccessful(ValidateResponse(DumpResponse(r), rev).value) <==> r.responseInfo.statusCode == "OK"
  {
    ResponseRoundTrip(r, rev);
  }

  /** A row that neither variant accepts rejects the whole response. */
  lemma BadRowRejectsResponse(v: Value, rev: Revision, k: nat, j: nat)
    requires v.Obj? && ListMember(v.fields, "Catalogs").Some?
    requires k < |v.fields["Catalogs"].items|
    requires v.fields["Catalogs"].items[k].Obj?
    requires ListMember(v.fields["Catalogs"].items[k].fields, "SourceData").Some?
    requires j < |v.fields["Catalogs"].items[k].fields["SourceData"].items|
    requires ResolveRow(v.fields["Catalogs"].items[k].fields["SourceData"].items[j], rev).None?
    ensures ValidateResponse(v, rev).None?
  {
    var entry := v.fields["Catalogs"].items[k];
    var rowValues := entry.fields["SourceData"].items;
    assert RowValidator(rev)(rowValues[j]).None?;
    assert ValidateCatalogEntry(entry, rev).None?;
    assert EntryValidator(rev)(v.fields["Catalogs"].items[k]).None?;
  }

  /** An absent, negative, NaN or non-numeric `Nh` rejects the whole response. */
  lemma BadNhRejectsResponse(v: Value, rev: Revision)
    requires v.Obj? && "Properties" in v.fields && v.fields["Properties"].Obj?
    requires !("Nh" in v.fields["Properties"].fields && v.fields["Properties"].fields["Nh"].Num?
               && AtLeast(v.fields["Properties"].fields["Nh"].n, 0.0))
    ensures ValidateResponse(v, rev).None?
  {
  }

  /** An absent, negative, NaN or non-numeric `ErrorRadius` in any catalog rejects the whole response. */
  lemma BadErrorRadiusRejectsResponse(v: Value, rev: Revision, k: nat)
    requires v.Obj? && ListMember(v.fields, "Catalogs").Some?
    requires k < |v.fields["Catalogs"].items|
    requires v.fields["Catalogs"].items[k].Obj?
    requires "Catalog" in v.fields["Catalogs"].items[k].fields
    requires v.fields["Catalogs"].items[k].fields["Catalog"].Obj?
    requires !("ErrorRadius" in v.fields["Catalogs"].items[k].fields["Catalog"].fields
               && v.fields["Catalogs"].items[k].fields["Catalog"].fields["ErrorRadius"].Num?
               && AtLeast(v.fields["Catalogs"].items[k].fields["Catalog"].fields["ErrorRadius"].n, 0.0))
    ensures ValidateResponse(v, rev).None?
  {
    var entry := v.fields["Catalogs"].items[k];
    assert ValidateCatalog(entry.fields["Catalog"]).None?;
    assert ValidateCatalogEntry(entry, rev).None?;
    assert EntryValidator(rev)(v.fields["Catalogs"].items[k]).None?;
  }

  /**
   * A row holding only the four required numbers: the current schema fills
   * `Name` and `Info` with "", the legacy schema with None.
   */
  lemma TextDefaultsDiffer(frequency: real, nufnu: real, frequencyError: real, nufnuError: real)
    requires frequency > 0.0 && frequencyError >= 0.0
    ensures var v := Obj(map[
              "Frequency" := Num(Finite(frequency)),
              "Nufnu" := Num(Finite(nufnu)),
              "FrequencyError" := Num(Finite(frequencyError)),
              "NufnuError" := Num(Finite(nufnuError))]);
            && ValidateSourceData(v, Current) == Some(SourceData(
                 Finite(frequency), Finite(nufnu), Finite(frequencyError), Finite(nufnuError),
                 Some(""), None, None, None, Some("")))
            && ValidateSourceData(v, Legacy) == Some(SourceData(
                 Finite(frequency), Finite(nufnu), Finite(frequencyError), Finite(nufnuError),
                 None, None, None, None, None))
  {
  }
}
