# sedbuilder: response schema and table conversions

This project models the core of `sedbuilder`, a Python client for the ASI-SSDC SED Builder service. The service returns, for a position on the sky, the spectral energy distribution (SED) measurements that many catalogs hold near that position. The model covers five things:

- **The response schema.** A decoded JSON document becomes a validated `Response`: a status record, the hydrogen column density `Nh`, and a list of catalog entries. Each entry pairs a catalog descriptor with its rows. A row is either a full measurement (`SourceData`) or the warning-only stub (`UpperLimits`) that the service currently sends. Validation is all-or-nothing, and the domain of every bounded field is stated with IEEE float semantics: NaN fails every bound and +inf passes a lower bound. The two schema revisions (`schemas.py` and the earlier `_schemas.py`) share one validator, parameterised by `Revision`; they differ only in the default of a measurement's `Name` and `Info`.
- **The column registry** (`AstropySchema`). It fixes the eleven output columns in order, with their dtype and unit, and the single metadata property `Nh`, whose unit is cm^-2.
- **`to_astropy`.** This is an imperative method with the source's nested loops. It collects one data row and one catalog row per measurement and skips stubs. It then builds and stacks the two tables, and the metadata loop adds `Nh` with its unit.
- **`to_jetset`.** The five arguments are validated first, and every invalid argument is named. The flat table is then rebuilt under jetset's column names `x`, `dx`, `y`, `dy`, `T_start`, `T_stop`, `UL`, `dataset`, with `nan_to_num` applied to the times. Its metadata is exactly the five arguments.
- **`get_data`.** The coordinates are checked (`0 <= ra < 360`, `-90 <= dec <= 90`) before anything is sent. The service is a function parameter, and its answer is validated against the earlier schema revision.

The model is organised in these modules:

- `Wrappers`: `Option` and `Result`.
- `Json`: the decoded values and the float comparisons.
- `Schema`: records, validators, the dump back to JSON, and the round trips.
- `Registry`: the column registry.
- `Tables`: the table operations used.
- `Projection`: `to_astropy` and its row bookkeeping.
- `Jetset`: `to_jetset`.
- `Requests`: `get_data`.

Where a comment in the code and the code itself disagree, the model follows the code. Two such differences exist:

- The `to_jetset` docstring says:
  - `ul_cl` lies in the open interval (0, 1), but the code's bound is inclusive (`ge=0.0, le=1.0`), so 0 and 1 are accepted;
  - an empty `obj_name` is an error, but the code accepts any string;
  - missing table columns raise an error, but the code never does, and the model proves the columns are always present.
- `T_start` and `T_stop` are taken through `.value`, so they carry no unit (the `day` unit of the flat table is dropped). `nan_to_num` maps an absent time (NaN) to 0 and +inf to the largest finite float64.

The restframe literals are `"obs"` and `"src"` and the data-scale literals `"lin-lin"` and `"log-log"`, in the docstring and the code alike.

One consequence of the schema is proved rather than assumed. A stub row without `Info` dumps to `{"Info": null}`, and that document does not validate again, because `UpperLimits.Info` is typed `str` and only its default is `None`. Every other row round-trips through the dump.

## Model

| member | source | states |
|---|---|---|
| Json.ClosedIntervalIsFinite | sedbuilder/requests.py:20 | a closed bound pair admits exactly the finite floats in the interval: NaN and both infinities fail |
| Json.HalfOpenIntervalIsFinite | sedbuilder/requests.py:19 | a `ge`/`lt` pair admits exactly the finite floats in the half-open interval |
| Schema.ValidateEach | sedbuilder/schemas.py:126 | a list validates iff every element does, and then yields each element's result, in order and of the same length |
| Schema.ValidateResponseInfo | sedbuilder/schemas.py:20-29 | an accepted status record comes from an object whose `statusCode` is that string |
| Schema.ResponseInfoAcceptance | sedbuilder/_schemas.py:13-22 | the status record is accepted iff `statusCode` is a string and `message` absent, null or a string; it holds that code and message, None when absent |
| Schema.PropertiesAcceptance | sedbuilder/schemas.py:32-42 | the properties are accepted iff `Nh` is present and a number `>= 0`, and then hold that number |
| Schema.CatalogAcceptance | sedbuilder/schemas.py:45-57 | a catalog is accepted iff `CatalogName` is a string and `ErrorRadius` a number `>= 0`, and then holds both |
| Schema.CatalogEntryAcceptance | sedbuilder/schemas.py:117-126 | an entry is accepted iff its `Catalog` validates and `SourceData` is a list of rows that all resolve; it then holds that catalog and the resolved rows in order |
| Schema.ResponseAcceptance | sedbuilder/schemas.py:185-198 | a response is accepted iff `ResponseInfo` and `Properties` validate and `Catalogs` is a list of entries that all validate; it then holds those, entries in order |
| Schema.ValidateProperties | sedbuilder/schemas.py:32-42 | an accepted `Nh` satisfies `ge=0.0` |
| Schema.ValidateCatalog | sedbuilder/schemas.py:45-57 | an accepted `ErrorRadius` satisfies `ge=0.0` |
| Schema.ValidateSourceData | sedbuilder/schemas.py:60-101 | an accepted measurement satisfies every field bound (`Frequency > 0`, errors, distance and times `>= 0`) |
| Schema.SourceDataAcceptance | sedbuilder/schemas.py:60-101 | a value is accepted as a measurement iff it is an object with `Frequency` a number > 0, `Nufnu` and `NufnuError` numbers, `FrequencyError` a number >= 0, each optional float absent, null or a number >= 0 and each optional string absent, null or a string; the result then holds those values, with the revision's default for an absent `Name`/`Info` |
| Schema.BadFrequencyRejected | sedbuilder/schemas.py:66-69 | an absent, non-numeric, NaN or non-positive `Frequency` rejects the measurement |
| Schema.BadFrequencyErrorRejected | sedbuilder/schemas.py:74-77 | an absent, non-numeric, NaN or negative `FrequencyError` rejects the measurement |
| Schema.BadFluxRejected | sedbuilder/schemas.py:70-81 | an absent or non-numeric `Nufnu` or `NufnuError` rejects the measurement |
| Schema.BadOptionalFloatRejected | sedbuilder/schemas.py:86-97 | a present, non-null `AngularDistance`, `StartTime` or `StopTime` that is not a number >= 0 rejects the measurement |
| Schema.BadOptionalTextRejected | sedbuilder/schemas.py:82-85 | a present `Name` or `Info` that is neither null nor a string rejects the measurement |
| Schema.ResolveRow | sedbuilder/schemas.py:104-126 | a row is a measurement iff it validates as `SourceData`; otherwise it is a stub iff it is an object whose `Info` is absent or a string; a measurement holds the record `SourceData` validation gives; the result is in domain |
| Schema.RejectedMeasurementIsStub | sedbuilder/schemas.py:104-126 | a row failing the measurement conditions whose `Info` is absent or a string becomes a stub carrying that `Info` |
| Schema.BadFrequencyRowIsStub | sedbuilder/schemas.py:104-126 | a row with a bad `Frequency` and an `Info` string is a stub with that string |
| Schema.ValidateCatalogEntry | sedbuilder/schemas.py:117-126 | an accepted entry has `ErrorRadius >= 0` and every row in domain |
| Schema.ValidateResponse | sedbuilder/schemas.py:185-198 | an accepted response is in domain throughout |
| Schema.FieldsValidate | sedbuilder/schemas.py:60-101 | any object holding an in-domain measurement's nine fields, as numbers, strings or null, validates to exactly that measurement under either revision |
| Schema.SourceDataRoundTrip | sedbuilder/schemas.py:60-101 | every in-domain measurement validates back from its dump, under either revision |
| Schema.RowRoundTrip | sedbuilder/schemas.py:104-126 | a measurement, or a stub carrying `Info`, resolves back to itself from its dump |
| Schema.StubWithoutInfoIsNotReparsed | sedbuilder/schemas.py:111-114 | a stub without `Info` dumps to a document that is rejected |
| Schema.EachRoundTrip | sedbuilder/schemas.py:126 | validating a list whose elements each validate to the given values yields exactly those values |
| Schema.CatalogEntryRoundTrip | sedbuilder/schemas.py:117-126 | an in-domain entry whose rows round-trip validates back to itself |
| Schema.ResponseRoundTrip | sedbuilder/schemas.py:208-215 | `to_dict`'s dump of a response validates back to the same response |
| Schema.AnyStatusCodeParses | sedbuilder/schemas.py:200-206 | any status code is accepted, and the response is successful iff the code is `"OK"` |
| Schema.BadRowRejectsResponse | sedbuilder/schemas.py:117-126 | one row that fits neither union member rejects the whole response |
| Schema.BadNhRejectsResponse | sedbuilder/schemas.py:39-42 | an absent `Nh`, or one that is not a number `>= 0`, rejects the whole response |
| Schema.BadErrorRadiusRejectsResponse | sedbuilder/schemas.py:54-57 | an absent `ErrorRadius`, or one that is not a number `>= 0`, in any catalog rejects the whole response |
| Schema.TextDefaultsDiffer | sedbuilder/_schemas.py:57-66 | with the required fields only, the current schema defaults `Name`/`Info` to `""` and the earlier one to None |
| Registry.Columns | sedbuilder/schemas.py:161-175 | `"data"` selects only data columns and `"catalog"` only catalog columns |
| Registry.ColumnOrder | sedbuilder/schemas.py:161-175 | `"all"` is the data columns then the catalog columns, with the eleven names in table order |
| Registry.UnknownKindSelectsNothing | sedbuilder/schemas.py:161-175 | a kind other than the three literals yields no column |
| Registry.ColumnUnits | sedbuilder/schemas.py:148-159 | the unit of each of the eleven columns in order (Hz, erg/cm^2/s, arcsec, day, none) |
| Registry.StringColumnsHaveNoUnit | sedbuilder/schemas.py:148-158 | a column is a string column iff it has no unit |
| Registry.ColumnNamesDistinct | sedbuilder/schemas.py:148-158 | no two registry columns share a name |
| Tables.Lookup | sedbuilder/schemas.py:351-361 | selecting a column by name fails iff no column has the name, and otherwise yields a column of the table with that name |
| Tables.LookupFindsFirst | sedbuilder/schemas.py:351-361 | a column whose name no earlier column has is the one selected |
| Tables.Get | sedbuilder/schemas.py:351-361 | `t[name]` is a column of `t` with that name |
| Tables.HStack | sedbuilder/schemas.py:281 | stacking two tables of equal length keeps the length and concatenates the column names |
| Tables.AddColumn | sedbuilder/schemas.py:351 | adding a column appends its name |
| Tables.SetMeta | sedbuilder/schemas.py:284 | setting a metadata key adds it, holds the value, and leaves the columns alone |
| Projection.Measurements | sedbuilder/schemas.py:257-261 | the measurements of a row list are no more than its rows |
| Projection.CatalogRows | sedbuilder/schemas.py:254-261 | one catalog row per measurement row |
| Projection.MeasurementsCounted | sedbuilder/schemas.py:257-261 | the measurement list of a catalog has one element per measurement row |
| Projection.RowsCounted | sedbuilder/schemas.py:254-261 | the collected rows number the total of measurements across catalogs |
| Projection.MeasurementAt | sedbuilder/schemas.py:257-261 | the measurement at row `b` sits at its count of preceding measurements |
| Projection.MeasurementOrigin | sedbuilder/schemas.py:257-261 | every collected measurement comes from a measurement row at that position |
| Projection.PlacedAt | sedbuilder/schemas.py:254-261 | each measurement is collected at its position, paired with its own catalog |
| Projection.OriginOf | sedbuilder/schemas.py:254-261 | each collected row comes from one measurement at that position, paired with its own catalog |
| Projection.PositionsIncrease | sedbuilder/schemas.py:254-261 | the output order is the input order: a later measurement gets a later position |
| Projection.WithoutStubs | sedbuilder/schemas.py:258-259 | what remains of a row list are measurement rows of it, no more than it had |
| Projection.StripStubs | sedbuilder/schemas.py:258-259 | removing stubs keeps every entry and its catalog, and leaves only measurement rows |
| Projection.MeasurementsIgnoreStubs | sedbuilder/schemas.py:258-259 | stubs contribute no measurement |
| Projection.StubsContributeNothing | sedbuilder/schemas.py:258-259 | the collected rows are the same with the stubs removed |
| Projection.DataColumnOf | sedbuilder/schemas.py:264-270 | a data column has one cell per measurement |
| Projection.CatalogColumnOf | sedbuilder/schemas.py:273-279 | a catalog column has one cell per catalog row |
| Projection.DataTable | sedbuilder/schemas.py:264-270 | the data table has the nine data columns, each with one cell per measurement, and no metadata |
| Projection.CatalogTable | sedbuilder/schemas.py:273-279 | the catalog table has the two catalog columns, each with one cell per row, and no metadata |
| Projection.Stacked | sedbuilder/schemas.py:281 | the stacked table has all its columns of the measurement count |
| Projection.CollectRows | sedbuilder/schemas.py:254-261 | the nested loops collect exactly the measurements in catalog-then-row order, each paired with its catalog |
| Projection.AddMetadata | sedbuilder/schemas.py:283-286 | the metadata loop sets each registry property, as a quantity when it has a unit, and changes nothing else |
| Projection.ToAstropy | sedbuilder/schemas.py:244-287 | the loops build exactly the table of the collected rows under the registry columns, with the registry metadata |
| Projection.StackedLayout | sedbuilder/schemas.py:263-281 | stacking the tables of any two equally long row lists gives the eleven registry columns in order, with their dtypes and units, all of that length |
| Projection.StackedRowAt | sedbuilder/schemas.py:263-281 | row `i` of that stack is the `i`-th measurement's fields followed by the `i`-th catalog's |
| Projection.SelectAt | sedbuilder/schemas.py:351-361 | in a table with the flat column names, each name selects the column at its position |
| Projection.AstropyColumns | sedbuilder/schemas.py:244-287 | the flat table has the eleven registry columns in order, with their dtypes and units, and one row per measurement |
| Projection.AstropyGet | sedbuilder/schemas.py:351-361 | selecting a registry name from the flat table gives the column at that registry position, with that registry unit |
| Projection.AstropyMetadata | sedbuilder/schemas.py:283-286 | the metadata is exactly `Nh` multiplied by cm^-2 |
| Projection.AstropyRowIs | sedbuilder/schemas.py:254-270 | row `i` holds the `i`-th measurement's fields (absent floats as NaN) and its catalog's fields |
| Projection.AstropyRowOrigin | sedbuilder/schemas.py:254-270 | every output row is some measurement of the response, at its position, with its own catalog |
| Projection.AstropyRowPlacement | sedbuilder/schemas.py:254-270 | every measurement of the response appears at its position with its own catalog |
| Projection.AstropyIgnoresStubs | sedbuilder/schemas.py:258-259 | removing stubs does not change the table |
| Jetset.ValidateArguments | sedbuilder/schemas.py:289-311 | the arguments are accepted iff all are valid, giving their values; otherwise each argument is listed iff it is invalid |
| Jetset.NanToZeroCleans | sedbuilder/schemas.py:356-358 | after `nan_to_num` no float cell is NaN or infinite, other cells are untouched, and applying it again changes nothing |
| Jetset.FlatSelect | sedbuilder/schemas.py:351-361 | in a table with the flat column names, the seven columns `to_jetset` selects exist and sit at positions 1, 2, 3, 4, 6, 7 and 9 |
| Jetset.AstropyHasJetsetInputs | sedbuilder/schemas.py:349-361 | every column `to_jetset` selects exists in the flat table, at its registry position |
| Jetset.AstropyInputUnits | sedbuilder/schemas.py:149-157 | the selected frequency columns are in Hz, the flux columns in erg/cm^2/s, and the catalog column has no unit |
| Jetset.AstropyInputs | sedbuilder/schemas.py:349-361 | each selected column's row `i` holds the `i`-th measurement's value or its catalog's name |
| Jetset.FromAstropy | sedbuilder/schemas.py:350-366 | adding the columns and metadata one by one builds exactly the jetset table |
| Jetset.ToJetset | sedbuilder/schemas.py:289-367 | fails iff an argument is invalid, with the same list of invalid arguments; otherwise returns the jetset table of the response's flat table |
| Jetset.AssembledShape | sedbuilder/schemas.py:350-361 | seven columns of one length assemble into the eight jetset columns in order, units kept, none on times and flags, of that length |
| Jetset.JetsetShape | sedbuilder/schemas.py:350-361 | for any table with the inputs, the eight jetset columns in order, units taken from the inputs and none on times and flags, and the same row count |
| Jetset.JetsetRowOf | sedbuilder/schemas.py:350-361 | row `i` of the jetset table is the inputs' row `i`, with `nan_to_num` on the times and a false `UL` |
| Jetset.JetsetLayout | sedbuilder/schemas.py:349-361 | for a response, the jetset columns are in Hz, Hz, erg/cm^2/s, erg/cm^2/s then unitless, with one row per measurement |
| Jetset.JetsetMetadata | sedbuilder/schemas.py:362-366 | the metadata is exactly the five arguments under their keys, and `Nh` is not carried over |
| Jetset.JetsetRowIs | sedbuilder/schemas.py:349-361 | row `i` holds the `i`-th measurement's frequency, errors, flux, times (absent as 0), false `UL` and its catalog's name |
| Jetset.TimeOrZeroNonNegative | sedbuilder/schemas.py:90-97 | an admissible time reaches jetset as a number `>= 0`, an absent one as 0, and a finite one unchanged |
| Jetset.DefaultsAccepted | sedbuilder/schemas.py:296-311 | the defaults (0.95, "obs", "lin-lin", "new-src") are valid with any redshift in [0, 1] |
| Jetset.InclusiveBoundsAndEmptyName | sedbuilder/schemas.py:292-299 | 0 and 1 are accepted for `z` and `ul_cl`, and an empty object name is accepted |
| Jetset.RedshiftAboveOneRejected | sedbuilder/schemas.py:292-295 | `z = 1.5` is rejected, and only `z` is named |
| Jetset.NegativeAndNaNRejected | sedbuilder/schemas.py:292-299 | a negative `z` and a NaN `ul_cl` are both named |
| Jetset.LongSpellingsRejected | sedbuilder/schemas.py:300-307 | "observed" and "linear" are rejected and named |
| Jetset.AllInvalidNamedInOrder | sedbuilder/schemas.py:290-311 | with all five invalid, all five are named in parameter order |
| Requests.GetData | sedbuilder/requests.py:17-42 | the service is asked iff both coordinates are valid, with their finite values; otherwise each invalid coordinate is named; the answer is validated with the earlier schema |
| Requests.DecBoundaries | tests/test_get_data.py:50-64 | both poles are accepted, and -90.001 and 90.001 are rejected |
| Requests.RaBoundaries | tests/test_get_data.py:31-48 | 0 and 359.999 are accepted, and 360, 361 and -1 are rejected |
| Requests.SpecialValuesRejected | tests/test_get_data.py:66-86 | NaN, the infinities, strings and null are rejected for the coordinate they are given to |
| Requests.MinimalAnswerParses | tests/test_get_data.py:12-29 | the minimal service answer yields a successful response with no catalogs |

## Left out

- The HTTP request and the URL built from the coordinates (`APIPaths`, `httpx.get`). The service is a function from the query to the decoded answer, and `_endpoints.py` is not part of this model.
- JSON text decoding and encoding (`r.json()`, `json.dumps` in `to_json`, `get_data_from_json` in `utils.py`). The model starts from the decoded value, and `to_dict` appears only as the dump used by the round trips. A non-object answer, which `SEDResponse(**r.json())` refuses with a `TypeError`, is modelled as rejected.
- `to_pandas`: a conversion done entirely by a third-party library.
- pydantic's lax coercions (numeric strings and booleans accepted as floats). The model accepts only numbers, integral or not, for float fields and only strings for string fields.
- The contents of validation error messages. A failed validation is `None`, or the list of invalid arguments.
- Float64 rounding. Numbers are exact reals together with NaN and the infinities, and the decoding of a numeral to the nearest float64 is not modelled.
- How numpy renders a missing string in a `str` column: text cells keep `None` as such.
- astropy quantity arithmetic: a unit is a tag on a column or a metadata value.
- Schema.ValidateSourceData: its own contract states only the field bounds of an accepted measurement; when a value is accepted, and what it yields, is stated by `SourceDataAcceptance` and the `Bad*Rejected` lemmas.
- Schema.ValidateResponseInfo: its own contract states only where an accepted status code comes from; when a value is accepted, and what it yields, is stated by `ResponseInfoAcceptance`.
- Schema.ValidateProperties: its own contract states only the bound of an accepted `Nh`; when a value is accepted, and what it yields, is stated by `PropertiesAcceptance`.
- Schema.ValidateCatalog: its own contract states only the bound of an accepted `ErrorRadius`; when a value is accepted, and what it yields, is stated by `CatalogAcceptance`.
- Schema.ValidateCatalogEntry: its own contract states only the domain of an accepted entry; when a value is accepted, and what it yields, is stated by `CatalogEntryAcceptance`.
- Schema.ValidateResponse: its own contract states only the domain of an accepted response; when a value is accepted, and what it yields, is stated by `ResponseAcceptance`.
- A response with no measurement at all (no catalogs, or only stubs). The model gives the empty table with all eleven columns, their dtypes and units: it assumes astropy builds such a table from an empty row list with given names, dtypes and units, and does not model a constructor error there; astropy is not part of this model.
