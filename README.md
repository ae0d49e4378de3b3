# Virtual layer provider and feature iterator, modelled in Dafny

This project models two parts of the QGIS virtual-layer provider (qgis_vtable).

**The feature iterator** (`QgsVirtualLayerFeatureIterator`):
- `quotedColumn` escapes an SQL identifier.
- The constructor turns a feature request into one `SELECT` statement. The statement has a column list (the uid or `0`, the lower-cased field names, the geometry column) and a `WHERE` clause (the subset string, then at most one rectangle, fid or fids condition).
- `fetchFeature`, `rewind` and `close` form a state machine over the statement's rows, the closed flag and the auto-id counter.

**The provider** (`QgsVirtualLayerProvider`):
- The constructor reads the URL's query items (`layer_id`, `geometry`, `uid`, `query`) in order. It checks each layer id against the map layer registry, then runs three ordered consistency checks, each with its own error message.
- `getSqliteFields` classifies declared SQLite column types into field types and skips geometry columns.
- A switch maps each QGIS WKB type to a SpatiaLite type name, a coordinate dimension and a WKB code. The `has_geometry` flag is set when some layer has a non-zero code.

Modules, one per file:

- `Wrappers`: `Option`, the nullable value used for null strings and absent results.
- `Text`: digits and decimal text, counting characters, `Join`/`Split`, ASCII lower-casing.
- `QtArg`: `QString::arg` with a string argument. Each call replaces every occurrence of the lowest-numbered marker, `%N` or its localized form `%LN`. A chain of calls re-scans the whole string, text inserted by earlier calls included.
- `Fields`: field types and fields.
- `IteratorSql`: identifier quoting, the WHERE conditions, the field selection, the column list and the statement text.
- `FeatureIteration`: the row-to-feature mapping, the fetch/rewind/close state machine, and the `FeatureIterator` class whose methods are proved against it.
- `SqliteFields`: the `PRAGMA table_info` classification loop.
- `WkbTable`: the WKB switch and `has_geometry`.
- `GeometrySpec`: the `geometry` item. It matches the regular expression `(\w+):(\d+):(\d+)` (leftmost match, greedy groups) and converts the numbers with `toLong`.
- `VirtualLayerProvider`: the item loop, the consistency checks, the `Open` outcome, and the `Provider` class whose constructor is proved equal to it.

External inputs are passed in as parameters:
- the rows a prepared statement yields (`ResultSet`);
- the rows of `PRAGMA table_info` (`ColumnInfo`);
- the map layer registry (a map from layer id to kind and WKB type);
- the parsed URL (validity flag, path, query items).

The rectangle of a spatial filter is passed as its already rendered text.

## Model

| member | source | states |
|---|---|---|
| IteratorSql.Escape | cpp/qgsvirtuallayerfeatureiterator.cpp:6 | doubling `"` lengthens the name by its number of `"` and introduces no other character |
| IteratorSql.QuotedColumn | cpp/qgsvirtuallayerfeatureiterator.cpp:4-7 | the quoted name starts and ends with `"`, has length \|name\| + count(`"`) + 2, and holds only `"` and the name's characters |
| IteratorSql.EscapeWithoutQuote | cpp/qgsvirtuallayerfeatureiterator.cpp:4-7 | a name without `"` is left unchanged inside the quotes |
| IteratorSql.UnescapeEscape | cpp/qgsvirtuallayerfeatureiterator.cpp:6 | collapsing `""` back to `"` undoes the escaping |
| IteratorSql.QuotedColumnRoundTrip | cpp/qgsvirtuallayerfeatureiterator.cpp:4-7 | stripping the outer quotes and collapsing `""` gives the name back |
| IteratorSql.QuotedColumnInjective | cpp/qgsvirtuallayerfeatureiterator.cpp:4-7 | two different names never quote to the same identifier |
| IteratorSql.FilterCondition | cpp/qgsvirtuallayerfeatureiterator.cpp:24-50 | at most one condition; there is one exactly when the filter is a rectangle and the geometry field is non-null, or a fid / fid set and the uid is non-null |
| IteratorSql.BuildConditions | cpp/qgsvirtuallayerfeatureiterator.cpp:18-50 | the `wheres` list is the subset string (when non-null) followed by the filter's condition |
| IteratorSql.Conditions | cpp/qgsvirtuallayerfeatureiterator.cpp:18-50 | at most two conditions; none exactly when the subset string is null and the filter contributes none; the subset string comes first and the filter's condition last |
| IteratorSql.RectCondition | cpp/qgsvirtuallayerfeatureiterator.cpp:24-31 | the intended rectangle condition, built by concatenation; `RectConditionDecodes` proves it reads back to its parts |
| IteratorSql.FidCondition | cpp/qgsvirtuallayerfeatureiterator.cpp:33-37 | the intended fid condition, built by concatenation; `FidConditionDecodes` proves it reads back to the uid and the fid |
| IteratorSql.FidsCondition | cpp/qgsvirtuallayerfeatureiterator.cpp:38-50 | the quoted uid, ` IN (`, the fid list and `)`; `FidsListRoundTrip` proves the list splits back into the fids and `BuildFidsCondition` that the loop builds it |
| IteratorSql.RectConditionAsWritten | cpp/qgsvirtuallayerfeatureiterator.cpp:28-31 | the rectangle condition as the source builds it, by three chained `.arg` calls on the template; `RectConditionAsWrittenAgrees` and `RectConditionAsWrittenRewritesMarker` relate it to the intended one |
| IteratorSql.FidConditionAsWritten | cpp/qgsvirtuallayerfeatureiterator.cpp:34-36 | the fid condition as the source builds it, by two chained `.arg` calls, the fid given as its plain decimal text (the locale form of a `%LN` marker is under Left out); `FidConditionAsWrittenAgrees` and `FidConditionAsWrittenRewritesMarker` relate it to the intended one |
| IteratorSql.FidConditionDecodes | cpp/qgsvirtuallayerfeatureiterator.cpp:33-37 | the intended fid condition is the quoted uid, which reads back to the uid, then `=`, then decimal text that reads back to the fid |
| IteratorSql.RectConditionDecodes | cpp/qgsvirtuallayerfeatureiterator.cpp:24-31 | the intended rectangle condition is `Mbr` exactly when ExactIntersect is set, then `Intersects(`, then the quoted geometry column, which reads back to the column, then `,BuildMbr(` and the rectangle |
| IteratorSql.FidsListRoundTrip | cpp/qgsvirtuallayerfeatureiterator.cpp:38-49 | the fid list holds \|fids\| - 1 commas and splits at them into the decimal text of each fid, in order |
| IteratorSql.BuildFidsCondition | cpp/qgsvirtuallayerfeatureiterator.cpp:38-49 | the loop with its `first` flag builds the quoted uid, ` IN (`, the fids joined by single commas, and `)` |
| IteratorSql.FidConditionAsWrittenAgrees | cpp/qgsvirtuallayerfeatureiterator.cpp:34-36 | while the uid holds no `%`, the chained `.arg` calls build the intended fid condition |
| IteratorSql.FidFirstArgOfMarkerUid | cpp/qgsvirtuallayerfeatureiterator.cpp:34-35 | the first `.arg` inserts the quoted uid `"%2"`, which carries a live marker into the text |
| IteratorSql.FidConditionAsWrittenRewritesMarker | cpp/qgsvirtuallayerfeatureiterator.cpp:34-36 | with a uid named `%2`, the second `.arg` rewrites the uid's marker too: the condition compares the id with itself |
| IteratorSql.RectConditionAsWrittenAgrees | cpp/qgsvirtuallayerfeatureiterator.cpp:28-31 | while the geometry column holds no `%`, the three chained `.arg` calls build the intended rectangle condition |
| IteratorSql.CapturedChain | cpp/qgsvirtuallayerfeatureiterator.cpp:28-31 | with a geometry column named `%2`, the third `.arg` fills the column's marker and leaves `%3` in the text |
| IteratorSql.CapturedIntended | cpp/qgsvirtuallayerfeatureiterator.cpp:28-31 | that text is the intended condition with the rectangle as the column and `%3` as the rectangle |
| IteratorSql.CapturedDiffers | cpp/qgsvirtuallayerfeatureiterator.cpp:28-31 | that text differs from the intended condition for the `%2` column |
| IteratorSql.RectConditionAsWrittenRewritesMarker | cpp/qgsvirtuallayerfeatureiterator.cpp:28-31 | with a geometry column named `%2`, the condition as written is the intended one for column = rectangle and rectangle = `%3`, not the intended one |
| IteratorSql.AppendField | cpp/qgsvirtuallayerfeatureiterator.cpp:55 | `QgsFields::append`: the name is present afterwards; the list is unchanged exactly when a field of that name was already there, otherwise the field is added at the end; distinct names stay distinct |
| IteratorSql.AppendEachFirstOccurrences | cpp/qgsvirtuallayerfeatureiterator.cpp:52-56 | appending the requested fields one by one keeps exactly the first field of each name: names distinct, every requested name present, each kept field the first request of its name, in the order of those first requests |
| IteratorSql.AppendEachKeepsDistinct | cpp/qgsvirtuallayerfeatureiterator.cpp:52-56 | a request without repeated names keeps every requested field, in request order |
| IteratorSql.SelectFields | cpp/qgsvirtuallayerfeatureiterator.cpp:52-60 | the fields are all provider fields, or the requested indices' fields appended one by one with a repeated name refused, as `AppendEachFirstOccurrences` characterises |
| IteratorSql.ColumnLayout | cpp/qgsvirtuallayerfeatureiterator.cpp:62-80 | column 0 is the quoted uid or `0`; column i+1 reads back to field i's lower-cased name; a last column exists and reads back to the geometry column exactly when one is selected |
| IteratorSql.ColumnNamesSnoc | cpp/qgsvirtuallayerfeatureiterator.cpp:71-75 | one more field adds exactly its quoted, lower-cased column at the end |
| IteratorSql.ColumnNamesGeometry | cpp/qgsvirtuallayerfeatureiterator.cpp:78-80 | a selected geometry column comes after all field columns |
| IteratorSql.BuildColumnList | cpp/qgsvirtuallayerfeatureiterator.cpp:62-80 | the loop builds the column names joined by `,` |
| IteratorSql.JoinConditions | cpp/qgsvirtuallayerfeatureiterator.cpp:84 | the joined `wheres` is empty only without subset and filter; otherwise it is the subset, the filter condition, or both separated by ` AND ` |
| IteratorSql.WhereClause | cpp/qgsvirtuallayerfeatureiterator.cpp:82-85 | the statement is `SELECT columns FROM (query)`, followed by ` WHERE ` and the conditions only when there is at least one |
| IteratorSql.QueryText | cpp/qgsvirtuallayerfeatureiterator.cpp:62-85 | the statement for a definition, subset, request and selected fields: the column list of `ColumnLayout` and the conditions of `Conditions`, shaped as `WhereClause` states; the iterator's constructor is proved to build it |
| FeatureIteration.ReadAttribute | cpp/qgsvirtuallayerfeatureiterator.cpp:144-155 | an attribute is read only for Int, Double and String fields, and from the given column |
| FeatureIteration.AttributesOf | cpp/qgsvirtuallayerfeatureiterator.cpp:143-155 | one attribute per field; attribute i is read from column i + 1 |
| FeatureIteration.GeometryOf | cpp/qgsvirtuallayerfeatureiterator.cpp:156-161 | a geometry is read exactly when the row has more columns than fields + 1, and from the last column |
| FeatureIteration.ReadAttributes | cpp/qgsvirtuallayerfeatureiterator.cpp:143-155 | the attribute loop reads what `AttributesOf` specifies |
| FeatureIteration.FeatureAt | cpp/qgsvirtuallayerfeatureiterator.cpp:132-161 | the feature of a row: the counter as id without a uid, otherwise column 0; one attribute per selected field; a geometry exactly when the statement has more columns than fields + 1 |
| FeatureIteration.Fetch | cpp/qgsvirtuallayerfeatureiterator.cpp:123-164 | nothing, with the state unchanged, once closed or past the last row; otherwise a feature, with the row position advanced |
| FeatureIteration.RewindStep | cpp/qgsvirtuallayerfeatureiterator.cpp:99-108 | refused when closed; otherwise the statement and the auto-id counter both restart (corrected rewind) |
| FeatureIteration.RewindStepAsWritten | cpp/qgsvirtuallayerfeatureiterator.cpp:99-108 | refused when closed; otherwise the statement restarts but the counter keeps its value |
| FeatureIteration.CloseStep | cpp/qgsvirtuallayerfeatureiterator.cpp:110-121 | succeeds only when open; afterwards the iterator is closed and nothing else changes |
| FeatureIteration.ClosedIsFinal | cpp/qgsvirtuallayerfeatureiterator.cpp:99-127 | a closed iterator refuses fetch, rewind and close and keeps its state |
| FeatureIteration.SecondCloseFails | cpp/qgsvirtuallayerfeatureiterator.cpp:110-121 | a second close returns false |
| FeatureIteration.FetchNPass | cpp/qgsvirtuallayerfeatureiterator.cpp:123-141 | k fetches within the rows yield k features: the j-th is built from row position + j and, without a uid, has id fid + j |
| FeatureIteration.AutoIdsCount | cpp/qgsvirtuallayerfeatureiterator.cpp:134-137 | without a uid, the first pass numbers its features 0, 1, 2, ... |
| FeatureIteration.FetchAfterEnd | cpp/qgsvirtuallayerfeatureiterator.cpp:128-130 | past the last row, fetching yields nothing and changes nothing, for a statement that stays finished (see Left out) |
| FeatureIteration.OperationsKeepIdsInStep | cpp/qgsvirtuallayerfeatureiterator.cpp:91-141 | with the corrected rewind, every operation keeps the counter equal to the row position (without a uid) |
| FeatureIteration.RewindReplaysPass | cpp/qgsvirtuallayerfeatureiterator.cpp:99-108 | with the corrected rewind, a full pass, a rewind and a second full pass yield the same features |
| FeatureIteration.RewindAsWrittenRenumbers | cpp/qgsvirtuallayerfeatureiterator.cpp:99-108 | as written, the second pass after a rewind starts its ids at the row count instead of 0, which breaks the counter invariant |
| FeatureIteration.GeometryReadIffSelected | cpp/qgsvirtuallayerfeatureiterator.cpp:156-161 | for rows shaped by the column list, a geometry is read exactly when a geometry column was selected, and attribute i comes from field i's column |
| FeatureIteration.FeatureIterator.constructor | cpp/qgsvirtuallayerfeatureiterator.cpp:9-92 | the statement is the `SELECT` text for the definition, subset and request, over the fields `SelectedFields` keeps (a repeated field name requested once); the iterator starts open with counter 0 at the first row |
| FeatureIteration.FeatureIterator.FetchFeature | cpp/qgsvirtuallayerfeatureiterator.cpp:123-164 | the returned feature and the new state are those of `Fetch` |
| FeatureIteration.FeatureIterator.Rewind | cpp/qgsvirtuallayerfeatureiterator.cpp:99-108 | the result and the new state are those of the corrected rewind |
| FeatureIteration.FeatureIterator.Close | cpp/qgsvirtuallayerfeatureiterator.cpp:110-121 | the result and the new state are those of `CloseStep` |
| SqliteFields.DeclaredAttrType | cpp/qgsvirtuallayerprovider.cpp:55-72 | `INT` gives Int, `REAL` gives Double, the six geometry names give no field, and every other name gives String |
| SqliteFields.FieldsOf | cpp/qgsvirtuallayerprovider.cpp:50-73 | the fields of the rows in row order, never more than there are rows; `FieldCount` gives the exact number |
| SqliteFields.ReadFields | cpp/qgsvirtuallayerprovider.cpp:50-73 | the row loop yields the fields of the non-geometry rows in row order |
| SqliteFields.FieldsOfAppend | cpp/qgsvirtuallayerprovider.cpp:50-73 | the fields of two runs of rows are the first run's followed by the second's |
| SqliteFields.FieldsOfSingle | cpp/qgsvirtuallayerprovider.cpp:55-72 | one row gives its field, or none for a geometry type |
| SqliteFields.FieldCount | cpp/qgsvirtuallayerprovider.cpp:50-73 | the number of fields is the number of rows minus the number of geometry rows |
| SqliteFields.GeometryColumnsAreSkipped | cpp/qgsvirtuallayerprovider.cpp:64-67 | every type name the WKB switch produces is skipped by the classification |
| WkbTable.GeometryColumnOf | cpp/qgsvirtuallayerprovider.cpp:189-255 | 2D types have dimension 2 and a code in 1..6; 2.5D types have dimension 3 and a code in 1001..1006; NoGeometry gives ("", 0, 0); WKBUnknown has no case |
| WkbTable.Variant25D | cpp/qgsvirtuallayerprovider.cpp:189-255 | a 2.5D type has its 2D type's name, dimension 3 and the 2D code + 1000 |
| WkbTable.CodeIdentifiesType | cpp/qgsvirtuallayerprovider.cpp:189-255 | no two handled types share a code |
| WkbTable.CodeZeroIffNoGeometry | cpp/qgsvirtuallayerprovider.cpp:189-255 | the code is 0 exactly for NoGeometry |
| WkbTable.HasGeometry | cpp/qgsvirtuallayerprovider.cpp:180-261 | `has_geometry` is true iff some layer's code is non-zero, that is iff some layer has a geometry type |
| GeometrySpec.FirstMatch | cpp/qgsvirtuallayerprovider.cpp:122-123 | `QRegExp::indexIn`: the match at the first position from which one exists; `FirstMatchWellFormed` and `FirstMatchShift` state its properties |
| GeometrySpec.FirstMatchWellFormed | cpp/qgsvirtuallayerprovider.cpp:122-123 | any match has a non-empty word name and two non-empty digit groups |
| GeometrySpec.ToLong | cpp/qgsvirtuallayerprovider.cpp:126-127 | `toLong` of a digit group lies in 0 .. 2^63 - 1 |
| GeometrySpec.ToLongOfNumber | cpp/qgsvirtuallayerprovider.cpp:126-127 | `toLong` returns the number when it fits in a `long` and 0 when it overflows |
| GeometrySpec.ParseGeometryItem | cpp/qgsvirtuallayerprovider.cpp:119-130 | a field is defined only by a match; its name is a non-empty word and both numbers are in `long` range |
| GeometrySpec.NoColonNoMatch | cpp/qgsvirtuallayerprovider.cpp:122-130 | a value without `:` defines no geometry field |
| GeometrySpec.SpecMatch | cpp/qgsvirtuallayerprovider.cpp:122-123 | `name:digits:digits` matches at its start with exactly those three groups |
| GeometrySpec.SpecRoundTrip | cpp/qgsvirtuallayerprovider.cpp:119-130 | writing a field as `name:wkbType:srid` in decimal and parsing it gives the field back when the numbers fit in a `long` |
| GeometrySpec.FirstMatchShift | cpp/qgsvirtuallayerprovider.cpp:122-123 | a search from inside the value does not depend on the text before it |
| GeometrySpec.LeadingTextIgnored | cpp/qgsvirtuallayerprovider.cpp:122-123 | a search that starts in leading text without `:` ending in a non-word character finds the value's own first match |
| GeometrySpec.LeadingTextKeepsField | cpp/qgsvirtuallayerprovider.cpp:119-130 | such leading text does not change the field the item defines |
| VirtualLayerProvider.CannotFindLayerMessage | cpp/qgsvirtuallayerprovider.cpp:109 | `.arg` on "Cannot find layer %1" inserts the id as given, whatever it holds |
| VirtualLayerProvider.NotVectorLayerMessage | cpp/qgsvirtuallayerprovider.cpp:114 | `.arg` on "Layer %1 is not a vector layer" inserts the id as given |
| VirtualLayerProvider.LayerProblem | cpp/qgsvirtuallayerprovider.cpp:105-116 | a layer id is refused exactly when it is not a registered vector layer, and the message is then longer than the id |
| VirtualLayerProvider.ApplyItem | cpp/qgsvirtuallayerprovider.cpp:102-136 | an item fails exactly when it is a refused `layer_id`, and then the state is unchanged and the message non-empty |
| VirtualLayerProvider.FoldItems | cpp/qgsvirtuallayerprovider.cpp:100-137 | the loop fails exactly when some item is a refused layer, with a non-empty message |
| VirtualLayerProvider.FoldAppend | cpp/qgsvirtuallayerprovider.cpp:100-137 | the loop over two runs of items is the second run continued from the first's state, unless the first failed |
| VirtualLayerProvider.ExtendCons | cpp/qgsvirtuallayerprovider.cpp:102-136 | one accepted item followed by the rest contributes exactly what the item-wise description says |
| VirtualLayerProvider.FoldAccepted | cpp/qgsvirtuallayerprovider.cpp:100-137 | with every layer accepted, the loop keeps the layer ids and matched geometry fields in item order, the last `uid`, the last `query`, and the last matched geometry's name |
| VirtualLayerProvider.FoldStopsAtFirstRefused | cpp/qgsvirtuallayerprovider.cpp:104-115 | the loop stops at the first refused layer, with its message and the state built from the items before it |
| VirtualLayerProvider.UnknownKeyIgnored | cpp/qgsvirtuallayerprovider.cpp:100-137 | an item with an unknown key can be removed from anywhere without changing the outcome |
| VirtualLayerProvider.FoldLayersRegistered | cpp/qgsvirtuallayerprovider.cpp:104-117 | the loop only keeps registered vector layers, whether it completes or stops |
| VirtualLayerProvider.ConsistencyError | cpp/qgsvirtuallayerprovider.cpp:140-156 | each message is given exactly when its check fires and no earlier check did; no message exactly when all three pass |
| VirtualLayerProvider.Open | cpp/qgsvirtuallayerprovider.cpp:84-156 | a malformed URL gives "Malformed URL"; the provider is valid exactly when no error message is set |
| VirtualLayerProvider.OpenAccepted | cpp/qgsvirtuallayerprovider.cpp:100-156 | with every layer accepted, the provider keeps the path, layer ids, geometry fields, last uid and last query, and is valid iff no check fires, where the third check fires iff several layers were given and no geometry item matched |
| VirtualLayerProvider.GeometryFieldNamed | cpp/qgsvirtuallayerprovider.cpp:122-127 | every matched geometry field has a non-empty name |
| VirtualLayerProvider.OpenRefused | cpp/qgsvirtuallayerprovider.cpp:104-115 | a refused layer makes the provider invalid with that layer's message, keeping the layers before it |
| VirtualLayerProvider.OpenLayersRegistered | cpp/qgsvirtuallayerprovider.cpp:104-117 | every layer the provider keeps is a registered vector layer, so its WKB type can be looked up |
| VirtualLayerProvider.Provider.constructor | cpp/qgsvirtuallayerprovider.cpp:79-156 | the item loop and the checks leave the provider's members as `Open` describes, and every kept layer is a registered vector layer |
| VirtualLayerProvider.Provider.LayersHaveGeometry | cpp/qgsvirtuallayerprovider.cpp:180-261 | looking up each kept layer's WKB type in the registry and running the switch, `has_geometry` is true exactly when some kept layer's type is not NoGeometry |
| QtArg.Arg | cpp/qgsvirtuallayerfeatureiterator.cpp:28-36 | one `QString::arg` call: every occurrence of the lowest marker is replaced, and nothing else changes; `ArgWithoutMarker`, `ArgOfOne`, `ArgOfPair` and the chain lemmas state this for the source's templates |
| QtArg.ArgWithoutMarker | cpp/qgsvirtuallayerfeatureiterator.cpp:28-36 | `.arg` on text without a marker returns it unchanged |
| QtArg.ArgOfOne | cpp/qgsvirtuallayerprovider.cpp:109 | `.arg` fills a template's single marker with the argument |
| QtArg.ArgOfLocalizedOne | cpp/qgsvirtuallayerfeatureiterator.cpp:35 | for a string argument, a localized marker `%Ld` is filled like `%d`, so a quoted uid such as `"%L2"` is inserted whole and carries a live marker as `"%2"` does |
| QtArg.ArgOfPair | cpp/qgsvirtuallayerfeatureiterator.cpp:34-35 | `.arg` fills the lower of two markers, and both when they carry the same number |
| QtArg.ChainOfTwo | cpp/qgsvirtuallayerfeatureiterator.cpp:34-36 | two chained calls fill markers d < e in order when the first argument holds no `%` |
| QtArg.ArgOfThree | cpp/qgsvirtuallayerfeatureiterator.cpp:28-29 | the first call on the `%1`/`%2`/`%3` template fills `%1` only |
| QtArg.ChainOfThree | cpp/qgsvirtuallayerfeatureiterator.cpp:28-31 | three chained calls fill `%1`, `%2`, `%3` in order when the first two arguments hold no `%` |
| QtArg.ChainOfThreeCaptured | cpp/qgsvirtuallayerfeatureiterator.cpp:28-31 | when the second argument carries `%2`, the third call fills that marker and `%3` stays in the text |

## Left out

- The SQL parser and type inferencer (`QgsSql`) are not part of this model.
- SQLite and SpatiaLite are not modelled. This covers opening the database, stepping statements, `spatialite_init`, the temporary file, the virtual tables and views, the column statistics, and the delegation to the SpatiaLite provider after the checks. `Open` describes the provider up to the end of the consistency checks; of the database phase only the `has_geometry` loop is modelled, by `Provider.LayersHaveGeometry`.
- Query results are inputs: each cell is kept as SQLite returns it, together with the accessor the iterator reads it with. `column_int`, `column_double`, `column_text` and the blob-to-geometry conversion (`spatialite_blob_to_qgsgeometry`) are not modelled.
- The rectangle of a spatial filter is its rendered text. Floating-point formatting of the coordinates is not modelled, and neither are the extent and statistics values.
- `toLower`, `\w` and `\d` are ASCII-only; Unicode case mapping and Unicode word characters are not modelled.
- The URL is given already parsed (validity, path, items). `QUrl` decoding is not modelled.
- The layer list keeps layer ids; the layer objects themselves are looked up in the registry.
- `iteratorClosed()`, the destructor's `close()`, the debug output, and `feature.setFields` are not modelled.
- FeatureIteration.FetchAfterEnd: the statement stays finished once its rows are exhausted, as SQLite built with `SQLITE_OMIT_AUTORESET` (or before 3.6.23.1) behaves. A default SQLite build resets the statement on the next `sqlite3_step`, so a second fetch past the end would return row 0 again and advance the counter; that automatic reset is not modelled.
- GeometrySpec.ToLong: `long` is taken as 64 bits (LP64), so numbers up to 2^63 - 1 are kept. Where `long` is 32 bits (Windows), numbers above 2^31 - 1 become 0; that platform is not modelled.
- IteratorSql.FidConditionAsWritten: the second call, `.arg(request.filterFid())`, is the integer overload of `QString::arg`. The model fills its marker with the plain decimal text of the fid. Qt does that for a `%N` marker, but fills a `%LN` marker with the number formatted in the default locale, group separators included. So for a uid containing `%L2` the model's text can differ from the source's (`"12345"=12345` where an English locale gives `"12,345"=12345`). Locale formatting is not modelled.
- FeatureIteration.Fetch: the feature's geometry is left unset when the row has no geometry column. The model does not track what an incoming `QgsFeature` already held.
- WkbTable.HasGeometry: requires every layer type to be one the switch handles. For WKBUnknown the switch has no case and the source reads uninitialised locals.
- VirtualLayerProvider.Provider.LayersHaveGeometry: requires every kept layer's type to be one the switch handles, for the same reason.
- The source-select dialog and the plugin registration are not part of this model.

## Findings

| source | as written | input that shows it | evidently intended | confidence | as-written member | corrected member |
|---|---|---|---|---|---|---|
| cpp/qgsvirtuallayerfeatureiterator.cpp:34-36 | the fid condition is built by chained `.arg` calls; the second call also rewrites a `%N` marker that the quoted uid brought in | uid column named `%2`, fid 5: the condition is `"5"=5` | `"%2"=5`, the quoted uid compared with the fid | high, not executed | IteratorSql.FidConditionAsWrittenRewritesMarker | IteratorSql.FidConditionDecodes |
| cpp/qgsvirtuallayerfeatureiterator.cpp:28-31 | the rectangle condition is built by three chained `.arg` calls; a `%2` in the geometry column name captures the rectangle and `%3` stays in the text | geometry column named `%2`: the condition is `Intersects("<rectangle>",BuildMbr(%3))` | `Intersects("%2",BuildMbr(<rectangle>))` | medium, not executed; the `geometry` URL item's `\w+` name cannot hold `%`, and where else a definition's geometry field can come from is outside this model | IteratorSql.RectConditionAsWrittenRewritesMarker | IteratorSql.RectConditionDecodes |
| cpp/qgsvirtuallayerfeatureiterator.cpp:99-108 | `rewind` resets the statement but not the auto-id counter `mFid` | a layer without uid and with 2 rows: fetch both, rewind, fetch again; the ids are 0, 1, then 2, 3 | the second pass repeats ids 0, 1, so that ids name rows | medium, not executed | FeatureIteration.RewindAsWrittenRenumbers | FeatureIteration.RewindReplaysPass |

The model uses the corrected definitions:
- `IteratorSql.FidCondition` and `IteratorSql.RectCondition` are the conditions by concatenation. Their `.arg` forms, `FidConditionAsWritten` and `RectConditionAsWritten`, agree with them whenever the column name holds no `%`.
- `FeatureIteration.RewindStep` resets the counter. It is what `FeatureIterator.Rewind` implements.
- `RewindStepAsWritten` models the source as written.
