# TinySync core in Dafny

TinySync is an Android object–relational mapper with a synchronisation layer.
Model classes (subclasses of `DbModel`) are mapped to SQLite tables by a
`DbCollection`/`DbSet`, whose fields are discovered by reflection: plain columns
(`DbColumnMap`), belongs-to keys (`DbBelongsToMeta`) and has-many associations
(`DbHasManyMeta`). `DbSerializer` picks a serializer per column type. Records are
queued by `add`, validated by `FieldValidator`s, and written by `save` into a
`SaveResult`. `Query` builds WHERE and ORDER BY clauses from `Criterion` and `OrderBy`
values, and queries return a lazily deserialised result set. The `DbContext` owns
the collections and the database handles. `Syncer` and `SyncEntity` produce the JSON
request of records in state created or updated, and queue the records of a
response. `ParamsParser` turns a query string into a JSON object.

The repository carries two generations of the library: `TinySyncLib` (the older tree)
and `Lib`. The model follows the files used by each part: the collection, query,
serializer and validation code of `TinySyncLib`, and the context, result set, model,
save result, sync and parameter code of `Lib`. The older `DbSet` of `TinySyncLib`
(a collection keyed by column name) is modelled separately as `LegacyDb.LegacySet`.

Modules, one per area of the source:

- `Common`: `Option`, `Result`, the library's exceptions as an `Error` datatype, and the string operations Java supplies (ASCII case folding, `equalsIgnoreCase`, `split`, `indexOf`, `trim`).
- `Values`: field values, JSON values, the Java field types, and decimal text for `long`.
- `Naming`: the camel-case to `lower_underscore` conversion, and table and column names.
- `Codecs`: `DbSerializer.columnTypeName`, the serializer factory and its memo table, and the DateTime and enum serializers.
- `Records`: the `Lib` `DbModel` as a class (`Record`) with its error list, persisted flag and sync state, the `TinySyncLib` `DbModel` (`LegacyRecord`), the `Row` a table holds, and what reading a row back leaves of it (`Loaded`).
- `SaveResults`: `SaveResult` as a class, generic in the record class, and its merge as a function on views.
- `Validation`: `FieldValidator`, the not-null and uniqueness validators, and the validation run of a collection as a function on rules.
- `Schema`: `DbColumnMap`, `DbBelongsToMeta`, `DbHasManyMeta`, column definitions and association lookup.
- `Queries`: `Criterion` parsing, `OrderBy`, and `Query` with its selection, arguments and ordering.
- `Params`: `ParamsParser`.
- `Persist`: the outcome of writing one record (which columns fail to serialise, whether the store fails), given as data.
- `Db`: `DbCollection` (`Collection`), the `Lib` `DbSet` (`ResultSet`) with its iterator (`RowIterator`), and `DbContext` (`Context`).
- `LegacyDb`: the `TinySyncLib` `DbSet`, over `LegacyRecord`s.
- `Slots`: `DbBelongsTo` (both generations) and `DbHasMany`.
- `Sync`: `SyncEntity`, `Syncer`, and the Gson enum adapter and exclusion strategy.

The database is a parameter. A table is a `seq<Row>`. The outcome of each SQLite
write is an `Attempt` per record. Column-assignment failures are a map from column
name to exception message. Rows that fail to deserialise are a set of row indices in a result set, and a set of rows for a fetch.
The clock (`DateTime.now()`) is a `now` parameter. Gson's reflective encoding and
decoding (`encode`, `fromJson`) and Joda's date text (`dateText`, `parse`, `text`)
are function parameters. New `ObjectId`s are parameters of the record constructor.

## Model

| member | source | states |
|---|---|---|
| Codecs.ColumnTypeName | TinySyncLib/src/main/java/com/tinymission/tinysync/serializers/DbSerializer.java:57-68 | INTEGER, FLOAT and BLOB exactly for their cursor type codes, TEXT for every other code |
| Codecs.SerializerFor | TinySyncLib/src/main/java/com/tinymission/tinysync/serializers/DbSerializer.java:83-96 | a serializer exists exactly for String, int/Integer, ObjectId, DateTime and enums, and it serves the field's type; any other type fails with InvalidType naming the type |
| Codecs.FloatingPointIsRejected | TinySyncLib/src/main/java/com/tinymission/tinysync/serializers/DbSerializer.java:84-96 | float and double fields have no serializer and raise InvalidType("float"/"double") |
| Codecs.SerializerRegistry.constructor | TinySyncLib/src/main/java/com/tinymission/tinysync/serializers/DbSerializer.java:71 | the memo table starts empty |
| Codecs.SerializerRegistry.Factory | TinySyncLib/src/main/java/com/tinymission/tinysync/serializers/DbSerializer.java:78-101 | a memoised type name returns its stored serializer and leaves the table alone; otherwise the result is the dispatch for the type, stored under its name only when it succeeds |
| Codecs.DateTimeToCell | Lib/src/main/java/com/tinymission/tinysync/serializers/DateTimeSerializer.java:14-19 | a null date writes a null cell; otherwise the cell holds the date's milliseconds |
| Codecs.DateTimeFromCell | Lib/src/main/java/com/tinymission/tinysync/serializers/DateTimeSerializer.java:22-28 | a positive long reads back as that instant; zero or a negative value reads back as null |
| Codecs.DateTimeRoundTrip | Lib/src/main/java/com/tinymission/tinysync/serializers/DateTimeSerializer.java:14-28 | write then read gives the date back exactly when it is null or after the epoch |
| Codecs.DateTimeText | Lib/src/main/java/com/tinymission/tinysync/serializers/DateTimeSerializer.java:31-33 | a null date throws NullPointer; otherwise the text parses back to the milliseconds |
| Codecs.EnumToCell | TinySyncLib/src/main/java/com/tinymission/tinysync/serializers/EnumSerializer.java:32-38 | the cell holds the constant's name, or null for a null field |
| Codecs.EnumText | TinySyncLib/src/main/java/com/tinymission/tinysync/serializers/EnumSerializer.java:27-29 | a null field throws; otherwise the text is the constant's name |
| Codecs.EnumFromCellAsWritten | TinySyncLib/src/main/java/com/tinymission/tinysync/serializers/EnumSerializer.java:22-24 | the code as written: an unknown name raises IllegalArgument; a known one leaves the field as it was |
| Codecs.EnumReadDiscardsValue | TinySyncLib/src/main/java/com/tinymission/tinysync/serializers/EnumSerializer.java:22-24 | reading back a stored "senior" leaves a fresh field null (finding 3) |
| Codecs.EnumFromCell | TinySyncLib/src/main/java/com/tinymission/tinysync/serializers/EnumSerializer.java:22-24 | corrected read: it succeeds exactly for null or a known constant name, and yields that value |
| Codecs.EnumRoundTrip | TinySyncLib/src/main/java/com/tinymission/tinysync/serializers/EnumSerializer.java:22-38 | for every null or known constant, reading back what was written gives it back |
| Values.DecimalRoundTrip | Lib/src/main/java/com/tinymission/tinysync/serializers/DateTimeSerializer.java:31-33 | the decimal text of any long parses back to the same number, negative values included |
| Common.EqualsIgnoreCaseIsLowerEquality | Lib/src/main/java/com/tinymission/tinysync/db/DbContext.java:156-163 | ASCII `equalsIgnoreCase` holds exactly when the lower-cased strings are equal |
| Common.SplitJoin | Lib/src/main/java/com/tinymission/tinysync/util/ParamsParser.java:31-32 | joining the pieces of `split` on the separator gives the string back |
| Common.SplitCount | Lib/src/main/java/com/tinymission/tinysync/util/ParamsParser.java:33 | `split` on a single character gives one more piece than there are separators |
| Naming.LowerUnderscoreHasNoUpper | TinySyncLib/src/main/java/com/tinymission/tinysync/db/DbCollection.java:108-110 | a tableized name has no upper-case letter |
| Naming.LowerUnderscoreFixesLower | TinySyncLib/src/main/java/com/tinymission/tinysync/db/DbCollection.java:108-110 | a name without capitals is its own tableized form |
| Naming.LowerUnderscoreIdempotent | TinySyncLib/src/main/java/com/tinymission/tinysync/db/DbCollection.java:108-110 | tableizing twice is tableizing once |
| Naming.LowerUnderscoreOnlyInsertsSeparators | TinySyncLib/src/main/java/com/tinymission/tinysync/db/DbCollection.java:108-110 | apart from underscores, the tableized name is the lower-cased original |
| Naming.ColumnName | TinySyncLib/src/main/java/com/tinymission/tinysync/db/DbColumnMap.java:43-46 | a non-empty annotation name is the column name; an empty one gives the tableized field name |
| Naming.BelongsToColumnNameAsWritten | Lib/src/main/java/com/tinymission/tinysync/db/DbBelongsToMeta.java:28-36 | the code as written: any annotation name is used verbatim, even an empty one; without an annotation it is the tableized field name plus `_id` |
| Naming.BelongsToEmptyAnnotationGivesEmptyName | Lib/src/main/java/com/tinymission/tinysync/db/DbBelongsToMeta.java:28-36 | with the annotation default (empty), the column name is empty (finding 4) |
| Naming.BelongsToColumnName | Lib/src/main/java/com/tinymission/tinysync/db/DbBelongsToMeta.java:28-36 | corrected: an empty annotation name falls back to the tableized field name plus `_id`, as `DbColumnMap` does |
| Naming.BelongsToColumnNameNonEmpty | Lib/src/main/java/com/tinymission/tinysync/db/DbBelongsToMeta.java:28-36 | the corrected column name is never empty, and it agrees with the code as written whenever the annotation is absent or non-empty |
| Naming.HasManyForeignKey | Lib/src/main/java/com/tinymission/tinysync/db/DbHasManyMeta.java:23-31 | an annotated foreign key is used; otherwise it is the tableized declaring class plus `_id` |
| Naming.AuthorNames | Lib/src/main/java/com/tinymission/tinysync/db/DbHasManyMeta.java:23-31 | for the test model `Author`: table `author`, foreign key and belongs-to column `author_id` |
| Naming.TableName | TinySyncLib/src/main/java/com/tinymission/tinysync/db/DbCollection.java:108-110 | the table name has no capitals, and a capital-free class name is kept as it is (Naming.LowerUnderscoreOnlyInsertsSeparators says what else tableizing does) |
| Naming.CreatedAtColumnName | TinySyncLib/src/main/java/com/tinymission/tinysync/db/DbColumnMap.java:43-46 | the field `createdAt` maps to the column `created_at` |
| Records.SyncStateNameInjective | Lib/src/main/java/com/tinymission/tinysync/db/DbModel.java:21-23 | distinct sync states have distinct stored names |
| Records.Record.constructor | Lib/src/main/java/com/tinymission/tinysync/db/DbModel.java:55-58 | a new model stamps createdAt with the clock, takes a fresh id, starts in state created, unpersisted and without errors |
| Records.Record.Load | TinySyncLib/src/main/java/com/tinymission/tinysync/db/DbCollection.java:380-412 | a deserialised record carries the row's id, sync state and values, each date read back through the DateTime serializer (an instant at or before the epoch becomes null); it is not persisted, has no errors, and carries the onValidate errors of its model class as given by the collection |
| Records.Record.FromJson | Lib/src/main/java/com/tinymission/tinysync/sync/SyncEntity.java:43-54 | a record Gson decodes from a JSON object carries the decoded fields as they are; it is not persisted, has no errors, and carries the onValidate errors of its model class as given by the collection |
| Records.StoredInstant | Lib/src/main/java/com/tinymission/tinysync/serializers/DateTimeSerializer.java:14-28 | a date column reads back as the same instant exactly when it lies after the epoch, otherwise null |
| Records.LoadedKeepsRow | Lib/src/main/java/com/tinymission/tinysync/serializers/DateTimeSerializer.java:14-28 | a row is read back unchanged exactly when none of its instants lies at or before the epoch; what is read back survives a second read |
| Records.LegacyRecord.constructor | TinySyncLib/src/main/java/com/tinymission/tinysync/db/DbModel.java:19-47 | a new legacy record stamps createdAt with the clock, takes a fresh id, starts in state infant, unpersisted and without errors |
| Records.LegacyRecord.AddError | TinySyncLib/src/main/java/com/tinymission/tinysync/db/DbModel.java:58-60 | appends the error and nothing else |
| Records.LegacyRecord.AddErrorMessage | TinySyncLib/src/main/java/com/tinymission/tinysync/db/DbModel.java:62-64 | appends an error for the property with the message |
| Records.LegacyRecord.AddErrorException | TinySyncLib/src/main/java/com/tinymission/tinysync/db/DbModel.java:66-68 | appends an error for the property that carries the exception |
| Records.LegacyRecord.ClearErrors | TinySyncLib/src/main/java/com/tinymission/tinysync/db/DbModel.java:74-76 | empties the error list; hasErrors is then false |
| Records.LegacyRecord.IsPersisted | TinySyncLib/src/main/java/com/tinymission/tinysync/db/DbModel.java:40-42 | true exactly when the record is persisted |
| Records.LegacyRecord.HasErrors | TinySyncLib/src/main/java/com/tinymission/tinysync/db/DbModel.java:70-72 | true exactly when the error list is not empty |
| Records.LegacyRecord.OnValidate | TinySyncLib/src/main/java/com/tinymission/tinysync/db/DbModel.java:92-94 | the base hook changes nothing |
| Records.Record.SetIsPersisted | Lib/src/main/java/com/tinymission/tinysync/db/DbModel.java:51-53 | sets the persisted flag and nothing else |
| Records.Record.IsPersisted | Lib/src/main/java/com/tinymission/tinysync/db/DbModel.java:42-44 | true exactly when the record is persisted, the flag SetIsPersisted and the insert of save set |
| Records.Record.Touch | TinySyncLib/src/main/java/com/tinymission/tinysync/db/DbCollection.java:300 | sets updatedAt to the clock and nothing else |
| Records.Record.AddError | Lib/src/main/java/com/tinymission/tinysync/db/DbModel.java:69-71 | appends the error and nothing else |
| Records.Record.HasErrors | Lib/src/main/java/com/tinymission/tinysync/db/DbModel.java:81-83 | true exactly when the error list is not empty |
| Records.Record.AddErrorMessage | Lib/src/main/java/com/tinymission/tinysync/db/DbModel.java:73-75 | appends an error for the property with the message |
| Records.Record.AddErrorException | Lib/src/main/java/com/tinymission/tinysync/db/DbModel.java:77-79 | appends an error for the property that carries the exception |
| Records.Record.ClearErrors | Lib/src/main/java/com/tinymission/tinysync/db/DbModel.java:85-87 | empties the error list; hasErrors is then false |
| Records.Record.OnValidate | Lib/src/main/java/com/tinymission/tinysync/db/DbModel.java:107-109 | appends the model class's own validation errors, the collection's customErrors, and changes nothing else; with the base class's empty hook the errors stay as they were |
| SaveResults.Merge | Lib/src/main/java/com/tinymission/tinysync/db/SaveResult.java:44-48 | each of the inserted, updated and errored sets is the union of the two results' sets |
| SaveResults.MergeLaws | Lib/src/main/java/com/tinymission/tinysync/db/SaveResult.java:44-48 | merging is idempotent, commutative and associative, and the empty result is its unit |
| SaveResults.SaveResult.constructor | Lib/src/main/java/com/tinymission/tinysync/db/SaveResult.java:11-13 | all three sets start empty |
| SaveResults.SaveResult.AddInserted | Lib/src/main/java/com/tinymission/tinysync/db/SaveResult.java:15-17 | adds the record to the inserted set only |
| SaveResults.SaveResult.AddUpdated | Lib/src/main/java/com/tinymission/tinysync/db/SaveResult.java:23-25 | adds the record to the updated set only |
| SaveResults.SaveResult.AddErrored | Lib/src/main/java/com/tinymission/tinysync/db/SaveResult.java:31-33 | adds the record to the errored set only |
| SaveResults.SaveResult.MergeFrom | Lib/src/main/java/com/tinymission/tinysync/db/SaveResult.java:44-48 | the new view is the merge of the old view with the other's; the other result is unchanged |
| Validation.VerdictMatchesErrors | TinySyncLib/src/main/java/com/tinymission/tinysync/validation/NotNullValidator.java:15-21 | a validator passes exactly when it adds no error; a failure adds exactly one error, for the field and with the validator's message |
| Validation.FieldValidator.constructor | TinySyncLib/src/main/java/com/tinymission/tinysync/validation/FieldValidator.java:37 | a new validator has no field and the default message "failed validation" |
| Validation.FieldValidator.SetField | TinySyncLib/src/main/java/com/tinymission/tinysync/validation/FieldValidator.java:33-35 | sets the field and keeps the message |
| Validation.FieldValidator.SetMessage | TinySyncLib/src/main/java/com/tinymission/tinysync/validation/FieldValidator.java:43-45 | sets the message and keeps the field |
| Validation.FieldValidator.GetField | TinySyncLib/src/main/java/com/tinymission/tinysync/validation/FieldValidator.java:29-31 | the field held, the one SetField set, or none |
| Validation.FieldValidator.GetMessage | TinySyncLib/src/main/java/com/tinymission/tinysync/validation/FieldValidator.java:39-41 | the message held, "failed validation" unless SetMessage or the annotation changed it |
| Validation.FieldValidator.PopulateFromAnnotation | TinySyncLib/src/main/java/com/tinymission/tinysync/validation/NotNullValidator.java:24-27 | the annotation's message becomes the validator's message |
| Validation.FieldValidator.Validate | TinySyncLib/src/main/java/com/tinymission/tinysync/validation/FieldValidator.java:16-25 | without a field it throws NullPointer and adds nothing; otherwise the verdict is the validator's check on the field's value, and a failure appends its error; the rest of the record is unchanged |
| Validation.ThrownIsFinal | TinySyncLib/src/main/java/com/tinymission/tinysync/db/DbCollection.java:471-478 | once a validator throws, the later ones have no effect on the outcome |
| Validation.HookSkippedWithoutValidators | TinySyncLib/src/main/java/com/tinymission/tinysync/db/DbCollection.java:473-476 | with no validators, the record's own onValidate errors are never collected (finding 2) |
| Validation.HookRepeatedPerValidator | TinySyncLib/src/main/java/com/tinymission/tinysync/db/DbCollection.java:473-476 | with two passing validators, the onValidate errors are collected twice (finding 2) |
| Validation.ValidationPassesIff | TinySyncLib/src/main/java/com/tinymission/tinysync/db/DbCollection.java:471-478 | corrected: validation runs onValidate once; it reports no error exactly when the hook adds none and every validator passes |
| Validation.AllPassIff | TinySyncLib/src/main/java/com/tinymission/tinysync/db/DbCollection.java:471-478 | a run of validators that all have a field never throws, and it collects no error exactly when every validator passes |
| Validation.AuthorWithoutName | TinySyncLib/src/androidTest/java/com/tinymission/tinysync/tests/ValidationTests.java:23-28 | an Author without a name fails with the one error "must not be null" |
| Schema.NewColumnMap | TinySyncLib/src/main/java/com/tinymission/tinysync/db/DbColumnMap.java:41-52 | succeeds exactly when the field's type has a serializer; the map keeps the field name and type, takes its column name from the naming rule, and gets a serializer that serves the type |
| Schema.ColumnDefNamesColumnAndType | TinySyncLib/src/main/java/com/tinymission/tinysync/db/DbColumnMap.java:57-59 | a column definition is the column name, a space and the SQL type: INTEGER for int and DateTime serializers, TEXT for string, ObjectId and enum serializers |
| Schema.CreatedAtColumnDef | TinySyncLib/src/main/java/com/tinymission/tinysync/db/DbColumnMap.java:57-59 | `createdAt` is defined as `created_at INTEGER` |
| Schema.NewBelongsToMeta | Lib/src/main/java/com/tinymission/tinysync/db/DbBelongsToMeta.java:17-37 | fails with a RuntimeException exactly when the slot of the template instance cannot be read; otherwise the target class is the slot's class, and the key column follows the corrected naming rule, so it is never empty |
| Schema.KeyRoundTrip | Lib/src/main/java/com/tinymission/tinysync/db/DbBelongsToMeta.java:65-74 | a stored key reads back as the same ObjectId; a null key is stored as the text "null" |
| Schema.NewHasManyMeta | Lib/src/main/java/com/tinymission/tinysync/db/DbHasManyMeta.java:12-32 | fails with a RuntimeException exactly when the slot cannot be read; otherwise the target class is the slot's class, and the foreign key is the annotated one or is derived from the declaring class |
| Schema.HasManyKeyIgnoresFieldName | Lib/src/main/java/com/tinymission/tinysync/db/DbHasManyMeta.java:23-31 | without an annotation the foreign key depends only on the declaring class, never on the field or the target |
| Schema.ColumnNamesIndex | TinySyncLib/src/main/java/com/tinymission/tinysync/db/DbCollection.java:146-155 | the column names are the plain columns' names followed by the belongs-to key columns, in order |
| Schema.ColumnDefsDefineEveryColumn | TinySyncLib/src/main/java/com/tinymission/tinysync/db/DbCollection.java:117-126 | there is exactly one definition per column, and each starts with its column's name |
| Schema.FieldToColumnName | TinySyncLib/src/main/java/com/tinymission/tinysync/db/DbCollection.java:132-142 | resolves exactly when the name is a plain column's field or a belongs-to key column. The first column declared for the field gives its column name; a key column name is its own column; any other name is InvalidField |
| Schema.GetHasMany | TinySyncLib/src/main/java/com/tinymission/tinysync/db/DbCollection.java:173-178 | finds a has-many association with the field name exactly when one exists; a miss is InvalidAssociation |
| Schema.GetBelongsTo | TinySyncLib/src/main/java/com/tinymission/tinysync/db/DbCollection.java:203-208 | finds a belongs-to association with the field name exactly when one exists; a miss is InvalidAssociation |
| Schema.LookupByNameIsUnique | TinySyncLib/src/main/java/com/tinymission/tinysync/db/DbCollection.java:173-208 | in a schema whose field names are distinct, the lookup returns the very association of that name |
| Schema.GetHasManyMeta | TinySyncLib/src/main/java/com/tinymission/tinysync/db/DbCollection.java:184-190 | finds a has-many association with the target class exactly when one exists |
| Schema.GetBelongsToMeta | TinySyncLib/src/main/java/com/tinymission/tinysync/db/DbCollection.java:214-220 | finds a belongs-to association with the target class exactly when one exists |
| Schema.BelongsToByColumn | TinySyncLib/src/main/java/com/tinymission/tinysync/db/DbCollection.java:223-229 | finds a belongs-to association with the key column exactly when one exists |
| Schema.GetAssociationDirection | TinySyncLib/src/main/java/com/tinymission/tinysync/db/DbCollection.java:236-242 | belongs-to takes precedence, then has-many; a name that is neither is InvalidAssociation |
| Queries.ParseCriterion | Lib/src/main/java/com/tinymission/tinysync/query/Criterion.java:33-53 | the column is split on dots and spaces: no piece fails, more than two fail with "too many pieces", one piece is an equality, and two pieces need a known operator name or symbol |
| Queries.NamedOperatorsAreSymbols | Lib/src/main/java/com/tinymission/tinysync/query/Criterion.java:85-94 | every named operator maps to an SQL comparison symbol |
| Queries.SeparatorsAreInterchangeable | Lib/src/main/java/com/tinymission/tinysync/query/Criterion.java:36 | any run of dots and spaces between field and operator parses the same |
| Queries.BareColumnIsEquality | Lib/src/main/java/com/tinymission/tinysync/query/Criterion.java:51 | a bare field name compares with `=` |
| Queries.UnknownOperatorIsRejected | Lib/src/main/java/com/tinymission/tinysync/query/Criterion.java:41-49 | an operator that is neither a name nor a symbol fails and names the operator |
| Queries.CaseMismatchedOperatorIsRejected | Lib/src/main/java/com/tinymission/tinysync/query/Criterion.java:41-49 | operator names are matched case-sensitively (`age.GTE` fails) |
| Queries.ThreePiecesAreRejected | Lib/src/main/java/com/tinymission/tinysync/query/Criterion.java:38-39 | three pieces fail with "too many pieces" |
| Queries.SeparatorsOnlyFail | Lib/src/main/java/com/tinymission/tinysync/query/Criterion.java:36-41 | a column of separators alone has no pieces and fails on its first piece |
| Queries.DirectionString | TinySyncLib/src/main/java/com/tinymission/tinysync/query/OrderBy.java:35-40 | ASC exactly for a positive direction, DESC otherwise |
| Queries.DirectionConstants | TinySyncLib/src/main/java/com/tinymission/tinysync/query/OrderBy.java:16-40 | ASC prints ASC, DESC prints DESC, and direction 0 prints DESC |
| Queries.ValueText | TinySyncLib/src/main/java/com/tinymission/tinysync/query/Query.java:103-109 | a null value throws; integers print in decimal and strings as themselves |
| Queries.SelectionArgs | TinySyncLib/src/main/java/com/tinymission/tinysync/query/Query.java:103-109 | fails exactly when some criterion's value is null; otherwise there is one argument per criterion, each the text of its value |
| Queries.SelectionGrows | TinySyncLib/src/main/java/com/tinymission/tinysync/query/Query.java:91-98 | a new criterion appends ` AND column = ?` |
| Queries.OrderingGrows | TinySyncLib/src/main/java/com/tinymission/tinysync/query/Query.java:111-120 | a new ordering appends `, column DIR` |
| Queries.PlaceholdersMatchArguments | TinySyncLib/src/main/java/com/tinymission/tinysync/query/Query.java:91-109 | the selection carries exactly one `?` per criterion, as many as there are arguments |
| Queries.Query.constructor | TinySyncLib/src/main/java/com/tinymission/tinysync/query/Query.java:18-20 | a new query has no criteria and no orderings |
| Queries.Query.AddCriterion | TinySyncLib/src/main/java/com/tinymission/tinysync/query/Query.java:41-44 | appends the criterion and returns the same query |
| Queries.Query.Where | TinySyncLib/src/main/java/com/tinymission/tinysync/query/Query.java:52-54 | appends an equality on the column and returns the same query |
| Queries.Query.AddOrderBy | TinySyncLib/src/main/java/com/tinymission/tinysync/query/Query.java:68-71 | appends the ordering and returns the same query |
| Queries.Query.OrderByColumn | TinySyncLib/src/main/java/com/tinymission/tinysync/query/Query.java:79-81 | appends an ordering on the column and returns the same query |
| Queries.Query.GetSelection | TinySyncLib/src/main/java/com/tinymission/tinysync/query/Query.java:91-98 | the `column = ?` statements of the criteria, joined with AND |
| Queries.Query.GetSelectionArgs | TinySyncLib/src/main/java/com/tinymission/tinysync/query/Query.java:103-109 | the arguments are the selection's, as above |
| Queries.Query.GetOrderBy | TinySyncLib/src/main/java/com/tinymission/tinysync/query/Query.java:111-120 | the `column DIR` entries of the orderings, joined with commas |
| Queries.QueryTexts | TinySyncLib/src/main/java/com/tinymission/tinysync/query/Query.java:91-120 | the empty query has empty texts; one criterion gives `column = ?` and its value's text |
| Queries.WhereAgeFive | TinySyncLib/src/androidTest/java/com/tinymission/tinysync/tests/QueryTests.java:39 | `where("age", 5)` selects `age = ?` with the argument "5" |
| Params.StringToPrimitive | Lib/src/main/java/com/tinymission/tinysync/util/ParamsParser.java:20-26 | "true" and "false", in any case, become booleans; everything else stays a string |
| Params.BooleanTexts | Lib/src/main/java/com/tinymission/tinysync/util/ParamsParser.java:20-26 | "TRUE" and "False" become booleans; "yes" and "42" stay strings |
| Params.ParseKey | Lib/src/main/java/com/tinymission/tinysync/util/ParamsParser.java:36-48 | a key without `[` is top level; a key with `[` fails exactly when its `]` comes before the `[` |
| Params.NestedKeyParts | Lib/src/main/java/com/tinymission/tinysync/util/ParamsParser.java:36-45 | `outer[inner]rest` names member `inner` of object `outer` |
| Params.ParamsParser.constructor | Lib/src/main/java/com/tinymission/tinysync/util/ParamsParser.java:16-18 | the parser keeps the parameter string |
| Params.ParamsParser.ToJson | Lib/src/main/java/com/tinymission/tinysync/util/ParamsParser.java:28-53 | the result is the object built piece by piece from the `&`-separated pieces |
| Params.FailureIsFinal | Lib/src/main/java/com/tinymission/tinysync/util/ParamsParser.java:30-51 | once a piece fails, the whole conversion fails the same way |
| Params.EmptyParamsGiveEmptyObject | Lib/src/main/java/com/tinymission/tinysync/util/ParamsParser.java:28-53 | an empty string gives an empty object |
| Params.SkippedPiece | Lib/src/main/java/com/tinymission/tinysync/util/ParamsParser.java:33 | a piece without exactly one `=` is ignored |
| Params.TopLevelPiece | Lib/src/main/java/com/tinymission/tinysync/util/ParamsParser.java:46-48 | `key=value` sets the top-level member to the primitive of value |
| Params.NestedPiece | Lib/src/main/java/com/tinymission/tinysync/util/ParamsParser.java:36-45 | `outer[inner]=value` creates or extends object `outer` with member `inner` |
| Params.UnclosedBracketFails | Lib/src/main/java/com/tinymission/tinysync/util/ParamsParser.java:36-45 | a key with `[` and no `]` makes the conversion fail |
| Params.ParamsAppend | Lib/src/main/java/com/tinymission/tinysync/util/ParamsParser.java:30-51 | converting `params&p` is converting `params`, then adding `p` |
| Params.WhereUserIdAgeLimit | Lib/src/androidTest/java/com/tinymission/tinysync/tests/UtilTests.java:28-40 | the test string gives `where` with `user_id` and `age`, plus `limit` |
| Persist.FailureErrorsMeaning | TinySyncLib/src/main/java/com/tinymission/tinysync/db/DbCollection.java:277-296 | column assignment adds no error exactly when no column fails, and every error it adds names a failing column and carries its exception |
| Persist.WrittenMembers | TinySyncLib/src/main/java/com/tinymission/tinysync/db/DbCollection.java:277-296 | the written columns are exactly those that do not fail |
| Persist.FailureErrorsCount | TinySyncLib/src/main/java/com/tinymission/tinysync/db/DbCollection.java:277-296 | every column is either written or reported, once |
| Persist.StoreErrors | TinySyncLib/src/main/java/com/tinymission/tinysync/db/DbCollection.java:305-307 | a failed store adds one error without a property, carrying the exception |
| Persist.WriteSucceedsIff | TinySyncLib/src/main/java/com/tinymission/tinysync/db/DbCollection.java:298-309 | a write reports success exactly when the record had no errors, no column failed and the store succeeded; earlier errors always make it fail |
| Db.Select | TinySyncLib/src/main/java/com/tinymission/tinysync/db/DbCollection.java:510-515 | the rows returned are table rows matching every criterion, and every matching row is returned |
| Db.NumericText | TinySyncLib/src/main/java/com/tinymission/tinysync/query/Query.java:103-108 | the number SQLite makes of an argument text compared with an INTEGER column: digits read as their value, leading zeros included; a non-digit other than a leading sign, or no digits at all, leaves it text |
| Db.NumericDecimal | TinySyncLib/src/main/java/com/tinymission/tinysync/query/Query.java:103-108 | the toString text of an int argument converts back to that number |
| Db.PaddedTextMatchesInteger | TinySyncLib/src/main/java/com/tinymission/tinysync/query/Query.java:103-108 | the text argument "05" selects a row whose INTEGER cell holds 5 |
| Db.TimeTextSelectsNothing | TinySyncLib/src/main/java/com/tinymission/tinysync/query/Query.java:103-108 | a DateTime criterion on a timestamp column, whose toString text is not an integer literal, selects no row, as the column holds the millis |
| Db.SelectSingleMatch | TinySyncLib/src/main/java/com/tinymission/tinysync/db/DbCollection.java:510-515 | when exactly one row matches, the query returns just that row |
| Db.SelectNoMatch | TinySyncLib/src/main/java/com/tinymission/tinysync/db/DbCollection.java:510-515 | when no row matches, the query returns nothing |
| Db.WhereAgeSelectsOne | TinySyncLib/src/androidTest/java/com/tinymission/tinysync/tests/QueryTests.java:27-43 | with authors of ages 0..n, `where("age", 5)` returns exactly the author of age 5 |
| Db.CachedMeaning | TinySyncLib/src/main/java/com/tinymission/tinysync/db/DbCollection.java:535-537 | caching records one after another maps each id to the last record cached with it |
| Db.Collection.constructor | TinySyncLib/src/main/java/com/tinymission/tinysync/db/DbCollection.java:32-49 | a collection starts with its schema, its validators and the errors its model class's onValidate adds, its tableized table name, no context, empty queues and an empty cache |
| Db.Collection.SetContext | TinySyncLib/src/main/java/com/tinymission/tinysync/db/DbCollection.java:59-61 | sets the context and nothing else |
| Db.Collection.GetColumnDefs | TinySyncLib/src/main/java/com/tinymission/tinysync/db/DbCollection.java:117-126 | the definitions of the plain columns, then of the belongs-to keys |
| Db.Collection.Add | TinySyncLib/src/main/java/com/tinymission/tinysync/db/DbCollection.java:270-275 | a persisted record joins the changed queue, any other the new queue |
| Db.Collection.CacheRecord | TinySyncLib/src/main/java/com/tinymission/tinysync/db/DbCollection.java:535-537 | the cache maps the record's id to the record |
| Db.Collection.ClearCache | TinySyncLib/src/main/java/com/tinymission/tinysync/db/DbCollection.java:527-529 | the cache becomes empty |
| Db.Collection.Find | TinySyncLib/src/main/java/com/tinymission/tinysync/db/DbCollection.java:430-444 | without a context or id it throws; otherwise it returns a new record for the first row with that id, caching it, or nothing when no row has the id |
| Db.Collection.DeserializeRow | TinySyncLib/src/main/java/com/tinymission/tinysync/db/DbCollection.java:380-412 | returns a new, persisted, error-free record of the collection's class holding the row as read back (Records.Loaded): id, sync state and values, dates at or before the epoch as null; its onValidate hook is the collection's |
| Db.Collection.CachedFind | TinySyncLib/src/main/java/com/tinymission/tinysync/db/DbCollection.java:544-548 | a cached id returns the cached record without touching the cache; otherwise it behaves as find |
| Db.Collection.Validate | TinySyncLib/src/main/java/com/tinymission/tinysync/db/DbCollection.java:471-478 | the code as written: the errors are those of running the validators, each followed by onValidate; a throwing validator stops the run; the verdict is "no errors" |
| Db.Collection.Where | TinySyncLib/src/main/java/com/tinymission/tinysync/db/DbCollection.java:491-493 | a new query with the one equality |
| Db.Collection.OrderByColumn | TinySyncLib/src/main/java/com/tinymission/tinysync/db/DbCollection.java:501-503 | a new query with the one ordering |
| Db.Collection.RunQuery | TinySyncLib/src/main/java/com/tinymission/tinysync/db/DbCollection.java:510-515 | fails exactly without a context, with a null argument, or when a criterion or ordering names a column the table lacks (neither a base column nor a schema column); the first two are NullPointer, the last NoSuchColumn naming the first such column; otherwise it is a new, unread result set over the selected rows |
| Db.QueryColumns | TinySyncLib/src/main/java/com/tinymission/tinysync/db/DbCollection.java:513 | the columns the statement names: each criterion's, in order, then each ordering's |
| Db.FirstUnknown | TinySyncLib/src/main/java/com/tinymission/tinysync/db/DbCollection.java:513 | none exactly when every listed column is a column of the table; otherwise a listed column the table lacks, every earlier one being a column |
| Db.MissingColumnRejected | TinySyncLib/src/main/java/com/tinymission/tinysync/db/DbCollection.java:513 | where(column, v) on a column the table lacks is refused, naming that column, whatever the orderings |
| Db.BaseColumnsKnown | TinySyncLib/src/main/java/com/tinymission/tinysync/db/DbCollection.java:513 | a query on base columns only, such as populate's where on sync_state, names no unknown column on any table |
| Db.Collection.ContentValuesForRecord | TinySyncLib/src/main/java/com/tinymission/tinysync/db/DbCollection.java:277-296 | one error per failing column, appended in column order; the other columns are written |
| Db.Collection.AssignColumn | TinySyncLib/src/main/java/com/tinymission/tinysync/db/DbCollection.java:280-285 | one column: a failure appends its error, a success writes it |
| Db.Collection.WriteRecord | TinySyncLib/src/main/java/com/tinymission/tinysync/db/DbCollection.java:298-322 | stamps updatedAt, appends the column and store errors, caches the record when the store succeeds, and reports success exactly when the record has no errors |
| Db.Collection.WriteAll | TinySyncLib/src/main/java/com/tinymission/tinysync/db/DbCollection.java:332-352 | every queued record is written once; the successes and failures are exactly the clean and the failed records; a successful insert marks the record persisted |
| Db.Collection.Save | TinySyncLib/src/main/java/com/tinymission/tinysync/db/DbCollection.java:328-365 | inserts the new queue, then updates the changed queue; inserted and updated are the clean ones and errored the rest, so the result is Db.Collection.SaveOutcome of the queues, the errors before the call and the store's attempts; each queued record ends with the errors of its writes, a fresh updatedAt, and persisted exactly when it was or was inserted; the successes leave their queues; the cache gains every stored record |
| Db.Collection.SaveQueues | TinySyncLib/src/main/java/com/tinymission/tinysync/db/DbCollection.java:328-365 | the two write loops and the two removals: each queued record written, inserted records marked persisted, inserted and updated exactly the clean ones, errored the rest, successes leave the queues, cache as the stored records |
| Db.Collection.SaveOutcome | TinySyncLib/src/main/java/com/tinymission/tinysync/db/DbCollection.java:328-365 | the per-record outcome of a save: every queued record is reported, inserts only from the new queue, updates only from the changed queue, errors only from the queues |
| Db.Collection.OutcomeIs | TinySyncLib/src/main/java/com/tinymission/tinysync/db/DbCollection.java:332-352 | a result whose inserted records are the clean new ones, whose updated records are the clean changed ones, and whose errored records are the rest of the queues is the save outcome |
| Db.Collection.OutcomeLocal | TinySyncLib/src/main/java/com/tinymission/tinysync/db/DbCollection.java:298-322 | the outcome depends only on the errors the queued records carried before the call |
| Db.Collection.CleanLocal | TinySyncLib/src/main/java/com/tinymission/tinysync/db/DbCollection.java:298-322 | whether a queued record's insert or update is clean depends only on the errors it carried before the call |
| Db.ResultSet.constructor | Lib/src/main/java/com/tinymission/tinysync/db/DbSet.java:27-34 | an unread result set over the rows: no records, counter at -1 |
| Db.ResultSet.Size | Lib/src/main/java/com/tinymission/tinysync/db/DbSet.java:45-47 | the number of rows |
| Db.ResultSet.IsEmpty | Lib/src/main/java/com/tinymission/tinysync/db/DbSet.java:36-38 | true exactly when there are no rows |
| Db.ResultSet.ComputeAsWritten | Lib/src/main/java/com/tinymission/tinysync/db/DbSet.java:49-64 | the code as written: the cursor never moves, so every record read past the first describes row 0 (finding 1); a success returns `records[i]`, as Db.ResultSet.Compute does |
| Db.ResultSet.Compute | Lib/src/main/java/com/tinymission/tinysync/db/DbSet.java:49-64 | corrected: reads rows up to i, caching each; returns record i or IndexOutOfBounds; each new record describes its own row; an unreadable row stops with RowFailure, and with one record per computed row so far, an unreadable row in the range always does |
| Db.ResultSet.First | Lib/src/main/java/com/tinymission/tinysync/db/DbSet.java:66-68 | built on the corrected compute: record 0, deserialised from the first row, or IndexOutOfBounds when there are no rows |
| Db.ResultSet.Next | Lib/src/main/java/com/tinymission/tinysync/db/DbSet.java:70-72 | built on the corrected compute: the record after the counter, from its own row; IndexOutOfBounds at the end; RowFailure when that row does not deserialise |
| Db.ResultSet.ToArray | Lib/src/main/java/com/tinymission/tinysync/db/DbSet.java:74-82 | built on the corrected compute: a new array of size() whose k-th entry is record k, from row k; it fails with compute's error, RowFailure for a row that does not deserialise or IndexOutOfBounds(size()-1) when the last row's record is missing because an earlier read of it already failed |
| Db.RowIterator.constructor | Lib/src/main/java/com/tinymission/tinysync/db/DbSet.java:85-87 | a new iterator starts at index 0 |
| Db.RowIterator.HasNext | Lib/src/main/java/com/tinymission/tinysync/db/DbSet.java:90-92 | corrected: there is a next record exactly when the index is within size() |
| Db.RowIterator.NextAsWritten | Lib/src/main/java/com/tinymission/tinysync/db/DbSet.java:95-98 | the iterator's code as written (finding 5), composed with the corrected compute: advances first, so it returns the record after the current one |
| Db.RowIterator.Next | Lib/src/main/java/com/tinymission/tinysync/db/DbSet.java:95-98 | corrected: returns the record at the index, then advances |
| Db.HasNextInverted | Lib/src/main/java/com/tinymission/tinysync/db/DbSet.java:90-92 | at the start, `hasNext` as written is false for a non-empty set and true for an empty one (finding 5) |
| Db.RecreateAfterDrop | Lib/src/main/java/com/tinymission/tinysync/db/DbContext.java:108-123 | after the tables are dropped, updateSchema creates every collection's table and sends at least one statement when there is a collection |
| Db.CollectionNamed | Lib/src/main/java/com/tinymission/tinysync/db/DbContext.java:156-163 | the first collection whose table name equals the name, ignoring case; -1 exactly when there is none |
| Db.CollectionFor | Lib/src/main/java/com/tinymission/tinysync/db/DbContext.java:142-149 | the first collection of the model class; -1 exactly when there is none |
| Db.Context.constructor | Lib/src/main/java/com/tinymission/tinysync/db/DbContext.java:51-55 | a context with its collections, not initialised, with no open database |
| Db.Context.Initialize | Lib/src/main/java/com/tinymission/tinysync/db/DbContext.java:66-85 | the first call points every collection at this context; later calls change nothing; the queues and caches are untouched |
| Db.Context.GetCollectionByName | Lib/src/main/java/com/tinymission/tinysync/db/DbContext.java:156-163 | initialises, then returns the first collection of that table name ignoring case, or InvalidCollection |
| Db.Context.GetCollectionByClass | Lib/src/main/java/com/tinymission/tinysync/db/DbContext.java:142-149 | initialises, then returns the collection of the model class, or InvalidCollection |
| Db.Context.GetSyncOrder | Lib/src/main/java/com/tinymission/tinysync/db/DbContext.java:169-174 | a new array of the collections' table names, in order |
| Db.Context.GetReadableDatabase | Lib/src/main/java/com/tinymission/tinysync/db/DbContext.java:183-187 | the open readable handle, or a newly opened one |
| Db.Context.GetWritableDatabase | Lib/src/main/java/com/tinymission/tinysync/db/DbContext.java:191-195 | the open writable handle, or a newly opened one |
| Db.Context.Close | Lib/src/main/java/com/tinymission/tinysync/db/DbContext.java:202-211 | both handles are closed |
| Db.Context.Touch | Lib/src/main/java/com/tinymission/tinysync/db/DbContext.java:92-94 | ensures a writable handle is open |
| Db.Context.DestroySchema | Lib/src/main/java/com/tinymission/tinysync/db/DbContext.java:129-136 | drops every collection's table, one statement each; the tables left are the others |
| Db.Context.UpdateSchema | Lib/src/main/java/com/tinymission/tinysync/db/DbContext.java:108-123 | creates the table of every collection that has none, in order |
| Db.Context.Save | Lib/src/main/java/com/tinymission/tinysync/db/DbContext.java:222-230 | initialises and opens the writable handle; the result merges the collections' results, one part per collection, each from that collection's own queues; the records reported as inserted, updated or errored are exactly those queued before the call |
| Db.Context.Open | Lib/src/main/java/com/tinymission/tinysync/db/DbContext.java:223-225 | the first steps of save: the context is initialised, the writable handle is open, the result is new and empty, and no queue has changed |
| Db.UnionMembers | Lib/src/main/java/com/tinymission/tinysync/db/DbContext.java:222-230 | a record is in the union of the queues exactly when one of the queues holds it |
| Db.QueuedFrom | Lib/src/main/java/com/tinymission/tinysync/db/DbContext.java:222-230 | a record queued in a list of collections is queued in one of them |
| Db.MergedWithin | Lib/src/main/java/com/tinymission/tinysync/db/DbContext.java:222-230 | when every part reports only its own queues and those lie in a set, the merged result reports only records of that set |
| Db.ReportsQueues | TinySyncLib/src/main/java/com/tinymission/tinysync/db/DbCollection.java:328-365 | a save result that inserts from the new queue, updates from the changed queue and errors every other queued record reports exactly the queues |
| LegacyDb.ByColumnNameMeaning | TinySyncLib/src/main/java/com/tinymission/tinysync/db/DbSet.java:23-36 | the column map has a key exactly for each column name, and it holds a column of that name |
| LegacyDb.LegacySet.constructor | TinySyncLib/src/main/java/com/tinymission/tinysync/db/DbSet.java:23-36 | the set takes its table name from the class and its column maps keyed by column name, with empty queues |
| LegacyDb.LegacySet.GetColumnDefs | TinySyncLib/src/main/java/com/tinymission/tinysync/db/DbSet.java:63-69 | one definition per column map, in key order |
| LegacyDb.LegacySet.Add | TinySyncLib/src/main/java/com/tinymission/tinysync/db/DbSet.java:82-87 | a persisted record joins the changed queue, any other the new queue |
| LegacyDb.LegacySet.InsertRecord | TinySyncLib/src/main/java/com/tinymission/tinysync/db/DbSet.java:89-106 | appends the write errors and succeeds exactly when the record then has none |
| LegacyDb.LegacySet.InsertAll | TinySyncLib/src/main/java/com/tinymission/tinysync/db/DbSet.java:112-136 | every new record is inserted once and reported as inserted or errored by its outcome |
| LegacyDb.LegacySet.Save | TinySyncLib/src/main/java/com/tinymission/tinysync/db/DbSet.java:112-136 | new records are inserted and reported; changed records are not written |
| Slots.CachedBelongsTo.constructor | TinySyncLib/src/main/java/com/tinymission/tinysync/db/DbBelongsTo.java:7-10 | a new slot holds no key and no value |
| Slots.CachedBelongsTo.SetKey | TinySyncLib/src/main/java/com/tinymission/tinysync/db/DbBelongsTo.java:33-35 | sets the key; the cached value stays |
| Slots.CachedBelongsTo.GetKey | TinySyncLib/src/main/java/com/tinymission/tinysync/db/DbBelongsTo.java:25-27 | the key held, the one SetKey or SetValue last set |
| Slots.CachedBelongsTo.GetCachedValue | TinySyncLib/src/main/java/com/tinymission/tinysync/db/DbBelongsTo.java:45-47 | the cached record, without looking anything up |
| Slots.CachedBelongsTo.SetValue | TinySyncLib/src/main/java/com/tinymission/tinysync/db/DbBelongsTo.java:66-69 | caches the value and takes its id as the key |
| Slots.CachedBelongsTo.GetValue | TinySyncLib/src/main/java/com/tinymission/tinysync/db/DbBelongsTo.java:54-60 | a cached value is returned with no lookup and no change; otherwise the lookup of Slots.FindTarget: it fails exactly when the class has no collection, the key is null or that collection has no context, and otherwise a record is found exactly when a row has the key; a found record is cached, a miss (null) is not |
| Slots.FindTarget | TinySyncLib/src/main/java/com/tinymission/tinysync/db/DbBelongsTo.java:57-58 | getCollection of the class, then find: it fails exactly when the class has no collection (InvalidCollection), the key is null or the collection has no context (NullPointer); otherwise a record is found exactly when a row has the key, and it carries that key |
| Slots.BelongsTo.constructor | Lib/src/main/java/com/tinymission/tinysync/db/DbBelongsTo.java:7-10 | a new slot holds no key |
| Slots.BelongsTo.GetModelClass | Lib/src/main/java/com/tinymission/tinysync/db/DbBelongsTo.java:14-16 | the target class |
| Slots.BelongsTo.SetKey | Lib/src/main/java/com/tinymission/tinysync/db/DbBelongsTo.java:33-35 | sets the key |
| Slots.BelongsTo.GetKey | Lib/src/main/java/com/tinymission/tinysync/db/DbBelongsTo.java:25-27 | the key held, the one SetKey or SetValue last set |
| Slots.BelongsTo.SetValue | Lib/src/main/java/com/tinymission/tinysync/db/DbBelongsTo.java:51-53 | takes the value's id as the key |
| Slots.BelongsTo.GetValue | Lib/src/main/java/com/tinymission/tinysync/db/DbBelongsTo.java:42-45 | the target collection's cachedFind of the key: an unknown class is InvalidCollection; a key the collection has cached gives the cached record; otherwise it fails exactly when the key is null or the collection has no context, and a record is found exactly when a row has the key |
| Slots.HasMany.constructor | TinySyncLib/src/main/java/com/tinymission/tinysync/db/DbHasMany.java:8-12 | a new slot holds no result set |
| Slots.HasMany.GetModelClass | TinySyncLib/src/main/java/com/tinymission/tinysync/db/DbHasMany.java:18-20 | the class of the many side |
| Slots.HasMany.GetValues | TinySyncLib/src/main/java/com/tinymission/tinysync/db/DbHasMany.java:34-42 | a cached result set is returned as is; otherwise the associated query is run and cached, and it succeeds exactly when both collections exist, the owner's collection declares a has-many of the class, its foreign key is a column of the many table and the many collection has a context; a NoSuchColumn failure names the missing key |
| Slots.HasMany.GetCachedValues | TinySyncLib/src/main/java/com/tinymission/tinysync/db/DbHasMany.java:30-32 | the result set GetValues kept, or null before it has run, without querying |
| Slots.QueryAssociated | TinySyncLib/src/main/java/com/tinymission/tinysync/db/DbHasMany.java:34-42 | the rows of the many collection whose foreign key is the owner's id; it succeeds exactly when both collections exist, the owner's collection declares a has-many of the class, its foreign key is a column of the many table and the many collection has a context; a NoSuchColumn error names the missing key |
| Slots.KeyQueryColumns | TinySyncLib/src/main/java/com/tinymission/tinysync/db/DbHasMany.java:37-40 | where(fk, owner.id) renders its one argument, and names no unknown column exactly when fk is a column of the many table |
| Sync.SelectInState | Lib/src/main/java/com/tinymission/tinysync/sync/SyncEntity.java:83 | `where("sync_state", st)` selects exactly the rows in state st, in table order |
| Sync.SyncEntity.constructor | Lib/src/main/java/com/tinymission/tinysync/sync/SyncEntity.java:16-38 | an entity with its name and record arrays |
| Sync.SyncEntity.SetName | Lib/src/main/java/com/tinymission/tinysync/sync/SyncEntity.java:22-24 | sets the name only |
| Sync.SyncEntity.ParseArray | Lib/src/main/java/com/tinymission/tinysync/sync/SyncEntity.java:43-54 | no array gives no records; otherwise one new, distinct record per object, decoded from it, with the given persisted flag |
| Sync.SyncEntity.ParseCreated | Lib/src/main/java/com/tinymission/tinysync/sync/SyncEntity.java:62-64 | the created array as new, unpersisted records |
| Sync.SyncEntity.ParseUpdated | Lib/src/main/java/com/tinymission/tinysync/sync/SyncEntity.java:72-74 | the updated array as new, persisted records |
| Sync.SyncEntity.Fetch | Lib/src/main/java/com/tinymission/tinysync/sync/SyncEntity.java:83-87 | the JSON of each record read from the collection's rows in the given state, in order; fails with NullPointer without a context, and with RowFailure exactly when one of those rows does not deserialise |
| Sync.SyncEntity.EncodeAll | Lib/src/main/java/com/tinymission/tinysync/sync/SyncEntity.java:84-87 | the JSON of each record of the result set, read from its own row, in order; RowFailure exactly when some row does not deserialise |
| Sync.SyncEntity.Populate | Lib/src/main/java/com/tinymission/tinysync/sync/SyncEntity.java:81-94 | created becomes the JSON of the rows in state created and updated that of the rows in state updated; fails exactly when the context is missing (NullPointer) or a row of either state does not deserialise (RowFailure) |
| Sync.FlaggedAll | Lib/src/main/java/com/tinymission/tinysync/sync/Syncer.java:112-113 | each record of a list is exactly one of persisted and unpersisted |
| Sync.AddAll | Lib/src/main/java/com/tinymission/tinysync/sync/Syncer.java:112-113 | adds each record: the unpersisted ones to the new queue, the persisted ones to the changed queue |
| Sync.QueueParsed | Lib/src/main/java/com/tinymission/tinysync/sync/Syncer.java:112-113 | queues the decoded created records as new and the updated ones as changed |
| Sync.EnumToJson | Lib/src/main/java/com/tinymission/tinysync/sync/Syncer.java:208-214 | a null constant writes JSON null, any other its name |
| Sync.EnumFromJson | Lib/src/main/java/com/tinymission/tinysync/sync/Syncer.java:216-228 | JSON null reads as null; a string reads as the first constant equal to it ignoring case, or null; other kinds fail |
| Sync.FirstConstant | Lib/src/main/java/com/tinymission/tinysync/sync/Syncer.java:222-226 | a constant equal to the text ignoring case, and none exactly when no constant is |
| Sync.EnumJsonRoundTrip | Lib/src/main/java/com/tinymission/tinysync/sync/Syncer.java:208-228 | writing then reading gives back null, and every constant not shadowed by an earlier one of the same name in another case |
| Sync.EnumFromJsonIgnoresCase | Lib/src/main/java/com/tinymission/tinysync/sync/Syncer.java:216-228 | strings that differ only in case read the same |
| Sync.UnknownConstantReadsNull | Lib/src/main/java/com/tinymission/tinysync/sync/Syncer.java:216-228 | an unknown name reads as null rather than failing |
| Sync.ShouldSkipField | Lib/src/main/java/com/tinymission/tinysync/sync/Syncer.java:235-240 | association slots and Object fields are left out of JSON, and nothing else |
| Sync.ShouldSkipClass | Lib/src/main/java/com/tinymission/tinysync/sync/Syncer.java:243-245 | no class is skipped |
| Sync.AssociationsAreSkipped | Lib/src/main/java/com/tinymission/tinysync/sync/Syncer.java:235-240 | has-many and belongs-to fields are skipped; plain fields are kept |
| Sync.StoredWatermark | Lib/src/main/java/com/tinymission/tinysync/sync/Syncer.java:61-65 | the stored watermark, or "2000-01-01T01:00:00-0000" when none is stored |
| Sync.UnknownEntity | Lib/src/main/java/com/tinymission/tinysync/sync/Syncer.java:109-117 | a response naming an unknown table is not one whose entities are all known |
| Sync.Syncer.constructor | Lib/src/main/java/com/tinymission/tinysync/sync/Syncer.java:38-41 | a syncer over the context and preferences |
| Sync.Syncer.GetLastSynced | Lib/src/main/java/com/tinymission/tinysync/sync/Syncer.java:61-65 | the parse of the stored or default watermark |
| Sync.Syncer.SetLastSynced | Lib/src/main/java/com/tinymission/tinysync/sync/Syncer.java:70-75 | stores the text of the watermark under its key; the other preferences stay |
| Sync.Syncer.ProcessResponse | Lib/src/main/java/com/tinymission/tinysync/sync/Syncer.java:109-117 | succeeds exactly when the response carries a watermark and an entity array and names only known tables; a null entity array is NullPointer with no collection touched; on success the watermark is stored, `creates[j]` and `updates[j]` hold as many records as the j-th entity's created and updated arrays, `parsed` is all of their records, new objects, the result merges one part per collection, and the records it reports as inserted, updated or errored are exactly those queued before the call together with `parsed`; on failure the preferences are unchanged |
| Sync.Syncer.StoreAndSave | Lib/src/main/java/com/tinymission/tinysync/sync/Syncer.java:115-116 | a null watermark is NullPointer with nothing stored or saved; otherwise the watermark is stored, the result merges one part per collection and reports exactly the records queued before the call |
| Sync.Syncer.QueueEntities | Lib/src/main/java/com/tinymission/tinysync/sync/Syncer.java:110-114 | queues every entity; fails with InvalidCollection exactly when some entity names an unknown table, and the error names one of them; otherwise `creates[j]` and `updates[j]` are decoded from the j-th entity's created and updated arrays (one record per object, its row the decoded object, unpersisted and persisted respectively), the records added are exactly all of theirs, new objects, and the queues lie within and cover what they held plus those |
| Sync.Syncer.QueueNext | Lib/src/main/java/com/tinymission/tinysync/sync/Syncer.java:110-114 | one pass of the loop: an unknown name is InvalidCollection and makes the entities not all known; otherwise the lists grow by the entity's decoded records and the loop state still holds |
| Sync.Syncer.QueueAll | Lib/src/main/java/com/tinymission/tinysync/sync/Syncer.java:110-114 | the loop over the entities: the first unknown name ends it with InvalidCollection naming an entity; otherwise every entity has been queued, the records added are new objects, and Progress holds for all of them: known names, the lists ParsedFrom and Decoded per entity, queues exact |
| Sync.Syncer.ProgressDone | Lib/src/main/java/com/tinymission/tinysync/sync/Syncer.java:110-114 | after the last entity, every name is known and each pair of lists is decoded from its entity's arrays |
| Sync.Syncer.QueueInto | Lib/src/main/java/com/tinymission/tinysync/sync/Syncer.java:112-113 | the collection's new queue gains the created records and its changed queue the updated ones, all new objects, and the queues still lie within and cover what they held plus those |
| Sync.AllParsedMembers | Lib/src/main/java/com/tinymission/tinysync/sync/Syncer.java:110-114 | a record is among those parsed exactly when one of the lists holds it |
| Sync.ParsedStep | Lib/src/main/java/com/tinymission/tinysync/sync/Syncer.java:112-113 | one more entity adds exactly its two lists' records to those parsed |
| Sync.DecodedEach | Lib/src/main/java/com/tinymission/tinysync/sync/Syncer.java:110-114 | each pair of lists is what parseArray made of its entity's arrays |
| Sync.QueuedExactly | Lib/src/main/java/com/tinymission/tinysync/sync/Syncer.java:109-117 | queues that lie within a set of records and cover it queue exactly that set |
| Sync.Syncer.QueueEntity | Lib/src/main/java/com/tinymission/tinysync/sync/Syncer.java:111-113 | the entity's collection gains its decoded created records as new and updated records as changed; an unknown table is InvalidCollection |
| Sync.Syncer.GenerateRequest | Lib/src/main/java/com/tinymission/tinysync/sync/Syncer.java:132-148 | an uninitialised context gives a request with an empty entity array; otherwise it fails exactly when populating some collection fails (it has no context, or a created or updated row cannot be deserialised), and a success is an entity array, never null, with one populated entity per collection, in sync order, and no watermark; a failure is NullPointer or RowFailure |
| Sync.Syncer.PopulateAll | Lib/src/main/java/com/tinymission/tinysync/sync/Syncer.java:138-144 | one populated entity per name, in order; it fails exactly when populating one of the names fails, and no collection gains or loses its context |
| Sync.Syncer.PopulateNext | Lib/src/main/java/com/tinymission/tinysync/sync/Syncer.java:139-143 | one more pass of the loop: a new entity for the next name, populated from its collection, so that every entity so far is Populated with its name; it fails exactly when that collection has no context or one of its created or updated rows cannot be deserialised, so a failure means some name fails and a success extends the names none of which fails by one; errors are NullPointer or RowFailure |
| Sync.Syncer.PopulateEntity | Lib/src/main/java/com/tinymission/tinysync/sync/Syncer.java:139-143 | a new entity for the named collection, populated from its table; an unknown name is InvalidCollection, and for a known one it fails exactly when the collection has no context or one of its created or updated rows cannot be deserialised |
| Sync.TableNamesFound | Lib/src/main/java/com/tinymission/tinysync/db/DbContext.java:169-174 | every name of the sync order finds its collection |

## Left out

- SQLite itself: `PRAGMA table_info` column reading (`readColumnNames`), `count`, `doesTableExist` and opening the helper are not modelled. A table is a sequence of rows, and tables that exist are a set of names.
- Db.Collection.RunQuery: the ORDER BY text is built (Queries.Query.GetOrderBy), but the selected rows are not sorted by it. They stay in table order.
- Db.Collection.Find: a row that fails to deserialise is not modelled here, only in the result set (the `broken` rows).
- Db.Collection.DeserializeRow: the sync state and the enum fields are read with the corrected enum read (finding 3): the record takes the row's constant, and a NULL enum cell reads as null. As written, the looked-up constant is discarded, so the sync state stays created, and a NULL cell makes `Enum.valueOf` throw. Which rows throw is an input of the model (`broken` in a result set, `unreadable` for a fetch), not derived from the cells. Every member that deserialises rows inherits this: Db.Collection.Find, Db.Collection.CachedFind, Db.ResultSet.Compute, Db.ResultSet.First, Db.ResultSet.Next, Db.ResultSet.ToArray, the Db.RowIterator methods, the Slots getters, Sync.SyncEntity.Fetch, Sync.SyncEntity.EncodeAll, Sync.SyncEntity.Populate, Sync.Syncer.GenerateRequest, Sync.Syncer.PopulateAll and Sync.Syncer.PopulateEntity.
- Db.Collection.DeserializeRow: association includes are not modelled. The record's belongs-to keys are among its values.
- Db.ResultSet.First, Db.ResultSet.Next, Db.ResultSet.ToArray, Db.RowIterator.NextAsWritten, Sync.SyncEntity.EncodeAll, Sync.SyncEntity.Populate and Sync.Syncer.GenerateRequest are built on the corrected Db.ResultSet.Compute (finding 1). As written, every `next()` re-reads row 0, so the array a fetch builds holds size() copies of the first row's JSON. Only Db.ResultSet.ComputeAsWritten states the code as written.
- Reflection and annotation discovery are left out. That covers `parseField` and `addFieldValidator`, the loops over `getFields()` in the collection constructors, and `populateFromAnnotation`'s annotation lookup. The schema and validators they produce are inputs.
- Gson and Joda internals are function parameters: `parseJson`, `createGson`, the DateTime and ObjectId type adapters, `toJsonTree` and `fromJson`, and DateTime text and parsing.
- The String, Int, ObjectId and Float serializers are not modelled separately. Each writes its value's own text, and `Schema` only records which serializer a column has.
- Logging (`Log.*`, `logErrors`) and `getErrorMessage` are left out.
- The Android context, shared preferences and the Web/JavaScript bridge are left out. Preferences are a string map.
- The clock is the `now` parameter, and ids are parameters of the record constructor.
- The `TinySyncLib` copy of `DbContext` is not part of this model. The `Lib` copy is modelled.
- `Lib/src/main/java/com/tinymission/tinysync/db/DbCollection.java` is not part of this model. Its `addAll`, called by `processResponse`, is modelled as `Sync.AddAll` with the behaviour of `add`.
- Db.Context.Save: the outcome of each record is stated per collection, by Db.Collection.Save through Db.Collection.SaveOutcome. Db.Context.Save states only the exact set of records reported and one part per collection, each drawn from that collection's own queues. It does not state the persisted flags, errors or queues after the call, and when one record is queued in two collections it does not say which of them reports it.
- Db.Context.Touch, Db.Context.GetWritableDatabase, Db.Context.GetReadableDatabase and Db.Context.Save: opening a handle also runs the open helper's onOpen, which calls updateSchema (TinySyncLib/src/main/java/com/tinymission/tinysync/db/DbOpenHelper.java:29-32). A handle is a number here, and this schema update on open is not modelled. Db.Context.UpdateSchema models updateSchema as an operation of its own.
- Db.Collection.RunQuery, Slots.HasMany.GetValues: a table's columns are taken to be the base columns and the schema's columns, the ones the CREATE TABLE of updateSchema declares. A table altered outside the library is not modelled. Which unknown column SQLite's message names is taken to be the first one the query lists.
- Db.Matches, Db.CellEquals, Db.Select and Db.Collection.RunQuery: SQLite's NUMERIC conversion is modelled for integer literals only: an optional sign, then decimal digits. A real literal such as "5.0" or "5e0", surrounding spaces, and an integer too wide for 64 bits are treated as text, so they equal no INTEGER cell. In SQLite they would convert and could match.
- Records.Record.OnValidate: the model class's hook is a constant list of errors (Db.Collection.customErrors, passed to every record the collection makes). A hook whose errors depend on the record's fields, or change from one run to the next, is not modelled.
- Schema.KeyRoundTrip: the ObjectId class is not part of this model. The lemma assumes that its toString prints the hex text and that its string constructor reads that text back.
- Params.ParamsToJson: the JSON object is a map, so the insertion order of Gson's JsonObject, which its text follows, is not modelled.
- Sync.Syncer.ProcessResponse: that each record of `creates[j]` and `updates[j]` was decoded from the j-th entity's objects, with its persisted flag, is stated by Sync.Syncer.QueueEntities, at the point where the records are queued. ProcessResponse states only how many there are and that every one of them is reported. The save that follows stamps, validates and marks these records, and Db.Context.Save does not state which of their fields it leaves alone, so the decoded rows are not restated after it. The collections' queues after a failure are not stated. The entity names are read in the state before the call.
- Sync.SyncEntity.Fetch: which rows fail to deserialise is an input set (`unreadable`). The collection's cache after such a failure is not stated.
- Sync.Syncer.GenerateRequest: it does not state that the entities are new objects. Sync.Syncer.PopulateNext does.
- Db.Collection.Save, Db.Collection.WriteRecord, Db.Context.Save and Sync.Syncer.GenerateRequest: the store after a write is not modelled. The tables that Find, RunQuery and GenerateRequest read are inputs, and nothing ties them to what an earlier save inserted or updated. Save states only which records the store accepted, in order (`stored1`, `stored2`). So the request after two saved new Authors is not shown to hold two created rows.
- Schema.NewBelongsToMeta: the RuntimeException message omits the text of the underlying exception. It names the key column with the corrected Naming.BelongsToColumnName (finding 4): an empty `@DbColumn` name gives the derived `field_id`, where the code as written takes the empty name.
- Common.EqualsIgnoreCase: it folds ASCII letters only. Java's `equalsIgnoreCase` also folds the other Unicode letters. Its callers inherit this: Params.StringToPrimitive, Db.CollectionNamed, Db.Context.GetCollectionByName, Sync.FirstConstant and Sync.EnumFromJson.
- EqualsIgnoreCaseIsLowerEquality: it is stated for the ASCII folding of Common.EqualsIgnoreCase, not for Java's Unicode case folding.
- Codecs.DateTimeFromCell: an instant at or before the epoch reads back as null. This is the code's own behaviour (`longValue > 0`), kept as written.
- `TinySyncLib/src/main/java/com/tinymission/tinysync/query/Query.java` types its ordering direction as `OrderBy.Direction`, which `OrderBy.java` does not declare. The model uses the `int` direction of `OrderBy`'s constructor.
- The documentation of `orderBy` at `TinySyncLib/src/main/java/com/tinymission/tinysync/db/DbCollection.java:498` says that 0 means ascending. `OrderBy.getDirectionString` prints DESC for 0, and the model follows the code (Queries.DirectionConstants).
- The iteration order of `HashSet` and `HashMap` is not modelled. Queues are sets and column maps are maps, and every per-record outcome is stated whatever the order.

## Findings

| source | as written | input that shows it | evidently intended | confidence | as-written member | corrected member |
|---|---|---|---|---|---|---|
| Lib/src/main/java/com/tinymission/tinysync/db/DbSet.java:51-57 | `compute` deserialises the cursor's current row on every step but never moves the cursor | a result set over two different rows: record 1 is read from row 0 | record k is read from row k (the cursor advances to the next row each step); the members built on compute use this corrected read (see Left out) | high, not executed | Db.ResultSet.ComputeAsWritten | Db.ResultSet.Compute |
| TinySyncLib/src/main/java/com/tinymission/tinysync/db/DbCollection.java:473-476 | `onValidate` runs inside the loop, once per validator | a model with no validators never runs its own validation; one with two validators collects its own errors twice | validators run, then `onValidate` once | high, not executed | Validation.HookRepeatedPerValidator | Validation.ValidationPassesIff |
| TinySyncLib/src/main/java/com/tinymission/tinysync/serializers/EnumSerializer.java:22-24 | the constant looked up by `Enum.valueOf` is discarded; the field is never set | a stored "senior" reads back into a fresh record as null | the field takes the looked-up constant; the corrected read also reads a NULL cell as null, where the code as written throws from `Enum.valueOf` | high, not executed | Codecs.EnumReadDiscardsValue | Codecs.EnumRoundTrip |
| Lib/src/main/java/com/tinymission/tinysync/db/DbBelongsToMeta.java:28-36 | any `@DbColumn` name is taken, including the annotation's default "" | a belongs-to field annotated `@DbColumn()` gets the empty column name; but `parseField` (TinySyncLib/src/main/java/com/tinymission/tinysync/db/DbCollection.java:71-76) also builds a `DbColumnMap` for that annotation, and `DbSerializer.factory` has no serializer for a `DbBelongsTo` field, so a collection declaring it may fail to build before the name is used | an empty name falls back to the derived `field_id`, as `DbColumnMap` does | low, not executed | Naming.BelongsToEmptyAnnotationGivesEmptyName | Naming.BelongsToColumnNameNonEmpty |
| Lib/src/main/java/com/tinymission/tinysync/db/DbSet.java:90-98 | `hasNext` tests `_index > _size-1`, and `next` increments before reading | a non-empty set: `hasNext()` is false at the start; `next()` would return record 1 first | `hasNext` is `_index < _size`; `next` returns record `_index`, then increments | high, not executed | Db.HasNextInverted | Db.RowIterator.Next |
