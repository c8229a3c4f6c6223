# LanceDB client core: a Dafny model

This project models the parts of the LanceDB clients in which something can go wrong quietly: how
rows of JavaScript values get an Arrow schema, how they are cut into columns, how blob values
travel through that conversion, how blob bytes are read beside a table that keeps changing, how a
search shares a prepared vector, how a data source is scanned again, how foreign Arrow objects are
rebuilt, and three small tools (a marker parser, a version order, a SQL literal printer). Each part
is stated against an independent description of what it should do and proved for all inputs, all
runs or all interleavings.

Every `.dfy` file holds one module; `dafny verify dfyconfig.toml` checks them all.

## How the parts fit together

**Schema inference** (`schema.ts`). `Values` and `ArrowTypes` are the data. `FieldTrees` is the tree
of evidence as a value, with the law of `set` for every path. `FieldTreeStore` is the class
`FieldTree` with its children updated in place: the objects of a tree mirror the value at every path,
and a conflicting `set` leaves all of them as they were. `TypeInference` is the type of one value;
`TypeMeaning` says, without inferring anything, which values a column of a type holds, and proves the
inferred types to be exactly the ones that hold their values.
`SchemaInference` folds observations into the tree and proves the fold equal to a specification that
mentions no order: observations are *consistent* when each pair of them is compatible, and
*resolved* when every observed leaf has a value with a type. Inference succeeds exactly on
consistent and resolved observations, and the type at each path is a function of the set of
observations; so permuting the rows changes nothing. `SchemaGuidedInference` does the same for
inference with a schema. `SchemaInferrer` is the class as it runs, with its loops, tied to those
functions. With a schema the order of the rows does matter; `RowOrder` says exactly how. `AcceptedRows`
speaks of whole rows: which ones have a schema, and that no unsupported object gets past inference.

**Conversion** (`arrow.ts`, `blob.ts`). `Columns` shreds rows into struct, list and leaf columns and
reads them back; the round trip holds for any nesting. `NullFilling` shows that filling missing
fields with nulls does not change the columns. `Blobs` is the coercion of blob values, and
`BlobTraversal` the traversal that shows every blob position to a visitor. `BlobPipeline` joins mapping,
inference and shredding: a blob is coerced once before inference and once after, against a field that
inference may have narrowed, and the theorems say exactly when all of it succeeds and what is in the
columns then; `BlobConversion` is the half of it that does not speak of inference. `BlobReading` replaces
blob handles by their bytes in two traversals over shared objects (`JsObjects`), copying only what
changes.

**Protocols** (`query.ts`, `scannable.ts`, `scannable.rs`). `BlobBytesQuery`, `AutoQuery` and
`ScanProtocol` are state machines in which other clients may act between any two steps; their
theorems speak about every run. `ScanInterleaving` lets several streams share one source.
`BlobBytesTable` puts fetched bytes in place, batch by batch.

**Sanitizing** (`sanitize.ts`). `Sanitize` rebuilds an acyclic graph of foreign objects with caches
and relates the result to the plain recursive rebuild, sharing included.

**Tools.** `Snippets`, `SemVer` and `SqlLiterals`.

## What turned out not to hold

- A call with `blobMode: "bytes"` can return rows of a version with blob columns and no bytes: if the
  snapshot has no blob column, the query runs on the live table and nothing is rechecked, so a commit
  in between may add one (`DescriptorsWithoutBytes`). `BytesAreMissedExactly` gives the condition.
- With a schema, inference depends on the order of the rows: a struct column given a date before
  the first record is refused, the other way round it is accepted (`OrderMattersWithSchema`).
  `SucceedsInOrder` says which orders are accepted and `SucceedsInEveryOrder` when all of them are.
- A blob value that coerces is not always written. Storage that has other columns than `data`, `uri`,
  `position` and `size`, or not the one the value fills, makes the second coercion fail
  (`WideningCanLoseTheSource`); storage with two columns that are not `data` and `uri` makes inference
  refuse the row (`TwoColumnsCanLoseTheSource`); inside a list, where inference does not look, such
  storage is accepted and the bytes are dropped silently (`ListDropsTheBytes`). `PipelineSucceeds` gives
  the condition for a table to be made, and `NothingIsLostExactly` the one for a table that was made to
  have every column the blobs fill: struct storage has the column that holds the blob. Outside lists a
  table that was made always meets it, and the storage that `blob()` declares meets both.
- Two streams over one `Scannable` that are pulled in turn take each other's batches
  (`StolenBatch`). `SafeExactlyAlone` says which schedules are safe over all factories. One factory may
  allow more: if it repeats itself, another stream may leave the iterator just where this one is
  (`InPlaceButNotAlone`), and `SafeExactlyInPlace` says which schedules such sources allow.

## Assumptions

- Sibling field names are distinct where a theorem says `DistinctNames` or `Distinct`; the code looks
  fields up by the first match. Without that, the unchecked cast in `matchingFields` can meet a field
  that is not a struct (`RepeatedNamesBreakTheCast`); with it, it never does (`CastsAreValid`).
- A failure is a tag; messages and row numbers are not modelled.
- Dictionary ids are numbers drawn from a counter, and types are compared as `inferredTypesEqual`
  compares them, without their ids.
- The contents of a blob handle, the rows a query collects, the outcome of an embedding call and the
  batches a factory gives are parameters or choices of the environment.
- The version of a table never goes down. A query on the live table reads one version, one that is live
  at a moment between its start and its end.
- In `ScanProtocol` one stream is active at a time; `ScanInterleaving` drops that.
- A finite number prints as a numeral and a date prints without quotes.

## Model

| member | source | states |
|---|---|---|
| `ArrowTypes.TypesEqualTransitive` | nodejs/lancedb/schema.ts:571-598 | comparison of inferred types, which ignores dictionary ids and the metadata of item fields, is transitive |
| `ArrowTypes.TypesEqualSymmetric` | nodejs/lancedb/schema.ts:571-598 | and symmetric |
| `ArrowTypes.TypesEqualReflexive` | nodejs/lancedb/schema.ts:571-598 | and reflexive, so it is an equivalence |
| `ArrowTypes.TypesEqualExactly` | nodejs/lancedb/schema.ts:571-598 | two types compare equal if and only if they are the same once dictionary ids, item metadata and representatives of primitive types are erased |
| `ArrowTypes.FieldAbove` | nodejs/lancedb/schema.ts:528-542 | a path that reaches a schema field goes through struct fields all the way |
| `ArrowTypes.FieldBelow` | nodejs/lancedb/schema.ts:528-542 | looking up one more name is looking it up among the children of the struct reached so far, and fails on any other field |
| `FieldTrees.SetReads` | nodejs/lancedb/schema.ts:358-384 | `set` conflicts exactly when a leaf that may not be replaced is on the way or a branch is at the end; otherwise every path reads as the frame law says: the new leaf at the path, branches above it, nothing below it, everything else as before |
| `FieldTrees.SetLooks` | nodejs/lancedb/schema.ts:358-384 | the same at every path for the names of each branch and their insertion order |
| `FieldTrees.SetWellFormed` | nodejs/lancedb/schema.ts:358-384 | `set` keeps names and children in step at every level |
| `FieldTrees.SetLeavesNoEmptyBranch` | nodejs/lancedb/schema.ts:358-384 | `set` never leaves an empty branch |
| `FieldTreeStore.FieldTree.constructor` | nodejs/lancedb/schema.ts:340-341 | a new tree has no children |
| `FieldTreeStore.FieldTree.Get` | nodejs/lancedb/schema.ts:343-356 | walking the objects reads what the mirrored value has at the path |
| `FieldTreeStore.FieldTree.Set` | nodejs/lancedb/schema.ts:358-384 | updates in place; on a conflict no object has changed, otherwise the objects mirror the value with the new leaf |
| `FieldTreeStore.FieldTree.Enter` | nodejs/lancedb/schema.ts:363-375 | one turn of the loop: a missing or only-null child becomes a new tree, any other leaf stops the descent with nothing written so far |
| `FieldTreeStore.WriteLooks` | nodejs/lancedb/schema.ts:358-384 | writing one entry of one object changes exactly what is seen at and below it, and the names of its tree, from the root |
| `FieldTreeStore.WalkUnique` | nodejs/lancedb/schema.ts:340-393 | in a valid tree of objects only one path leads to each object |
| `TypeInference.InferTypeUpToId` | nodejs/lancedb/schema.ts:215-263 | inferring one value at two moments gives types that differ at most in dictionary ids |
| `TypeInference.MatchesRespectsEquality` | nodejs/lancedb/schema.ts:550-569 | whether a deferred value matches a type does not depend on which of two equal types is asked |
| `TypeInference.MatchingIsDeferred` | nodejs/lancedb/schema.ts:544-569 | only deferred values (null, empty lists, lists of such) match a type without having one |
| `TypeInference.AgreesMeansFixedSize` | nodejs/lancedb/schema.ts:134-180 | a value that agrees with a fixed-size list type is null or has exactly that many elements |
| `TypeMeaning.AgreesExactly` | nodejs/lancedb/schema.ts:134-180 | a value agrees with the type of a column if and only if the type holds it: bigints in Int64, numbers in Float64, text in Utf8 or its dictionary as the options say, booleans in Bool, Buffers in Binary, n bytes in n UInt8, lists item by item, named and name-suggested vectors with their own item type |
| `TypeMeaning.InferTypeExactly` | nodejs/lancedb/schema.ts:215-263 | the type of a value holds it and no other type does; a value without a type is deferred or held by none |
| `TypeMeaning.TypeTakesExactly` | nodejs/lancedb/schema.ts:215-263 | read from the type: which values other than null a column of each type holds |
| `TypeMeaning.SuggestsExactly` | nodejs/lancedb/schema.ts:646-649 | a name suggests a vector if and only if `vector` or `embedding` stands somewhere in it, in any case |
| `TypeMeaning.DeferredExactly` | nodejs/lancedb/schema.ts:544-569 | a value is deferred if and only if some type is matched by it |
| `SchemaInference.ObserveStep` | nodejs/lancedb/schema.ts:64-213 | `observe` succeeds exactly when the new observation is consistent with all earlier ones, and the tree then stands for all of them |
| `SchemaInference.StepAtNewPath` | nodejs/lancedb/schema.ts:81-102 | the first value at a path is accepted exactly when nothing above it is a value other than null, and only-null leaves give way to a branch |
| `SchemaInference.StepAtBranch` | nodejs/lancedb/schema.ts:134-153 | at a path that has become a struct only null is consistent |
| `SchemaInference.StepAtType` | nodejs/lancedb/schema.ts:160-180 | at a typed path exactly the values that fit the type are consistent, and no evidence is lost |
| `SchemaInference.StepAtDeferred` | nodejs/lancedb/schema.ts:182-213 | at an undecided path a typed value is accepted exactly when all deferred values match its type; an undecided one is merged |
| `SchemaInference.ObserveAllRefines` | nodejs/lancedb/schema.ts:52-213 | folding all observations succeeds exactly when they are pairwise consistent |
| `SchemaInference.NoBranchIsEmpty` | nodejs/lancedb/schema.ts:340-384 | after any observations every branch of the tree has evidence under it |
| `SchemaInference.TypeFromTreeSucceeds` | nodejs/lancedb/schema.ts:399-417 | `fieldsFromTree` fails exactly when a leaf is still undecided |
| `SchemaInference.FieldsFromTreeFind` | nodejs/lancedb/schema.ts:399-417 | the fields of a branch are its names in insertion order, each nullable and once |
| `SchemaInference.FieldsShowTree` | nodejs/lancedb/schema.ts:399-417 | looking up any path in the inferred fields shows what the tree holds there |
| `SchemaInference.InferMeetsSpecification` | nodejs/lancedb/schema.ts:52-213 | inference without a schema succeeds exactly on consistent and resolved observations; then every path has the field its observations call for and every observed value is accepted by the type at its path |
| `SchemaInference.InferIsOrderFree` | nodejs/lancedb/schema.ts:52-213 | success and the type at every path are the same for all sequences with the same observed (path, value) pairs |
| `SchemaInference.FixedSizeColumnsAreUniform` | nodejs/lancedb/schema.ts:64-333 | every value of a fixed-size list column of size n is null or has exactly n elements |
| `SchemaGuidedInference.ObserveAllRefines` | nodejs/lancedb/schema.ts:104-132 | with a schema the fold succeeds exactly when every observation is accepted by the field at its path and records come before other objects |
| `SchemaGuidedInference.StructTakesExactly` | nodejs/lancedb/schema.ts:508-526 | at a struct field exactly null, dates, sets, maps, regular expressions and plain objects of supported values are accepted |
| `SchemaGuidedInference.NoBranchIsEmpty` | nodejs/lancedb/schema.ts:104-132 | with a schema, too, every branch of the tree has evidence under it |
| `SchemaGuidedInference.BranchesHoldStructs` | nodejs/lancedb/schema.ts:419-441 | a branch exists only where the schema has a struct |
| `SchemaGuidedInference.CastsAreValid` | nodejs/lancedb/schema.ts:419-441 | so the unchecked cast in `matchingFields` is always valid |
| `SchemaGuidedInference.RepeatedNamesBreakTheCast` | nodejs/lancedb/schema.ts:419-441 | a schema with a repeated sibling name for which the cast meets a field that is not a struct |
| `SchemaGuidedInference.MatchingIsRestriction` | nodejs/lancedb/schema.ts:419-441 | `matchingFields` gives the schema fields restricted to the observed paths, in schema order, with nullability and metadata |
| `SchemaGuidedInference.InferMeetsSpecification` | nodejs/lancedb/schema.ts:52-132 | inference with a schema succeeds exactly when every observation is accepted and records come first, and returns exactly that restriction |
| `SchemaInferrer.RecordPathsAndValues` | nodejs/lancedb/schema.ts:443-454 | yields exactly the leaves of a row: every path through plain objects that ends in another value |
| `SchemaInferrer.InferValueType` | nodejs/lancedb/schema.ts:215-263 | the method computes the type of a value, which `TypeMeaning.InferTypeExactly` says without it |
| `SchemaInferrer.InferArrayItemType` | nodejs/lancedb/schema.ts:265-294 | one pass over the items finds the type of the first typed item, if every item agrees with it, wherever the undecided items are |
| `SchemaInferrer.Inferrer.constructor` | nodejs/lancedb/schema.ts:44-51 | an inferrer starts with an empty tree |
| `SchemaInferrer.Inferrer.Observe` | nodejs/lancedb/schema.ts:64-213 | one observation moves the tree as the pure step does, with or without a schema |
| `SchemaInferrer.Inferrer.ObserveFreely` | nodejs/lancedb/schema.ts:64-213 | without a schema: `addField`, `updateInferredField` and `resolveDeferredField` |
| `SchemaInferrer.Inferrer.ObserveWithSchema` | nodejs/lancedb/schema.ts:104-132 | with a schema: `addSchemaField` |
| `SchemaInferrer.Inferrer.ObserveRow` | nodejs/lancedb/schema.ts:52-62 | observes the leaves of a row in order and nothing more after a failure |
| `SchemaInferrer.Inferrer.Infer` | nodejs/lancedb/schema.ts:52-62 | observes exactly the leaves of all rows and returns what the specified inference gives for them |
| `SchemaInferrer.ReadFields` | nodejs/lancedb/schema.ts:399-417 | `fieldsFromTree` on the objects is `fieldsFromTree` on the mirrored value |
| `SchemaInferrer.ReadMatching` | nodejs/lancedb/schema.ts:419-441 | so is `matchingFields` |
| `SchemaInferrer.RowOrderIsInvisible` | nodejs/lancedb/schema.ts:52-213 | without a schema, permuting the rows changes neither success nor the type at any path |
| `SchemaInferrer.EveryLeafAgrees` | nodejs/lancedb/schema.ts:52-213 | without a schema, every leaf of every row agrees with the inferred field at its path; beside the records of a struct there is only null |
| `SchemaInferrer.EveryLeafHolds` | nodejs/lancedb/schema.ts:52-333 | without a schema every leaf of every row is held by the inferred field at its path, or is null beside records; every other column has a leaf that no other type holds |
| `AcceptedRows.InfersExactly` | nodejs/lancedb/schema.ts:52-333 | a schema is inferred if and only if no unsupported object is in the rows, beside records there is only null, and at every other path one type holds all leaves and some leaf calls for it |
| `AcceptedRows.LeavesExactly` | nodejs/lancedb/schema.ts:443-465 | the leaves of a row are the values in it, through plain objects, that are neither undefined nor objects with properties |
| `AcceptedRows.SupportedExactly` | nodejs/lancedb/schema.ts:467-506 | a value is supported if and only if no object of a class and no empty object is inside it |
| `AcceptedRows.StraysAreRefused` | nodejs/lancedb/schema.ts:467-506 | a row with such an object at any depth is refused, with and without a schema |
| `AcceptedRows.AcceptedRowsFill` | nodejs/lancedb/arrow.ts:1537-1619 | null filling does not throw on a row that inference with a schema accepts |
| `RowOrder.LeavesArePrefixFree` | nodejs/lancedb/schema.ts:443-454 | no leaf of a row is above another |
| `RowOrder.SucceedsInOrder` | nodejs/lancedb/schema.ts:52-132 | with a schema, rows in a given order are accepted exactly when every leaf is accepted by the field at its path and a row with another object where rows have records comes after one of those |
| `RowOrder.SucceedsInEveryOrder` | nodejs/lancedb/schema.ts:52-132 | every order of the rows is accepted if and only if every leaf is accepted and no struct holds both a record and another object |
| `RowOrder.ObjectFirstFails` | nodejs/lancedb/schema.ts:104-132 | with the row of such an object put first inference fails |
| `RowOrder.OrderMattersWithSchema` | nodejs/lancedb/schema.ts:104-132 | two rows that are accepted in one order and refused in the other |
| `Columns.ValueAtPath` | nodejs/lancedb/arrow.ts:697-710 | the loop gives the value at the path, or undefined once a step is missing |
| `Columns.FlattenLists` | nodejs/lancedb/arrow.ts:774-793 | the loop fails exactly on a value that is neither a list nor null, and collects all items in order, one validity bit per list and the running offsets |
| `Columns.TransposeListData` | nodejs/lancedb/arrow.ts:767-807 | the method builds the specified list column |
| `Columns.OffsetsFit` | nodejs/lancedb/arrow.ts:774-793 | list offsets start at 0, never go down and end at the number of items |
| `Columns.ShredAssembleRoundTrip` | nodejs/lancedb/arrow.ts:697-807 | shredding succeeds exactly on convertible rows; then all lengths, validity bits, null counts and offsets fit and reading row i back gives the canonical form of row i, for any nesting of structs and lists |
| `Columns.ConformingRowsSurvive` | nodejs/lancedb/arrow.ts:697-807 | rows already in the shape of the field come back unchanged |
| `Columns.MissingIsAllNulls` | nodejs/lancedb/arrow.ts:712-765 | a missing struct is a valid struct of nulls however deep; an explicit null is null |
| `Columns.NullReachesDown` | nodejs/lancedb/arrow.ts:697-710 | where a row has null or undefined for a struct, every column under it is null |
| `Columns.LeafReads` | nodejs/lancedb/arrow.ts:712-765 | a leaf column has the values of the rows, with null for undefined and missing ones if it is nullable |
| `Columns.InstanceReadsAsRecord` | nodejs/lancedb/arrow.ts:683-695 | an object of a class is converted as the plain object with its properties |
| `Columns.CountNullsExactly` | nodejs/lancedb/arrow.ts:767-807 | the null count of a column is the number of its null rows |
| `NullFilling.EnsureStructFieldsExist` | nodejs/lancedb/arrow.ts:1587-1619 | the loop computes the filled struct |
| `NullFilling.FillStructSucceeds` | nodejs/lancedb/arrow.ts:1587-1619 | filling throws exactly when a primitive stands where a struct with children is expected |
| `NullFilling.FillingIsInvisible` | nodejs/lancedb/arrow.ts:1537-1619 | filled rows give the same column as the rows themselves, validity included |
| `NullFilling.AlikeRowsSameColumn` | nodejs/lancedb/arrow.ts:697-807 | rows that agree up to missing versus null leaves and missing versus empty structs give the same column |
| `NullFilling.FillIdempotent` | nodejs/lancedb/arrow.ts:1537-1619 | filling a filled row changes nothing |
| `NullFilling.FillShape` | nodejs/lancedb/arrow.ts:1537-1619 | filling leaves every value that is there and puts null for a missing leaf and an object of nulls, at every depth, for a missing struct |
| `Blobs.Coerce` | nodejs/lancedb/blob.ts:391-507 | a coerced blob has exactly one of data and uri; a range belongs to a uri, has size at least 1, ends within 2^64 - 1, and the storage has columns for it |
| `Blobs.ColumnsCoerce` | nodejs/lancedb/blob.ts:391-487 | an object made of columns of a coerced blob coerces back to it exactly when its source is among them and no other property is |
| `Blobs.CoercedColumns` | nodejs/lancedb/blob.ts:391-487 | which column a blob value fills, and which columns stay null, read off the value |
| `Blobs.CoerceSucceeds` | nodejs/lancedb/blob.ts:391-487 | a value coerces if and only if it is null, or bytes, text or an object of the four properties with exactly one of bytes and a text that is not empty, and a range that fits only beside a text |
| `Blobs.CoercedPayload` | nodejs/lancedb/blob.ts:391-507 | the four columns of a coerced value are the bytes, the text or href, and the integers that the input itself gives |
| `Blobs.CoercionsAgree` | nodejs/lancedb/arrow.ts:457-488 | a value passed by the first coercion gives the same result in the second, unless the widening dropped its source column or added an unknown one; then it fails |
| `Blobs.OwnStorageAgrees` | nodejs/lancedb/arrow.ts:457-488 | the same against the storage itself, without further conditions |
| `Blobs.DeclaredStorageSurvives` | nodejs/lancedb/blob.ts:135-171 | with the storage that `blob()` declares the two always agree |
| `BlobTraversal.NoBlobNoPositions` | nodejs/lancedb/arrow.ts:542-549 | a field that `containsBlobField` denies has no blob position in any value, so skipping it is sound |
| `BlobTraversal.MapSucceeds` | nodejs/lancedb/arrow.ts:607-639 | the traversal throws exactly when the visitor throws at some blob position |
| `BlobTraversal.MapIsMap` | nodejs/lancedb/arrow.ts:607-639 | the blob positions of the result are the visitor's answers for the blob positions of the value, in order |
| `BlobTraversal.MapFieldsIsMap` | nodejs/lancedb/arrow.ts:579-605 | the same for the fields of a record |
| `BlobTraversal.MapKeepsTheRest` | nodejs/lancedb/arrow.ts:607-639 | away from blob positions nothing changes |
| `BlobTraversal.NothingToDo` | nodejs/lancedb/arrow.ts:607-639 | where the visitor hands everything back, so does the traversal |
| `BlobConversion.ConvertsExactly` | nodejs/lancedb/arrow.ts:712-807 | what the mapping made of a value is converted against the inferred field exactly when lists are lists and every blob value survives the widening |
| `BlobConversion.ConversionDelivers` | nodejs/lancedb/arrow.ts:712-807 | reading back what was shredded gives, at every blob position, exactly the columns of its storage, or of the blob where the storage is not a struct, each with the bytes, text or integer of the input that was given there |
| `BlobConversion.CompleteExactly` | nodejs/lancedb/arrow.ts:712-807 | so every column a blob fills is read back and not null, at all positions through structs and lists, if and only if struct storage has the column that holds the blob |
| `BlobPipeline.MappingSucceeds` | nodejs/lancedb/arrow.ts:457-488 | the first pass throws exactly when some blob value does not coerce |
| `BlobPipeline.RestrictIsKept` | nodejs/lancedb/schema.ts:419-441 | the restricted schema has exactly the fields that were seen, narrowed only if they are structs seen from inside |
| `BlobPipeline.BlobKeptWhole` | nodejs/lancedb/schema.ts:419-441 | inference leaves the storage of a blob that is not null whole |
| `BlobPipeline.InferenceOffers` | nodejs/lancedb/arrow.ts:507-520 | what inference leaves of a field lost nothing that a row needs, at any depth of structs |
| `BlobPipeline.AcceptedCarries` | nodejs/lancedb/schema.ts:104-132 | where inference accepts the columns of a widened blob, its storage can take the value |
| `BlobPipeline.CarriedIsAccepted` | nodejs/lancedb/schema.ts:104-132 | blobs whose storage takes them are no obstacle to inference |
| `BlobPipeline.PipelineSucceeds` | nodejs/lancedb/arrow.ts:441-520 | after the mapping, inference, the check of the fields and all columns succeed if and only if every blob value is carried (its storage is a struct of blob columns with the one it fills, data and uri if there are two, and no struct among the columns it fills) and what is not a blob is in order |
| `BlobPipeline.ValidBlobFieldExactly` | nodejs/lancedb/arrow.ts:522-549 | a field passes the check if and only if no blob field is anywhere under a fixed-size list |
| `BlobPipeline.PipelineDelivers` | nodejs/lancedb/arrow.ts:515-520 | in a finished table every blob position, through structs and lists, has exactly the columns of its storage, or of the blob where the storage is not a struct, each with the bytes, text or integer of the input that was given there; a null blob is null, or absent where inference saw nothing |
| `BlobPipeline.NothingIsLostExactly` | nodejs/lancedb/arrow.ts:515-520 | a finished table has, for a field of a row, every column its blobs fill if and only if struct storage has the column that holds each of them; a field with no list of blobs always does |
| `BlobPipeline.DeclaredStorageTakes` | nodejs/lancedb/blob.ts:135-171 | the storage that `blob()` declares is a blob field and takes every value |
| `BlobPipeline.WideningCanLoseTheSource` | nodejs/lancedb/arrow.ts:463-481 | a blob column with uri, position and size and a row with bytes: the bytes coerce and no table can be made |
| `BlobPipeline.TwoColumnsCanLoseTheSource` | nodejs/lancedb/arrow.ts:463-481 | the same with uri and size, where inference refuses the row |
| `BlobPipeline.ListsCanDropTheSource` | nodejs/lancedb/arrow.ts:767-807 | of a value that is accepted inside a list, the source is missing from what is stored if and only if its storage lacks that column; such storage has two columns and would be refused outside a list |
| `BlobPipeline.ListDropsTheBytes` | nodejs/lancedb/arrow.ts:767-807 | a row for which a table is made that does not have the bytes |
| `BlobReading.CollectFields` | nodejs/lancedb/arrow.ts:579-605 | the first traversal, over the objects of a row, starts the reads of all blob positions in order |
| `BlobReading.CollectField` | nodejs/lancedb/arrow.ts:607-639 | the same below one field, through structs and lists |
| `BlobReading.GatherReadsOnce` | nodejs/lancedb/arrow.ts:646-667 | each distinct handle is read exactly once |
| `BlobReading.EveryLookupHits` | nodejs/lancedb/arrow.ts:668-681 | once every handle has its bytes, no lookup of the second traversal misses |
| `BlobReading.FetchRef` | nodejs/lancedb/blob.ts:377-389 | a value with a handle becomes its bytes, or a new object with the bytes and the same other references, as `BlobReading.MapResolves` says of the values; any other value is itself |
| `BlobReading.MapFieldsRef` | nodejs/lancedb/arrow.ts:579-605 | the same object comes back if nothing in it changes, otherwise a new plain one in which unchanged names keep their references; no object that was there is written to |
| `BlobReading.MapFieldRef` | nodejs/lancedb/arrow.ts:607-639 | the same below one field |
| `BlobReading.MapItemsRef` | nodejs/lancedb/arrow.ts:617-638 | the same for a list |
| `BlobReading.MapOneField` | nodejs/lancedb/arrow.ts:587-603 | one turn: the copy is made at the first change and is the only object written to |
| `BlobReading.MapOneItem` | nodejs/lancedb/arrow.ts:620-636 | one turn for an item of a list |
| `BlobReading.ResolveBlobInputs` | nodejs/lancedb/arrow.ts:646-681 | every distinct handle is read once; in each row the contents of each handle stand in its place, bare or under `data`, other properties and everything away from blob positions read as before; a row without handles is the same object, and no object of the caller has changed |
| `BlobReading.ResolvedRows` | nodejs/lancedb/arrow.ts:646-681 | after the second traversal no blob position of a row holds an unread handle and everything else is as before |
| `BlobReading.MapResolves` | nodejs/lancedb/arrow.ts:607-639 | at every blob position under a field the contents of the handle stand in its place, and everything else is as before |
| `BlobReading.FetchedHasNoHandle` | nodejs/lancedb/blob.ts:363-389 | putting bytes in place of a handle leaves none to read |
| `BlobBytesQuery.StepKeepsInv` | nodejs/lancedb/query.ts:422-450 | every step of every client, commits included, keeps the invariant of all queries under way |
| `BlobBytesQuery.RowsAndBytesAgree` | nodejs/lancedb/query.ts:422-450 | in every interleaving a result with bytes pairs rows and bytes of one version that the table had during the call; a result without bytes comes after a version of the call without blob columns; the error needs a rise of at least three versions |
| `BlobBytesQuery.DescriptorsWithoutBytes` | nodejs/lancedb/query.ts:432-438 | a run in which a call returns rows of a version with blob columns and no bytes |
| `BlobBytesQuery.BytesAreMissedExactly` | nodejs/lancedb/query.ts:432-438 | this can happen if and only if, within the call, a version without blob columns comes before one with them |
| `BlobBytesQuery.PlainResults` | nodejs/lancedb/query.ts:436-438 | which rows can come back without bytes: exactly those at or after a version without blob columns |
| `BlobBytesQuery.SteadyColumnsAreSafe` | nodejs/lancedb/query.ts:422-450 | while commits neither add nor drop blob columns, a result has bytes exactly if its rows have blobs |
| `BlobBytesQuery.AtMostThreeAttempts` | nodejs/lancedb/query.ts:422-450 | at most three attempts, and exactly three on failure |
| `BlobBytesQuery.QuietAttemptSucceeds` | nodejs/lancedb/query.ts:422-450 | an attempt during which nobody commits is the last one and does not fail |
| `BlobBytesQuery.ThreeCommitsCanFail` | nodejs/lancedb/query.ts:67 | three commits suffice to fail, so the bound of three is tight |
| `BlobBytesQuery.ToArrow` | nodejs/lancedb/query.ts:422-450 | the loop stops in the first attempt that has no blobs or an unchanged version, and fails only after the third, three versions later; its turns are the snapshot, collect and recheck steps of a run of the system |
| `BlobBytesTable.WithBinaryColumns` | nodejs/lancedb/query.ts:122-154 | replaced columns hold the given values, others are as before, and batch sizes do not change |
| `BlobBytesTable.SlicesMakeUp` | nodejs/lancedb/query.ts:134-149 | the slices taken by the running offset concatenate to the fetched list |
| `BlobBytesTable.ReadBlobBytes` | nodejs/lancedb/query.ts:80-118 | row k of each blob column holds the bytes fetched for the k-th row id for every split into batches; rows without row ids are refused |
| `BlobBytesTable.FetchAll` | nodejs/lancedb/query.ts:94-108 | exactly the columns named as sources are replaced, by what was fetched for their source |
| `BlobBytesTable.DroppedRowIds` | nodejs/lancedb/query.ts:110-117 | dropping the row ids leaves every other column, with its name |
| `AutoQuery.StepKeepsInv` | nodejs/lancedb/query.ts:1030-1069 | every step of every execution, schema change and settling promise keeps the cache invariant |
| `AutoQuery.RouteIsPinned` | nodejs/lancedb/query.ts:1032-1047 | an execution stays on the metadata it saw in its snapshot, whatever changes later |
| `AutoQuery.VectorMatchesSnapshot` | nodejs/lancedb/query.ts:1041-1069 | in every interleaving a vector query runs on a snapshot whose embedding metadata is the metadata its vector was computed for |
| `AutoQuery.EndsExactly` | nodejs/lancedb/query.ts:1057-1068 | in every run an execution has thrown if and only if it resumed after the preparation it awaited was rejected, and runs a vector query with exactly that vector if and only if it resumed after that preparation was ready, whatever is cached by then |
| `AutoQuery.RoutedForGood` | nodejs/lancedb/query.ts:1041-1047 | past its routing an execution is a full-text query if and only if its snapshot had no metadata |
| `AutoQuery.EvictedOnlyByItsOwn` | nodejs/lancedb/query.ts:1049-1065 | in every run a preparation leaves the cache only by the failure of an execution that awaits it, or for one of other metadata |
| `AutoQuery.EvictedForGood` | nodejs/lancedb/query.ts:1049-1065 | a preparation that left the cache never comes back |
| `AutoQuery.RemadeOnlyAfterEviction` | nodejs/lancedb/query.ts:1049-1056 | metadata with a cached preparation gets another one only after that was evicted |
| `AutoQuery.SettledCacheIsGood` | nodejs/lancedb/query.ts:1041-1069 | once no execution is under way no failed preparation is cached |
| `AutoQuery.OnePreparationWhileQuiet` | nodejs/lancedb/query.ts:1049-1056 | while the metadata stays and nothing fails, all executions share one preparation |
| `ScanProtocol.StepKeepsInv` | nodejs/src/scannable.rs:112-201 | scans, pulls and dropped streams in any order keep the invariant that ties the stream to the closure |
| `ScanProtocol.EveryScanStartsAtZero` | nodejs/src/scannable.rs:112-180 | however earlier scans ended, a stream hands out the batches of its own factory call from batch 0, all of them once it ends, and at most one error, last |
| `ScanProtocol.RescansRepeat` | nodejs/lancedb/scannable.ts:95-111 | with a repeatable factory every finished scan of a rescannable source yields the same |
| `ScanProtocol.OneShotStartsOnce` | nodejs/src/scannable.rs:112-127 | a source that cannot be rescanned sees `isStart` at most once and calls its factory at most once |
| `ScanProtocol.LaterScansAreRefused` | nodejs/src/scannable.rs:112-127 | in every run, from a second scan of such a source on, every stream yields one error and ends, and nothing calls into JavaScript |
| `ScanInterleaving.SafeExactlyAlone` | nodejs/lancedb/scannable.ts:95-111 | with several streams over one closure, a schedule of pulls gives a stream the first batches of its own factory call, and all of them once it has ended, for every factory, if and only if no other stream is pulled between two of its pulls |
| `ScanInterleaving.SafeExactlyInPlace` | nodejs/lancedb/scannable.ts:95-111 | the same over all factories that give the same batches in every call, for each number of batches, if and only if at each pull of the stream the iterator stands where the stream is |
| `ScanInterleaving.InPlaceButNotAlone` | nodejs/lancedb/scannable.ts:95-111 | a schedule that is safe over all such factories and not over all factories |
| `ScanInterleaving.StolenBatch` | nodejs/lancedb/scannable.ts:95-111 | two streams in turn over a repeatable source: the second misses a batch |
| `ScanProtocol.JsSource.Pull` | nodejs/lancedb/scannable.ts:95-111 | the closure over `iter` moves as the pure step does |
| `ScanProtocol.RustStream.PollNext` | nodejs/src/scannable.rs:128-201 | one turn of the unfold, over `is_first_pull`, `errored` and `batch_index` |
| `ScanProtocol.NapiScannable.ScanAsStream` | nodejs/src/scannable.rs:112-180 | starting a scan is the scan step of the protocol |
| `Sanitize.UnfoldIsPlain` | nodejs/lancedb/sanitize.ts:496-531 | every object made with the caches unfolds to the plain recursive rebuild of the foreign object it came from |
| `Sanitize.RebuiltOnce` | nodejs/lancedb/sanitize.ts:140-152 | each distinct foreign type, data node and dictionary vector is rebuilt once |
| `Sanitize.SharingIsKept` | nodejs/lancedb/sanitize.ts:140-152 | two places of the result that refer to one object come from one foreign object, whatever its kind; the other way round holds for types, data nodes, dictionary vectors and objects passed through (a shared field or schema is rebuilt at each place) |
| `Sanitize.OwnIsHandedBack` | nodejs/lancedb/sanitize.ts:91-103 | a field, data node, schema, batch or table of this copy of the library is handed back; everything else is rebuilt, types and vectors always |
| `Sanitize.PlainFailsExactly` | nodejs/lancedb/sanitize.ts:669-815 | the rebuild throws if and only if an object that has to be rebuilt, at or under the given one, fails its checks |
| `Sanitize.MadeKeepsInv` | nodejs/lancedb/sanitize.ts:817-861 | making one object from rebuilt children keeps the invariant |
| `Sanitize.Sanitizer.Make` | nodejs/lancedb/sanitize.ts:140-152 | a new object is put in the cache of its kind and nothing else changes |
| `Sanitize.Sanitizer.Rebuild` | nodejs/lancedb/sanitize.ts:496-531 | the memoised rebuild succeeds exactly when the plain one does, and its result stands for the object |
| `Sanitize.Sanitizer.RebuildChildren` | nodejs/lancedb/sanitize.ts:669-710 | the children are rebuilt in order, and an object never enters a cache while its children are rebuilt |
| `Sanitize.SanitizeTable` | nodejs/lancedb/sanitize.ts:753-861 | the sanitized table is structurally the plain rebuild of the table; it fails exactly when an object to be rebuilt is not valid; data nodes that share a dictionary vector refer to one rebuilt vector |
| `Snippets.ParseSnippets` | docs/web-tests/mdx_snippets_gen.py:60-93 | succeeds exactly on properly nested markers with equal names at both ends, and stores for exactly the ended names the lines strictly between the last-closed pair |
| `Snippets.MatchedIsNested` | docs/web-tests/mdx_snippets_gen.py:63-91 | the stack discipline accepts exactly the nested files |
| `Snippets.NestedKeepsStack` | docs/web-tests/mdx_snippets_gen.py:66-87 | nested lines leave the stack as it was |
| `Snippets.PartnerIsUnique` | docs/web-tests/mdx_snippets_gen.py:73-86 | an end marker has one partner |
| `SemVer.LessIsPrecedence` | ci/check_lance_release.py:39-66 | `__lt__` is precedence as section 11 of Semantic Versioning 2.0.0 words it |
| `SemVer.Trichotomy` | ci/check_lance_release.py:39-76 | of two versions exactly one is less, or they are equal |
| `SemVer.Transitive` | ci/check_lance_release.py:39-66 | `__lt__` is transitive |
| `SemVer.DetermineLatestTag` | ci/check_lance_release.py:171-174 | the greatest stable version if there is one, else the greatest of all, and the first tag that has it; nothing for no tags |
| `SqlLiterals.ReadAfterPrint` | nodejs/lancedb/util.ts:14-44 | a literal reader gets the value back from its literal, to any depth, and stops where the literal ends; a date reads as text |
| `SqlLiterals.LiteralsAreUnambiguous` | nodejs/lancedb/util.ts:14-44 | two values have the same literal exactly when they differ at most in dates versus their text |
| `SqlLiterals.PrintSucceeds` | nodejs/lancedb/util.ts:14-44 | `toSQL` throws exactly when an unsupported value is somewhere inside |
| `SqlLiterals.OnlyDatesChange` | nodejs/lancedb/util.ts:32-33 | a value is read back as itself exactly when it holds no date |

## Left out

- Arrow library internals: building leaf vectors, IPC encoding and the comparison of primitive types are abstract.
- A leaf column is the list of its values; the 32-bit width of list offsets is not modelled.
- JavaScript property order within a row, prototype chains and symbols: a row is a map, and which leaf of a row comes first is left open.
- `BlobReading.ResolveBlobInputs`: rows are taken not to change while reads are under way, and a read that fails, which ends the call, is not modelled.
- `BlobPipeline`, `BlobReading.ResolvedRows`, the resolved rows of `BlobReading.ResolveBlobInputs`, `BlobBytesTable.ReadBlobBytes` and the schema-guided theorems ask for distinct sibling names.
- `BlobPipeline`: the first pass over the rows is modelled on values, not on objects; embeddings and the case of no rows at all are not part of it.
- `ScanProtocol`: `decode_one_batch` is a pass-or-fail choice per batch. `ScanInterleaving` has only streams of a rescannable source.
- `ScanInterleaving.SafeExactlyInPlace`: does not cover repeating sources with a batch that fails; for those `SafeExactlyAlone` gives a sufficient condition.
- `AutoQuery`: the recorded `calls` that are replayed on the inner query are not modelled.
- `BlobBytesQuery`: the projection handled by `blobSources` is reduced to whether a version has blob columns in the result.
- `Sanitize`: the attributes of an object are one payload and one validity flag, so the per-type checks (bit widths, units, precision) are not modelled; only the traversal, the caches and the sharing are.
- `SqlLiterals`: the digits of a finite number and the text of a date are given; SQL engines are not modelled.
- `SemVer`: the regular expression that parses a version is not modelled; a version is its parsed parts.
- `Snippets`: a line is a start marker, an end marker or text; `dedent` and the module writer are not modelled.
- `packBits`, `TTLCache`, `fromIterable`, `isOneShotIterable` and `OAuthHeaderProvider` are not modelled.
- Embedding functions, rerankers, telemetry, native bindings, connection and catalog APIs: calls into code that is not part of this model.
- The Python client.
