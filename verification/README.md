# erjet and the write pipeline, verified

This project models two connected parts of the repository in Dafny and proves what they
promise.

**The relational store (`adapter/erjet`).** An entity is a row of a main table plus cells whose
values live elsewhere: keyed side tables, ordered child tables (of objects or of scalars, plain
or partitioned by a key, with side tables nested under the elements) and relation lists. A save
is a partial update in one transaction with two write phases, a grouped write of the side
tables, and a reported diff.

- `Values` and `Columns` hold the wire and SQL values and the declaration of cells and tables;
  `SideTables`, `ChildTables`, `ChildLists`, `RelsTables`, `Database`, `StoreSpec` say what the
  statements and the algorithms mean, as functions of the tables.
- `Transaction` is the open transaction: a class whose methods are the statements the store
  sends. Each of them may be failed by the driver (`faults`), and each keeps the foreign keys of
  nested rows. `KeyedSave`, `ChildSave`, `ListSave`, `CellStore`, `RowReads`, `Stores` and
  `Store` are the loops of the source over those statements; every method is proved to leave
  exactly the state its specification function gives, or to fail with the failure it gives.
- `KeyedLaws`, `GroupLaws`, `ChildLaws`, `ChildTheorems`, `ChildAcceptance`, `ListLaws`,
  `CellLaws`, `PlanLaws`, `StoreLaws`, `UpdateTruth`, `CellReports`, `CreateReport`, `SaveBack`,
  `Replacement`, `Refusals`, `Runs`, `Reachable` and `Witnesses` hold the theorems.
- `Selections`, `SaveEffects`, `RowEffects`, `CreateTruth`, `DeleteLaws`, `Anchors` and `Acceptance`
  say when a save, a create or a delete is accepted and what every field then reads as, told from the
  state before and the payload rather than from the steps.

**Validation of the effective state (`validate`, `handler.go`).** `Effective` proves that the
overlay an update is validated against is what a read gives after the save. `UploadSchema`,
`SchemaLaws` and `SchemaPaths` treat the widening of an array schema for pending uploads;
`Markers` and `PendingUploads` the stand-ins for those uploads, `FieldDocuments` the document each
field is judged in, `SchemaWitnesses` two schemas that go wrong; `Pointers` treats the escaping of
JSON pointers and `References` what a reference means by the standards; `FieldRules` and `Requests`
the request pipeline from the read-only cut to Save.
`Numbers` and `Cells` treat scalar cells and JSON numbers.

How the state is modelled:

- A table is a map from primary key to row; a row is a map of its non-null columns. `ORDER BY`
  is the one ascending listing of a finite set under a strict total order (`Ordering`); the
  collation of an id column is any such order.
- A scalar cell is one `parse`, giving the stored value and its echo, the server's `admit`, giving
  the image the column stores or its refusal, and one `decode` of that image. No law ties the three
  together: where a theorem turns on it (is the report what a read gives, does a list read as it
  was sent), the condition is on the sent values and stands in the theorem.
- A relation table casts its targets to their type, an idempotent partial map of texts, and its
  target columns may carry foreign keys. A deferred column casts what its resolver gave.
- The class `Store` remembers where it began and the calls since; every method leaves the state of
  that run, so the theorems over runs hold of it.
- Generated ids come from an injective source that never yields a taken id; the store relies on
  that and does not check it.
- The rendering by which the diff compares values is an arbitrary function, not assumed
  injective.
- A declaration is taken to declare a side table the same way for all cells over it, where acceptance
  is stated.
- A clear policy fits a cell when it is used as documented: a cell that clears by deleting rows has
  its side table to itself, and what is cleared reads as empty.
- A `$ref` in a schema means what the standards say, defined apart from the code (`References`): the
  fragment is percent-decoded (RFC 3986 section 2.1, RFC 6901 section 6, UTF-8 as in RFC 3629) and
  the JSON Pointer in it evaluated over objects and arrays (RFC 6901 sections 3 and 4).
- JSON Schema validity is defined for the keywords the widening touches (`$ref`, `allOf`,
  `items`, `minItems`, `maxItems`, `uniqueItems`: JSON Schema 2020-12 Core sections 8.2.3.1,
  10.2.1.1 and 10.3.1.2, Validation sections 6.4.1 to 6.4.3). Item schemas are judged by an arbitrary
  rule of which only this is asked: an object with `anyOf` alone takes what one of its branches takes
  (Core section 10.2.1.2), and one with `enum` alone the values listed (Validation section 6.1.2).
  All other keywords are arbitrary rules.

## What the code does that its documentation does not say

- A numeric cell echoes a negative zero that the next read gives as zero (`Cells.NumEcho`), so a
  save of `-0` over a zero reports a change and leaves the zero
  (`CellReports.NegativeZeroReported`).
- A relation list echoes the ids as they were sent, and the next read gives the images of the cast:
  the two agree exactly when every kept id is its own image. Ids that are the same value of the
  target type (an upper-case uuid beside its lower-case form, "7" beside "007" on a bigint) pass the
  removal of duplicates and are stored twice (`RelsTables.ReplaceRelsReadsBack`,
  `Reachable.CellSaveClean`). A list that holds an id twice cannot be saved back as it was read
  (`SaveBack.RelsCellBack`).
- A deferred column is reported as its resolver spelled the uuid, which is what a read gives only
  when the server shows it in that form (`UpdateTruth.DeferredTruth`).
- An integer column holding 2^53 + 1 is accepted back as it was read and silently becomes 2^53;
  anything larger is not accepted at all (`Numbers.RereadInteger`).
- A row whose NOT NULL column was cleared to the empty text cannot be saved back next to a filled
  neighbour, because the read leaves the empty text out (`Witnesses.ClearedBlocksSaveBack`, and
  `KeyedLaws.SaveBackGroup` for the exact condition).
- With `ClearSet` of a non-empty text, a grouped save reads differently from saving cell by cell if
  and only if some cell clears, to such a text, a key that has no row yet and that an earlier cell
  of the save sets (`KeyedLaws.GroupedExactly`; `Witnesses.ClearTextDiffers` is the smallest case).
- On a list field that takes several files, a submitted value that is neither null nor a list is
  validated and then dropped when the files are appended (`Requests.ValidatedIsSaved`).
- A reference in an upload schema is read without percent-decoding and without array indices. With
  "#/$defs/a%25b" the widening takes the limits of the key `a%25b` where the schema means `a%b`
  (`References.PercentWitness`, `SchemaWitnesses.WrongLimit`), or refuses a valid reference as
  missing; "#/allOf/0" is refused as invalid (`References.IndexWitness`). A reference is read as the
  standards have it in every document without arrays on its path if and only if it holds no percent
  sign and every "~" in it escapes (`References.CleanExactly`).
- The schema widened for one field replaces the declared one in the shared document. A field without
  files that is declared by a reference to it then takes forged markers, which its own schema may
  refuse (`SchemaWitnesses.NeighbourTakesMarker`). Every field from which no reference leads into a
  field with uploads is judged as declared (`FieldDocuments.JudgedAsDeclared`,
  `FieldDocuments.ListJudgedAsDeclared`).
- A create lists a field twice when its hook reports a field the second phase reports too
  (`CreateReport.CreateReportsOnce`, met by `CreateReport.HookReportsTwice`).
- The satellites of one child element are saved one by one, not grouped, so an element that sets a
  nested column next to another NOT NULL column of its side table is refused, whatever else it sends
  (`ChildAcceptance.NestedNeighbourRefuses`; `ChildAcceptance.WriteRowsAccepted` says exactly when a
  list of elements is accepted).

## Model

| member | source | states |
|---|---|---|
| ChildLaws.GarbageIsInvisible | adapter/erjet/child.go:671-708 | elements that are not objects use up neither an id nor a position: a list writes exactly what its objects alone write |
| ChildLaws.ResolveSound | adapter/erjet/child.go:746-772 | the first element to name an own id keeps it, every other one gets a distinct id never issued before, or none when the server draws it |
| ChildLaws.LoopLands | adapter/erjet/child.go:680-706 | after the upsert loop each element has its own row at its own position, and every other row is as it was |
| ChildLaws.LoopNested | adapter/erjet/child.go:694-704 | where clear policies fit, row deletion included, the nested maps of each written element are its own old maps overlaid with what it sent |
| ChildTheorems.SaveReadsBack | adapter/erjet/child.go:633-772 | reading a block after saving any list gives exactly its object elements in order: own ids kept on first occurrence, fresh distinct ids elsewhere, a sent and parsed field as the server's image of it reads, other fields as stored, positions 1..n |
| ChildTheorems.OthersUntouched | adapter/erjet/child.go:796-876 | whatever ids the payload carries, a row of another parent or partition, and its nested rows, stay identical |
| ChildTheorems.DroppedAreGone | adapter/erjet/child.go:776-792 | a row of the block that no element landed in is gone with all its nested rows, and nothing appears outside the block |
| ChildTheorems.OtherPartitionsRead | adapter/erjet/child.go:85-91 | every other parent or partition reads as before |
| ChildTheorems.NewRowsHoldOnlyTheSent | adapter/erjet/child.go:694-704 | after the save an element that names no row of its own block reads as what it sent and nothing else, whatever ids and nested rows the tables held before |
| ChildTheorems.WriteRowsEvolves | adapter/erjet/child.go:796-876 | no save re-parents a row or moves it to another partition, and every new id comes from the generator |
| ChildTheorems.WriteRowsKeepsKeys | adapter/erjet/child.go:660-708 | nested foreign keys hold after a save, and the only refusals are a NOT NULL column of a nested table and the server's refusal of a value some element sends for a column: the order of the steps never violates a key, and no submitted id is a reason |
| ChildTheorems.SaveBackRows | adapter/erjet/child.go:633-772 | where every value read is taken back as it was, saving back the list that was read keeps every child id, its order and every value, legacy positions included |
| ChildAcceptance.NestedSavesAccepted | adapter/erjet/child.go:698-703 | the sent satellites of one element go through, in any order, if and only if each fits on its own: what it sets needs its column to be the only NOT NULL one, what it nulls must not be a NOT NULL column of a row that is there |
| ChildAcceptance.NestedNeighbourRefuses | adapter/erjet/child.go:698-703 | an element that sets a nested column next to another NOT NULL column is refused, whatever else it sends and whatever the clear policies |
| ChildAcceptance.WriteRowsAccepted | adapter/erjet/child.go:671-708 | a list of elements is accepted if and only if each of its objects fits, told from the payload and the rows before the save; ids matter only in deciding which elements keep their rows |
| ChildTables.DeleteKeepsKeys | adapter/erjet/child.go:776-792 | the scoped DELETE with its cascade leaves no nested row without its element |
| ListLaws.ReplaceReadsBack | adapter/erjet/child.go:318-341 | a list of scalars is accepted if and only if the server takes each element the cell parses; it then reads back as their images, in order, duplicates kept, positions 1..n |
| ListLaws.ReplaceFramed | adapter/erjet/child.go:318-341 | replacing one list leaves every row outside its scope, with its nested rows |
| ListLaws.WritePartsLaw | adapter/erjet/child.go:222-263 | a keyed save numbers every partition it names, leaves the partitions it does not name and all other parents, and keeps nested keys; it is refused by NOT NULL or for a value of some submitted partition |
| ListLaws.KeyedValuesReadBack | adapter/erjet/child.go:238-261 | each submitted partition of scalars reads back as the images of its own parsed list |
| ListLaws.KeyedValuesAccepted | adapter/erjet/child.go:238-261 | a keyed list of scalars is accepted if and only if the server takes every parsed element of every partition with a non-empty key |
| ListLaws.SaveListLaw | adapter/erjet/child.go:423-506 | every list save keeps owners, nested keys and numbered partitions, numbers what it writes, leaves other parents, and is refused by NOT NULL or for a value the server does not take |
| ListLaws.SaveBackPartition | adapter/erjet/child.go:266-341 | writing back one list as read changes no read and keeps the ids of object elements |
| ListLaws.SaveBackParts | adapter/erjet/child.go:474-506 | the same for a keyed list, partition after partition |
| ListLaws.SplitAgrees | adapter/erjet/child.go:93-112 | picking one key out of the ordered listing of all partitions gives the ordered listing of that partition, NULL positions included |
| ListSave.LoadKeyed | adapter/erjet/child.go:602-629 | one query over all partitions, split by key in a loop, gives for every non-empty key with rows the list that reading it alone gives |
| ListSave.LoadPartition | adapter/erjet/child.go:578-598 | the read loop gives the elements of one partition in order |
| ChildTables.SelectOrdered | adapter/erjet/child.go:93-112 | elements are read by position, those without one last, and equal positions by id as the database collates it |
| ListSave.ReplaceList | adapter/erjet/child.go:318-341 | DELETE and the INSERT loop leave the state of the replacement specification, or fail as it does |
| ListSave.SaveParts | adapter/erjet/child.go:238-261 | the loop over the sorted keys of a keyed payload leaves the state of the keyed specification |
| ChildSave.OwnedIds | adapter/erjet/child.go:719-740 | the ownership snapshot is the non-empty ids of the scope |
| ChildSave.ResolveIds | adapter/erjet/child.go:746-772 | the loop with its used map computes the resolved ids and draws as many generated ids |
| ChildSave.SaveSatellites | adapter/erjet/child.go:698-703 | the sent satellites of an element are saved in declared order, each on its own |
| ChildSave.SaveElements | adapter/erjet/child.go:683-706 | the write loop, with its own position counter, leaves the state of the loop specification |
| ChildSave.SaveRows | adapter/erjet/child.go:671-708 | snapshot, resolution, DELETE and upserts in the source's order leave the state of the reconciliation specification, or fail as it does |
| RelsTables.IdSliceFirsts | adapter/erjet/rels.go:170-200 | the ids kept of a list are ordered by first occurrence |
| RelsTables.IdSliceMembers | adapter/erjet/rels.go:170-200 | they are exactly the non-empty strings of the list |
| RelsTables.ReplaceRelsAccepted | adapter/erjet/rels.go:131-152 | a replaced list is accepted if and only if every id has an image of the target type that its foreign key allows; otherwise the error is 22P02 or 23503, and some id is the reason |
| RelsTables.ReplaceRelsReadsBack | adapter/erjet/rels.go:88-152 | a replaced list reads back as the images of its ids under the cast, in order: as sent exactly when every id is its own image, without repeats exactly when no two ids have the same image |
| RelsTables.OtherRelsRead | adapter/erjet/rels.go:131-152 | lists of other parents and other paths read as before |
| RelsTables.SelectRelsOrdered | adapter/erjet/rels.go:88-129 | relations are read by position, those without one last, and equal positions by serial id |
| CellStore.ParseIds | adapter/erjet/rels.go:170-200 | the loop with its seen map computes the first occurrences |
| CellStore.ReplaceIds | adapter/erjet/rels.go:131-152 | DELETE and the INSERT loop, each id cast and checked against its foreign key, leave the replaced list, or fail as the specification does |
| CellStore.ResolveEach | adapter/erjet/deferred_list.go:33-46 | the loop of a resolved list keeps, in order, exactly the elements whose result is not nil, each as its resolver gave it, and stops with the error of the first element whose resolver fails |
| Selections.ResolveAllResolves | adapter/erjet/deferred_list.go:33-46 | so does the specification of resolving: rising positions of the payload, hit exactly where the result is not nil, or the first failure |
| Selections.ReadsParsed | adapter/erjet/child.go:318-341 | a scalar list keeps, in order, exactly the elements its cell parses, as they read once stored |
| Selections.ObjectsSelected | adapter/erjet/child.go:676-682 | a list of objects keeps, in order, exactly the elements that are objects |
| Selections.IdSliceIsFirsts | adapter/erjet/rels.go:170-200 | a relation list keeps, in order, exactly the elements that are non-empty texts not met before |
| CellStore.SaveCell | adapter/erjet/deferred_list.go:29-51 | every save closure leaves the state and the echo of its specification, or fails as it does; relation ids go through the cast and the target key |
| Replacement.ListReadsBack | adapter/erjet/deferred_list.go:29-51 | a list cell reads back, element by element, as what was sent: the elements its cell parses as their images, ids by first occurrence as theirs, and through resolvers that of the resolved elements, nil results left out, however deep they are nested |
| Replacement.ResolverOutcome | adapter/erjet/deferred_list.go:29-51 | behind a resolver a list is saved exactly as the resolved elements are, and refused with the first error of the resolver |
| Replacement.ReplacedTwice | adapter/erjet/child.go:318-341 | replacing with the same list twice reads as once |
| KeyedLaws.KeyRowText | adapter/erjet/satellite.go:264-293 | for a key whose row no clear deletes: the clears and the one upsert succeed exactly when no clear hits a NOT NULL column of an existing row and the upsert carries every NOT NULL column; each column then holds what its own cell sent, what its policy writes for a clear, or what it held |
| KeyedLaws.GroupedExactly | adapter/erjet/satellite.go:219-296 | for any clear that updates: whenever the cells go through one at a time they go through grouped, and both forms read alike if and only if no cell clears to a non-empty text a key without a row that an earlier cell sets |
| KeyedLaws.GroupedAgrees | adapter/erjet/satellite.go:219-296 | where what the cells clear is empty afterwards and no row is deleted: whenever saving the cells one at a time succeeds, the grouped save succeeds and every column of every parent reads the same |
| KeyedLaws.WriteManyReads | adapter/erjet/satellite.go:250-296 | a cell of a group that erases what it clears reads as its old map overlaid with the non-empty strings sent, minus the cleared keys; one that deletes rows has to be alone in the group |
| KeyedLaws.WriteManyErrors | adapter/erjet/satellite.go:232-249 | with its parent row present a grouped save is refused by NOT NULL only |
| KeyedLaws.SaveBackGroup | adapter/erjet/satellite.go:176-296 | whatever the clear policies, saving back what was read changes no map, and is accepted exactly when every key that reads as set reads as set in every NOT NULL column |
| KeyedSave.Split | adapter/erjet/satellite.go:264-284 | the inner loop splits the writes of a key into those that set it and those that clear it |
| KeyedSave.ClearKeys | adapter/erjet/satellite.go:338-348 | the clear statements of a key leave the cleared row, or fail |
| KeyedSave.CollectKeys | adapter/erjet/satellite.go:251-262 | the keys of all patches together, sorted |
| KeyedSave.SaveMany | adapter/erjet/satellite.go:250-296 | the loop over sorted keys, clears before the upsert, leaves the state of the grouped specification, or fails as it does |
| Witnesses.OneAtATimeRefuses | adapter/erjet/satellite.go:219-249 | saved on its own no cell can set a column of a table with another NOT NULL column |
| Witnesses.GroupedFillsRow | adapter/erjet/satellite.go:232-249 | the grouped save writes such a row when its cells fill every NOT NULL column |
| Witnesses.ClearTextDiffers | adapter/erjet/satellite.go:54-62 | over an empty table, a cell that sets a key and a later one that clears it to any non-empty text make the two forms read differently |
| Witnesses.DeleteRowTakesNeighbours | adapter/erjet/satellite.go:60-65 | clearing by row deletion takes every column of that key |
| Witnesses.ClearedBlocksSaveBack | adapter/erjet/satellite.go:200-210 | a NOT NULL column that reads as empty makes saving back a filled neighbour fail |
| GroupLaws.WriteGroupsSound | adapter/erjet/satellite.go:125-161 | every side table of a save is written by one grouped write against its state before the save, and no other table changes |
| GroupLaws.GroupsOverlay | adapter/erjet/satellite.go:125-161 | a grouped cell that erases what it clears, row deletion included where the table is its own, reads as its old map overlaid with its own patch, whatever its neighbours send |
| GroupLaws.GroupsIsolated | adapter/erjet/satellite.go:125-161 | storage no grouped cell touches reads as before, and so does all storage of other parents, whatever the clear policies |
| Stores.GroupCells | adapter/erjet/satellite.go:125-149 | the loop groups the payload maps by side table, in order of first appearance, and marks their names as handled |
| Stores.SaveGroups | adapter/erjet/satellite.go:125-161 | the groups leave the state of the specification, or fail as it does |
| CellLaws.CellSaveLaw | adapter/erjet/child.go:423-466 | every save closure leaves all storage its cell does not touch and every other parent as it was; a nil echo means nothing was written, and any other echo is what a read then gives if and only if the sent value is honest: always, except for relation ids that are not their own images |
| PlanLaws.ExactlyOnePhase | adapter/erjet/table.go:242-298 | every sent writable field goes to exactly one of the two write phases, nothing else to either |
| PlanLaws.PlanNames | adapter/erjet/table.go:242-272 | the first phase reports each field once, and a field if and only if it was sent, belongs to the first phase and parses |
| PlanLaws.PlanAt | adapter/erjet/table.go:242-272 | the assignment SET makes to a field's column is the one its cell parsed, or none, and the reported value is that cell's echo |
| RowReads.PlanFor | adapter/erjet/table.go:242-272 | the loop over the declaration computes the first phase |
| RowReads.DeferredFor | adapter/erjet/table.go:276-298 | the loop over the declaration computes the second phase |
| RowReads.Split | adapter/erjet/table.go:108-121 | the keys of a read are parted into columns and satellites, each half in key order |
| RowReads.PickedInOrder | adapter/erjet/table.go:101-121 | two keys of one half stand in the order in which they were asked for |
| RowReads.RowCols | adapter/erjet/table.go:199-235 | one SELECT reads exactly the asked columns; its preconditions are the panics on no columns and on a satellite |
| RowReads.ReadSatellites | adapter/erjet/table.go:186-195 | the satellites of a row, each in a query of its own, are added to its columns |
| RowReads.ReadRow | adapter/erjet/table.go:161-195 | a row reads as every asked field, and a missing row is told apart from one without values |
| StoreLaws.SecondSaveLaw | adapter/erjet/store.go:168-199 | one turn of the deferred loop, grouped or not, changes no storage its cell does not touch and nothing of other parents; a nil echo means nothing was written, a satellite's echo is the read exactly for an honest value, and a deferred column echoes what it resolved to |
| StoreLaws.SecondPhaseSound | adapter/erjet/store.go:168-199 | after the deferred loop each reported satellite holds what was reported exactly when the sent value is honest, each skipped one reads as before, and the second UPDATE holds the resolved values |
| StoreLaws.SecondPhaseSaves | adapter/erjet/store.go:168-199 | each satellite is saved once, from a state in which its own storage is untouched, keeps what that save gave it and is recorded with the echo of that save |
| UpdateTruth.UpdateTellsTruth | adapter/erjet/store.go:72-218 | of every accepted update, over a declaration whose bookkeeping columns are not written and whose row-deleting cells have their side tables to themselves: each reported change is of a sent field, names what Load gave before, renders differently, and names what Load gives after if and only if the sent value is honest (the server's image decodes to its echo); no field is reported twice; a field not reported (the touch column aside) renders the same if it was not sent or is honest; and there is no report if and only if no sent field has a value to write |
| SaveEffects.CellBecomes | adapter/erjet/child.go:423-506 | what a satellite reads as after it was sent any value: a keyed map key by key with its clear policy, a list of objects row by row (own rows overlaid, new rows holding only what was sent), a keyed list partition by partition, a replaced list element by element; a value of another kind changes nothing |
| SaveEffects.GroupedMapBecomes | adapter/erjet/satellite.go:125-161 | the same of a keyed map that was written in a group |
| RowEffects.UpdateBecomes | adapter/erjet/store.go:110-205 | what Load gives of each field after an accepted update: a sent and parsed scalar the decoded image of what was parsed, a resolved deferred column that of the resolved text, a sent satellite its effect, the touch column the clock exactly if some column was written, any other field what the row held |
| UpdateTruth.OtherRowsStay | adapter/erjet/store.go:72-218 | updating one row leaves every field of every other row as it was, whatever the clear policies |
| UpdateTruth.DiffSound | adapter/erjet/store.go:297-307 | the diff holds exactly the fields whose renderings differ, each with both values |
| UpdateTruth.DeferredTruth | adapter/erjet/column.go:592-636 | a reported deferred column reads as the resolved value if and only if the cast image of that value decodes to it; an unreported one reads as before |
| CellReports.ScalarReported | adapter/erjet/store.go:110-218 | a scalar field that was sent and parsed reads as the image of what was stored, and is reported with its echo exactly when that renders differently from what was there |
| CellReports.NegativeZeroReported | adapter/erjet/column.go:307-318 | a save of a negative zero over a zero reports a change to it, if the two render differently, and leaves the zero |
| CreateReport.MergedNames | adapter/erjet/store.go:224-233 | the merged report names each field of the assignments and of the hook once |
| CreateReport.EchoIsRecorded | adapter/erjet/store.go:184-192 | a cell is reported exactly when its payload parses or its resolver gives a value |
| CreateReport.CreateReportsOnce | adapter/erjet/store.go:184-233 | a create lists a field twice if and only if its hook reports a field whose second-phase save has something to report |
| CreateReport.HookReportsTwice | adapter/erjet/store.go:184-233 | the collision is met by a hook that reports the relation field it was sent, over a table with that field alone |
| Store.MergeInto | adapter/erjet/store.go:224-233 | the loop computes the merged report |
| Store.Store.LoadRow | adapter/erjet/store.go:53-61 | Load gives every declared field, or no row |
| Store.Store.Updating | adapter/erjet/store.go:110-168 | the steps of an update on the open transaction give the outcome of its specification, or its failure, or a driver fault |
| Store.Store.Creating | adapter/erjet/store.go:96-109 | the same for a create; what the specified outcome is for every field, the report and every other row is stated by `CreateTruth` |
| CreateTruth.CreateBecomes | adapter/erjet/store.go:96-205 | what Load gives of each field of a created row, told from the row the hook inserted and from the payload, as for an update: a sent column is written although the hook does not know it |
| CreateTruth.NewRowIsEmpty | adapter/erjet/store.go:96-109 | a satellite of a new row reads as empty before anything is sent for it |
| CreateTruth.NewElements | adapter/erjet/child.go:746-772 | every object sent for a new row is a new element that reads as what was sent and nothing else |
| CreateTruth.CreateTellsTruth | adapter/erjet/store.go:184-233 | the report of a create names exactly the fields the payload gives something for and those the hook reports, each with nothing before; of one the payload gives, with what Load gives if and only if the sent value is honest; of one only the hook reports, with the hook's first word |
| CreateTruth.CreateLeavesOthers | adapter/erjet/store.go:96-205 | a create leaves every other row as Load gave it |
| CreateTruth.CreateRefusal | adapter/erjet/store.go:96-205 | a create is refused only by its hook, for a taken primary key, or for what some sent field carries |
| Store.Store.Transact | adapter/erjet/store.go:72-208 | between BEGIN and COMMIT the specified outcome or its failure, or a driver fault; an update with nothing to write returns before the commit |
| Store.Store.Save | adapter/erjet/store.go:72-218 | a save commits exactly the specified state and reports exactly the specified changes, or leaves the database as it was and reports nothing; either way the store stays valid and its run is one step longer |
| Store.Store.Delete | adapter/erjet/store.go:237-270 | after a delete Load finds no such row, nothing that hung on it is left and every other row loads as before; it is refused if and only if a restricting table refers to the row, with the store's own error, or by a driver fault, and then leaves the database as it was; either way the store stays valid and its run is one step longer |
| DeleteLaws.DeleteRefusedExactly | adapter/erjet/store.go:237-270 | a delete is refused if and only if the row is there and a row of a restricting table has it as parent, and the error is then the constraint conflict |
| DeleteLaws.ConflictCodes | adapter/erjet/store.go:251-270 | exactly the two constraint codes become that error, any other failure stays |
| DeleteLaws.DeleteRemoves | adapter/erjet/store.go:237-249 | after an accepted delete Load finds nothing, no side, child or relation row has the id as parent, and no nested row of its children is left |
| DeleteLaws.DeleteLeavesOthers | adapter/erjet/store.go:237-249 | every other row loads as before |
| Anchors.RunAnchored | adapter/erjet/store.go:72-249 | over every run of saves and deletes each row of a side, child or relation table has a parent that exists |
| Store.StoreNumbered | adapter/erjet/child.go:139-144 | whatever calls a store has taken since it began over empty child tables, every partition holds positions exactly 1..n and distinct ids |
| Refusals.UpdateRefusal | adapter/erjet/store.go:72-218 | a missing row is refused as not found; any other update only for what some sent field carries: a NOT NULL column of a side table, a sent or resolved value the server does not take, a relation id of another type or without a row, or an error of the application's resolver; never the id of a child element |
| Acceptance.UpdateAccepted | adapter/erjet/store.go:110-205 | an update is accepted if and only if the row is there, the server takes each parsed and each resolved value, every resolver succeeds, every list and relation list fits, and every key of every side table may be written by the cells together; all of it told from the payload and the tables before |
| Acceptance.CreateAccepted | adapter/erjet/store.go:96-205 | the same for a create, whose hook has to insert a row under a new id |
| Acceptance.GroupsAccepted | adapter/erjet/satellite.go:125-161 | the grouped write of all side tables goes through if and only if for each key that some cell fills the cells together fill every NOT NULL column, and none nulls a NOT NULL column of a row that is there |
| Acceptance.ListAccepted | adapter/erjet/child.go:423-506 | a child list, plain or keyed, is accepted if and only if each of its objects fits its row or the server takes each parsed element, partition by partition |
| Transaction.Tx.ClearCell | adapter/erjet/satellite.go:338-348 | one clear statement changes one cell of one row, or deletes it, and keeps nested foreign keys |
| Transaction.Tx.UpsertCells | adapter/erjet/satellite.go:298-334 | INSERT ON CONFLICT over a side table, NOT NULL checked on the tentative row first, keeps nested foreign keys |
| Transaction.Tx.DeleteChildren | adapter/erjet/child.go:776-792 | DELETE of a scope except the kept ids, nested rows by cascade, keeps nested foreign keys |
| Transaction.Tx.UpsertChild | adapter/erjet/child.go:810-876 | INSERT ON CONFLICT on the global id updates position and sent columns only, is refused for a value the server does not take, keeps nested foreign keys |
| Transaction.Tx.InsertRelation | adapter/erjet/rels.go:138-152 | INSERT of one relation stores the image of its id at its position, or fails for an id that is not of the type or has no row |
| Transaction.Tx.UpdateRow | adapter/erjet/table.go:304-321 | UPDATE sets the images of the assigned columns and the touch column of one row, or is refused with the first value the server does not take; an empty SET is excluded |
| Runs.RunKept | adapter/erjet/store.go:72-250 | over every run of saves and deletes, whatever the declaration and the payloads, a child id keeps its parent and partition while it lives and is never reused, partitions numbered 1..n stay so, and nested foreign keys hold |
| Runs.ReachableNumbered | adapter/erjet/child.go:139-144 | from empty child tables every partition of every reachable state holds positions exactly 1..n and distinct ids |
| Reachable.CellSaveClean | adapter/erjet/rels.go:56-80 | the list a save leaves holds ids as the server shows them, and one of them twice if and only if two kept ids of the payload have the same image |
| SaveBack.CellBack | adapter/erjet/child.go:633-772 | a restorable satellite sent back as it was read reads the same |
| SaveBack.RelsCellBack | adapter/erjet/rels.go:88-200 | a relation list sent back as it was read reads the same if and only if it held no id twice |
| SaveBack.SaveBackChangesNothing | adapter/erjet/store.go:53-218 | where each cell takes back what it gave, saving back what Load returned changes nothing Load can see, child ids included, and reports no change |
| Reachable.RunClean | adapter/erjet/rels.go:131-200 | over every run of saves and deletes a relation list holds ids as the server shows them, and none twice if no payload of the run keeps two ids with the same image |
| Reachable.ReachableSaveBack | adapter/erjet/store.go:53-218 | in every state a run reaches from a fresh store, saving back what Load returned changes nothing Load can see and reports no change, for cells that take back what they gave and relation payloads without such collisions |
| Effective.BuildOverlay | validate/write.go:47-61 | the loop over the submitted keys, in any order, leaves the overlay |
| Effective.OverlaidMeans | validate/write.go:47-61 | the overlay, key by key: what was not submitted is as it is now, a keyed field has each entry submitted or else current, any other submitted value replaces |
| Effective.CellEffect | adapter/erjet/child.go:238-261 | a satellite that accepts a payload as it is (relation ids their own images) reads as the merge of its old value with it, blank entries dropped, or as the payload itself |
| Effective.EffectiveIsLoaded | validate/write.go:46-61 | field by field, the state an update is validated against is the state Load gives after it, once blank keyed entries are dropped, for payloads the cells accept as they are |
| SchemaLaws.WidenMeans | validate/write.go:128-194 | at any depth of references and allOf, wherever the references met are clean, and for every item rule with the meaning of anyOf and enum, the widened schema accepts, in whatever document it is put, what the original accepts by the standards once markers count as valid items: inlining a reference next to its siblings as allOf keeps the meaning |
| SchemaLaws.AdmittingMeans | validate/write.go:100-178 | the item schema the code builds takes the markers and what the declared one takes, and nothing else, by the meaning of anyOf and enum |
| SchemaLaws.ValidSplits | validate/write.go:128-129 | a list is valid exactly when its limits hold and every item schema that applies accepts every element |
| SchemaLaws.WidenedAccepts | validate/write.go:86-119 | wherever the references met are clean, and for every item rule with the meaning of anyOf and enum, the widened schema accepts stored ids followed by markers if and only if every stored id meets the original item schemas and the limits hold of the final list |
| SchemaLaws.MarkerFreeAgrees | validate/write.go:128-194 | on a list without markers the widened and the original schema agree, wherever the references met are clean, for every such item rule |
| SchemaPaths.WidenedExactly | validate/write.go:130-193 | a schema is widened if and only if no resolution path, as the code follows it, ends in an unsupported keyword, a bad or repeated reference, or tuple items |
| SchemaPaths.FaultyExactly | validate/write.go:136-176 | such an end is a node with one of the fourteen keywords listed, with a reference that repeats, leaves the document or leads nowhere, or with a list of schemas as items |
| SchemaPaths.RecursionIsRepetition | validate/write.go:141-144 | recursion is reported only of a reference that the same resolution path has already followed |
| SchemaPaths.RepetitionIsRefused | validate/write.go:160-165 | in an accepted schema no resolution path follows a reference twice |
| SchemaPaths.SharedReference | validate/write.go:160-165 | a reference shared by two branches is not recursion |
| Markers.FreeMarker | validate/write.go:90-95 | the search ends within one more attempt than the submitted list has elements, at the first free name |
| Markers.CandidatesDiffer | validate/write.go:90-95 | different uploads of a field, or different attempts, never produce the same name |
| Markers.MakeMarkers | validate/write.go:89-97 | the markers of a field are pairwise distinct and absent from the submitted list |
| Markers.MarkerIn | validate/write.go:196-203 | the search loop finds a marker exactly when it is in the list |
| Markers.FinalDistinct | validate/write.go:86-97 | the final list repeats an element only if the submitted one does, so uniqueItems judges the ids alone |
| PendingUploads.AwaitList | validate/write.go:105-119 | a list field gets the submitted list with the markers at its end and the widened schema, or the widening's refusal |
| PendingUploads.CheckWrite | validate/write.go:18-126 | every field with uploads is represented by its markers and its widened schema, its references resolved in a document whose other such fields are as declared or already widened; every other key is the overlay; a failure is justified by some such field, and a root with indirect constraints passes only if no upload is pending |
| PendingUploads.PendingListAccepted | validate/write.go:86-119 | for the list Write hands over, wherever the references met are clean, and for every item rule with the meaning of anyOf and enum: accepted, in whatever document, exactly when every submitted id meets the declared item schemas and the declared limits hold of the final list |
| PendingUploads.PendingFileAccepted | validate/write.go:86-103 | for a field that takes one file, Write hands over a marker that its schema accepts, and of other values that schema accepts what the declared one does |
| PendingUploads.DirectRootIs | validate/write.go:64-78 | uploads are refused exactly under a root with one of the keywords through which a property could be constrained indirectly |
| FieldDocuments.JudgedAsDeclared | validate/write.go:64-126 | a field without uploads gets its overlay value and is judged by the final document exactly as by the declared one, when every reference reachable from it is a pointer within the document (no nested `$id`, no dynamic reference) and none enters a field with uploads |
| FieldDocuments.ListJudgedAsDeclared | validate/write.go:86-126 | a list field with uploads gets its ids and markers, and the final document accepts them exactly when, in the declared document, every id meets the item schemas and the limits hold of the final list, under the same condition, with clean references, and for every item rule with the meaning of anyOf and enum |
| SchemaWitnesses.WrongLimit | validate/write.go:141-170 | a field declared by a percent-encoded reference is widened to the limit of another node |
| SchemaWitnesses.NeighbourTakesMarker | validate/write.go:116-119 | a field without files that is declared by a reference to a field with files takes a list with a forged marker, while its declared schema takes it only if the item schema does, by the meaning of anyOf and enum |
| PendingUploads.OnlyFieldSeesRoot | validate/write.go:74-118 | when exactly one field has uploads pending its references are resolved in the original document |
| PendingUploads.CheckedIsLoaded | validate/write.go:46-61 | what is handed to the validator for a field without uploads is what Load gives after the save, once blank keyed entries are dropped, where the UI schema calls keyed the fields whose cells are |
| Pointers.UnescapeEscape | validate/unknown.go:9-11 | unescaping gives back whatever was escaped |
| Pointers.ReferenceRoundTrip | validate/write.go:148-150 | escaping, joining, splitting and unescaping gives back any non-empty list of keys (RFC 6901 sections 3 and 4) |
| Pointers.ReferenceResolves | validate/write.go:148-159 | a reference written with the escaping finds exactly the node under its keys, through objects |
| Pointers.FollowReference | validate/write.go:148-159 | the loop over the tokens ends at the node the reference names, or at the failure |
| References.CleanExactly | validate/write.go:145-159 | the code reads a reference as the standards do in every document whose arrays it does not meet, if and only if nothing in it is percent-encoded and every "~" escapes |
| References.CleanAgrees | validate/write.go:145-159 | for such a reference and any document the two readings agree, unless the standard finds a node by going through an array, where the code finds none |
| References.WrittenReference | validate/unknown.go:9-11 | a reference written with the escaping is such a reference if and only if no key of it holds a percent sign; it then names what stands under its keys, array elements included |
| References.PercentWitness | validate/write.go:148-159 | with an encoded percent sign in a key the standard goes to the key with the sign and the code to the key with the triplet, or, without one, nowhere |
| References.IndexWitness | validate/write.go:151-154 | a clean reference to an array element names it by the standard and is invalid to the code |
| FieldRules.ReadonlyFields | validate/readonly.go:21-46 | the loop collects the declared read-only fields, sorted |
| FieldRules.StripReadonly | validate/readonly.go:58-70 | exactly the declared read-only keys are cut, and those that were present are listed |
| FieldRules.ReadonlyTakesNoFiles | validate/media.go:26-53 | no file is accepted for a read-only field |
| FieldRules.EntryMeans | validate/media.go:26-53 | what the entry of a field in the UI schema makes it: read-only, keyed, taking no file, one or several |
| FieldRules.UnknownFields | validate/unknown.go:25-51 | allow changes nothing, strip cuts exactly the unknown keys, reject gives one error for each of them in order |
| FieldRules.ErrorNamesKey | validate/unknown.go:9-51 | the pointer of a rejection decodes to its key |
| Requests.InjectFiles | handler.go:271-302 | files replace a single field, go to the tail of a list field, and are refused anywhere else |
| Requests.CutKeys | handler.go:238-254 | exactly the read-only keys are cut; under reject the errors are one for each unknown key left, in order; otherwise the kept keys go on |
| Requests.CheckStructure | handler.go:256-268 | the errors are those the structural check gives of what CheckWrite prepares, no more and no less; none can be given only when nothing can be prepared |
| Requests.Write | handler.go:241-312 | the answer exactly: unknown keys reject; then a schema that cannot be prepared fails; then the structural errors, one error for each stray file and those of Validate, in that order, reject if there is any; otherwise the validated map is saved |
| Requests.SavedExactly | handler.go:241-312 | a request is saved if and only if no key is unknown under reject, the check of what is prepared gives no error, no file is stray and Validate gives no error; a rejection carries at least one error; a schema failure comes only where preparing may fail |
| Requests.SavedField | handler.go:238-304 | the saved map has exactly the fields with files and the submitted keys that are neither read-only nor cut by strip; those without files carry the submitted value |
| Requests.FilesArePending | handler.go:256-302 | a field with files is represented in what is validated if and only if its files are to be saved |
| Requests.NoReadonlyKey | handler.go:238-304 | no read-only key is in the map handed to Validate, not even through a file part |
| Requests.EveryFileOnce | handler.go:286-302 | every uploaded file is in that map exactly once, in its own field, after the submitted ids and in part order, and nothing else is a file |
| Requests.ValidatedIsSaved | handler.go:256-302 | the saved value is the validated one with uploads for markers, if and only if the field takes one file or its submitted value is null or a list |
| Numbers.SmallIsAccepted | adapter/erjet/column.go:328-343 | every integer of magnitude up to 2^53 is accepted as itself |
| Numbers.AcceptedSurvives | adapter/erjet/column.go:336-371 | an accepted number comes back from int64 unchanged, -0 as 0, and its echo is the read |
| Numbers.AcceptedApart | adapter/erjet/column.go:336-343 | different accepted numbers store different integers, the two zeros aside |
| Numbers.RereadInteger | adapter/erjet/normalize.go:32-37 | a stored integer is accepted back exactly up to 2^53 + 1 and keeps its value exactly up to 2^53 |
| Numbers.IdentifiersApart | adapter/erjet/normalize.go:44-58 | different integer keys decode to different identifiers |
| Numbers.IdentifierReads | adapter/erjet/normalize.go:44-58 | an identifier is the decimal text of its key: it reads as the number, has no leading zero, and a minus sign first exactly below zero |
| Cells.TextsTaken | adapter/erjet/column.go:262-305 | a text cell takes null and texts and a boolean cell booleans, read as sent; a string cell takes texts, its fallback in place of the empty one; they take nothing else |
| Cells.NumbersTaken | adapter/erjet/column.go:307-371 | an integer cell takes null and the integers up to 2^53, a numeric cell null and every number, nothing else; both read as sent, a negative zero as zero |
| Cells.UuidTaken | adapter/erjet/column.go:375-389 | a uuid cell takes null and texts; null and the empty text clear, a text that is a uuid is stored in the server's form |
| Cells.EchoedAsRead | adapter/erjet/column.go:262-371 | text, string, boolean and integer cells echo what the next read gives, over columns that store the value as it is |
| Cells.NumEcho | adapter/erjet/column.go:307-318 | over such a column a numeric cell does so for a number if and only if it is not the negative zero |
| Cells.UuidEcho | adapter/erjet/column.go:375-389 | a uuid cell is refused exactly for a non-empty text that is no uuid, and echoes what a read gives exactly for nothing or for a uuid in the form the server shows |
| Cells.ReadReparses | adapter/erjet/column.go:262-389 | what a text, boolean, numeric or uuid column reads as can be sent back unchanged; a string column with a fallback unless it held the empty string |
| Cells.IntReparses | adapter/erjet/column.go:352-371 | an integer column sent back reads the same, and keeps its integer exactly up to 2^53 |

## Left out

- Satellites nested under child elements are keyed string maps; an element that nests child lists or relation lists of its own is not modelled.
- Effective.EffectiveIsLoaded: lists of objects are not covered, because a new element's id exists only after the save; keyed string maps, scalar lists plain and keyed, relation lists and columns are.
- Reachable.ReachableSaveBack: speaks of a save that is accepted; when a side table refuses what it read is stated exactly by `KeyedLaws.SaveBackGroup`.
- PendingUploads.CheckWrite: each field's references are resolved in a document in which other fields with uploads may already be widened, since the fields are widened in no fixed order; when that is of no account is stated by `FieldDocuments.ListJudgedAsDeclared`.
- Schema anchors, references to other documents (the widening refuses both), and embedded schema resources: the standard leaves pointers across a nested `$id` to the implementation (JSON Schema 2020-12 Core section 9.2.1), and they are not part of this model.
- ClearDeleteRow on a side table that other cells share, which the code documents as unfit, is excluded from the truth of the diff, the overlay, save-back and acceptance theorems; those on other rows, other parents, owners, positions, refusals, runs, relation lists and the store's own methods cover it. ClearSet of a non-empty text is excluded where a patch that clears is said to read as an overlay.
- Rows with a NULL or repeated position that other programs wrote are read as they are; only partitions the store writes are shown to be numbered.
- Projections that are expressions rather than columns; declarations with two cells over one storage; and, for updates, declarations with a writable primary key or touch column.
- The rows relations refer to do not change while the store runs; permissions of relation tables and a relation table without an id column are not part of this model.
- The casts of parent, partition and side-table keys and of child ids: these are plain texts here.
- Column defaults, and NOT NULL, CHECK and unique constraints of main and child tables on columns a payload leaves out; those on sent values are the server's refusal of the value.
- Database effects of application hooks beyond the row a Create hook inserts; a resolver is a function of its arguments.
- Date, time, array and jsonb cells are covered as arbitrary cells; their parses are not spelled out.
- JSON text, HTTP, multipart decoding, body limits and logging: a request starts as a decoded map and ordered files; undecodable schemas are not part of this model.
- The JSON Schema validator and the application's Validate are arbitrary functions of what they are handed.
- NaN and the infinities, which JSON cannot carry, and rounding of a stored numeric to binary64.
- Concurrency: one transaction at a time, and the generated ids of all child tables come from one source.
- Legacy exception: the branch of the id list parser over a native string slice, which a decoded payload never holds.
