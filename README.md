# eloquent-versioned, modelled in Dafny

eloquent-versioned keeps the history of an Eloquent model in its own table.
Every row carries four bookkeeping columns:

- `id`, the physical key;
- `model_id`, the logical entity;
- `version`;
- `is_current_version`.

Editing a stored model goes through one transaction. It inserts an archive
copy of the model's original values under a fresh key, marked not current.
It then gives the current row the next version and the edited values. A
global query scope hides archived rows. Two macros lift that scope:
`withOldVersions` and `onlyOldVersions`. A differ compares two versions.

This project models that core:

- the table is a `Store` class holding a row sequence and an auto-increment
  counter;
- a model instance is a `Record` class;
- a query is a `Query` class with where clauses, bindings and orders.

The save paths of both strategies are methods, proved against functions on
the row sequence. Those functions carry the invariants proved about them:

- exactly one current row per model id, with positive versions;
- model ids mirror keys, under the `Versioned` strategy;
- versions are unique per model id, and the current row is the latest,
  after a create and after a dirty save of the current row that goes
  through; an `updating` veto, or a dirty save of an archived row, repeats
  a version, because the archive is inserted before the update;
- the versions of each model id have no gaps: they are 1 up to the latest;
- a stored model's row carries its key, model id and flag, and, while it is
  current, its version and the original values the model last synced.

Two more parts are proved:

- the scope's `remove` loop, against the clause and binding lists it leaves;
- the differ, as a pure function with `array_diff` semantics.

Modules, one per file:

- `Columns`: the column names and the `table.column` spelling.
- `Database`: values, rows, where clauses and what they select, the `Query`
  and `Store` classes.
- `Eloquent`: the `Record` class, dirty tracking and the serialised
  attribute array.
- `Chain`: invariants of a versioned table and counting lemmas.
- `Versioned`: the `Versioned` trait (save, minor save, keys of the update,
  next version, navigation, serialisation filter).
- `AppendedVersioning`: the `AppendedVersioning` trait (generated model ids,
  `getIdAttribute`).
- `VersioningScope`: `apply`, `remove` and the two macros.
- `VersionDiffer`: `diff`.
- `Builder`: the default order of `first`/`getModels` and `findAll`.

Model events are boolean inputs: `savingOk` and `updatingOk` are false when
a listener vetoes. The `AppendedVersioning` strategy gets the model id from
a generator, which here is a parameter required to be unused in the table.

Where the code and the test suite disagree, the model follows the code.
After one edit, `save` leaves key 1 on the current row and puts the archive
under the next fresh key (`Versioned.EditAfterCreate`). The test at
tests/VersionedTest.php:60-63 looks the archived version up with key 1.

## Model

| member | source | states |
|---|---|---|
| Columns.BookkeepingColumnsDistinct | src/Builder.php:8-10 | The three bookkeeping column names are pairwise distinct. |
| Columns.Qualified | src/Traits/Versioned.php:242-245 | `table.column` is the table, a dot, then the column. |
| Columns.QualifiedRoundTrip | src/Traits/Versioned.php:210-245 | A qualified column resolved against its own table is the column again. |
| Eloquent.Dirty | src/Traits/Versioned.php:114 | The dirty columns are exactly those missing from the original values or changed since, with their new values. |
| Eloquent.DirtyAbsorbed | src/Traits/Versioned.php:129 | Writing the dirty columns over the current values changes nothing. |
| Eloquent.SyncedIsClean | src/Traits/Versioned.php:148-150 | Once `finishSave` syncs the original values, nothing is dirty. |
| Eloquent.DirtyOverAgreeing | src/Traits/Versioned.php:114-129 | When the stored row holds the original values, writing the dirty columns over it gives a row that holds every current value of the model. |
| Eloquent.Record.AllAttributes | src/Traits/Versioned.php:49 | A stored model's array holds its key, model id, version, 1/0 flag and every payload column. An unsaved model's array is its payload. |
| Eloquent.Record.SetIsVersioned | src/Traits/Versioned.php:180-185 | Sets the versioned switch and nothing else. |
| Chain.MaxVersion | src/Traits/Versioned.php:194-196 | None iff no row has the model id. Otherwise it is a stored version of that model id, and no stored version exceeds it. |
| Chain.OnlyCurrent | src/Traits/Versioned.php:70-76 | Under the one-current-row invariant, two current rows with one model id are the same row. |
| Chain.ContiguousDownTo | src/Traits/Versioned.php:192-197 | In a gap-free table every version from 1 up to a stored version of a model id is stored too, so the versions of a model id are exactly 1..N. |
| Chain.ContiguousAppend | src/Traits/Versioned.php:116-121 | Appending a row whose version is 1 or follows a stored version of its model id keeps the table gap-free and keeps every stored version. |
| Versioned.HideVersioned | src/Traits/Versioned.php:15-28 | The hidden keys are the caller's keys, in order, then `is_current_version` and `model_id`. |
| Versioned.AttributesToArray | src/Traits/Versioned.php:47-63 | An unversioned, unsaved or non-current model gets every attribute. A current one loses exactly the hidden keys, and every other key keeps its value. |
| Versioned.SetKeysForSaveQuery | src/Traits/Versioned.php:70-76 | Appends `id = key` and `table.is_current_version = 1` with bindings `[key, 1]`; orders are untouched. |
| Versioned.SaveKeysSelectCurrentRow | src/Traits/Versioned.php:72-73 | A row matches the save keys iff it has that key and is current. |
| Versioned.NextVersion | src/Traits/Versioned.php:192-197 | Above every stored version of the model id. It is 1 when the model id is absent; otherwise one more than a stored version. |
| Versioned.NextVersionPositive | src/Traits/Versioned.php:192-197 | With positive versions stored, the next version is positive. |
| Versioned.Created | src/Traits/Versioned.php:142-146 | A create keeps every row and appends one: fresh key, the model id, version 1, current. |
| Versioned.Archive | src/Traits/Versioned.php:116-119 | The archive has the fresh key and is not current. It keeps the model id and the version being replaced, and its values are the model's values overwritten by the original values, as `replicate` then `forceFill(original)`. |
| Versioned.ArchiveHoldsStoredValues | src/Traits/Versioned.php:116-119 | When the model's original values agree with its stored row, the archive holds the stored value of every original column and the model's value of every other column. |
| Versioned.CreateKeepsChain | src/Traits/Versioned.php:142-146 | Creating with an unused model id keeps the invariants and linearity, and starts a chain with one current row. |
| Versioned.CreateKeepsTracks | src/Traits/Versioned.php:140-152 | A create under a fresh key and an unused model id leaves a gap-free table that tracks the new model at version 1, current, with its values synced. |
| Versioned.MirroredCreate | src/Traits/Versioned.php:143-144 | The new key is an unused model id, model ids stay mirrored, and the new row stores key and model id. |
| Versioned.CreateThenMirror | src/Traits/Versioned.php:143-145 | Insert, then update of the model id by the save keys, equals inserting the row with its model id already set. |
| Versioned.SaveVersionAppendsArchive | src/Traits/Versioned.php:115-121 | A dirty save adds exactly one row, the archive, and moves no key, model id or flag. |
| Versioned.SaveVersionKeepsWellFormed | src/Traits/Versioned.php:113-137 | A dirty save keeps exactly one current row per model id and positive versions. |
| Versioned.SaveVersionBumpsCurrent | src/Traits/Versioned.php:124-129 | If the update goes through, only the current row with the model's key changes. It gets the dirty columns and a version above every stored version of its model id. |
| Versioned.BumpKeepsLinear | src/Traits/Versioned.php:116-129 | Raising the current row by one version beside a non-current copy of its old version keeps versions unique, with the current row the latest. |
| Versioned.SaveVersionKeepsLinear | src/Traits/Versioned.php:113-137 | A dirty save that goes through keeps versions unique per model id, with the current row the latest. |
| Versioned.VetoedUpdateKeepsArchive | src/Traits/Versioned.php:121-126 | After an `updating` veto the archive stays, and two rows share one model id and version. |
| Versioned.MinorSaveInPlace | src/Traits/Versioned.php:83-86 | A minor save adds no row and moves no key, model id, version or flag. It keeps both invariants. |
| Versioned.EditAfterCreate | src/Traits/Versioned.php:113-137 | After create and one edit: key 1 current with version 2 and the new values; key 2 not current with version 1 and the old values; one current row. |
| Versioned.SaveVersionKeepsStored | src/Traits/Versioned.php:113-137 | A dirty save keeps a row with the model's key and model id. |
| Versioned.SaveVersionKeepsMirrored | src/Traits/Versioned.php:116-121 | A dirty save keeps model ids mirrored, since the archive reuses a stored model id. |
| Versioned.SaveVersionKeepsTracked | src/Traits/Versioned.php:113-137 | A dirty save keeps the table well formed and the model stored. The new version exceeds the old. |
| Versioned.SaveVersionKeepsVersions | src/Traits/Versioned.php:116-129 | A dirty save loses no stored version of any model id. |
| Versioned.SaveVersionRowPreceded | src/Traits/Versioned.php:116-129 | After a dirty save, each row's version is 1 or follows a stored version of its model id. |
| Versioned.SaveVersionKeepsContiguous | src/Traits/Versioned.php:113-137 | A dirty save keeps every model id's versions gap-free, whether or not the `updating` veto stops the update. |
| Versioned.SaveVersionKeepsSynced | src/Traits/Versioned.php:113-152 | After a dirty save every row under the model's key keeps its model id and flag. If the model is current, its row holds the new version and the values just synced when the update went through, and the old version and original values after a veto. |
| Versioned.SaveVersionKeepsTracks | src/Traits/Versioned.php:113-152 | A dirty save keeps the model tracked by the table, with the next version and the synced values when the update goes through; the next version exceeds the old one. |
| Versioned.NextVersionAboveArchive | src/Traits/Versioned.php:128 | The version assigned after archiving exceeds the archived version. |
| Versioned.SaveNewVersion | src/Traits/Versioned.php:113-152 | The table becomes the archive-then-update function of the old table. The model gets the next version and synced originals, or is unchanged after a veto. |
| Versioned.CreateFirstVersion | src/Traits/Versioned.php:142-152 | Inserts once and sets the model id to the new key. The table equals a create with that model id. |
| Versioned.VersionDirtyModel | src/Traits/Versioned.php:113-137 | The dirty path keeps the table consistent. The table is the archive-then-update function of the old one; the model gets `getNextVersion` of the table with the archive and its values synced, or keeps its version and original values after a veto. |
| Versioned.ConsistentAfterVersioning | src/Traits/Versioned.php:113-152 | The table and model a dirty save leaves are consistent again, and the version rises when the update goes through. |
| Versioned.InsertNewModel | src/Traits/Versioned.php:140-146 | The create path keeps the table consistent: key and model id are the fresh key, version 1, current. |
| Versioned.Save | src/Traits/Versioned.php:95-153 | Covers `saving` veto, create, dirty edit (with or without `updating` veto) and clean no-op. Each path's table and model are stated (on the dirty path the model stays stored, current or not as before, with `getNextVersion` as its version when the update goes through), and the consistency invariant is kept. |
| Versioned.SaveMinor | src/Traits/Versioned.php:83-86 | In-place update of the dirty columns keyed by the save keys; the model stays saved, with its key, model id, version and flag untouched; only the save's fields change. A new model is inserted as is, with its original values synced. |
| Versioned.FindVersion | src/Traits/Versioned.php:273-276 | None iff no row has that model id and version. Otherwise it is the first such row in table order. |
| Versioned.PreviousModel | src/Traits/Versioned.php:267-277 | None at version 1. Otherwise a row with the model id and version - 1, found whenever one exists. |
| Versioned.NextModel | src/Traits/Versioned.php:282-292 | None for a current row. Otherwise a row with the model id and version + 1, found whenever one exists. |
| Versioned.FindVersionUnique | src/Traits/Versioned.php:273-276 | With unique versions the lookup finds the one matching row. |
| Versioned.NextOfPrevious | src/Traits/Versioned.php:267-292 | On a linear table, stepping back then forward returns to the same row. |
| Versioned.PreviousOfNext | src/Traits/Versioned.php:267-292 | On a linear table with positive versions, stepping forward then back returns to the same row. |
| AppendedVersioning.IdAttribute | src/Traits/AppendedVersioning.php:24-27 | The primary-key attribute when an `id` attribute is present (null if the key itself is absent), otherwise null. |
| AppendedVersioning.IdAttributeOfRecord | src/Traits/AppendedVersioning.php:24-27 | A stored model reads back its key, and an unsaved model without an `id` payload reads null. |
| AppendedVersioning.CreateWithModelId | src/Traits/AppendedVersioning.php:96-99 | Sets the generated model id, then a single insert with no follow-up update. The table equals a create with that id. |
| AppendedVersioning.VersionDirtyModel | src/Traits/AppendedVersioning.php:66-90 | The archive-then-update path keeps the table consistent. The model gets `getNextVersion` of the table with the archive and its values synced, or keeps its version and original values after a veto. |
| AppendedVersioning.ConsistentAfterVersioning | src/Traits/AppendedVersioning.php:66-90 | The table and model a dirty save leaves are consistent again, and the version rises when the update goes through. |
| AppendedVersioning.InsertNewModel | src/Traits/AppendedVersioning.php:96-99 | A create with a fresh generated model id keeps the table consistent and starts the chain at version 1. |
| AppendedVersioning.Save | src/Traits/AppendedVersioning.php:48-106 | Covers `saving` veto, create with the generated model id, dirty edit (with or without `updating` veto) and clean no-op. Each path's table and model are stated (on the dirty path the model stays stored, current or not as before, with `getNextVersion` as its version when the update goes through), and the invariant is kept. |
| VersioningScope.ScopeColumn | src/Scopes/VersioningScope.php:14 | The scope's qualified column resolves to `is_current_version` in the model's table. |
| VersioningScope.BasicCount | src/Scopes/VersioningScope.php:29-31 | The running `bindKey` counter never exceeds the number of clauses. |
| VersioningScope.KeptClauses | src/Scopes/VersioningScope.php:32-40 | No kept clause is on the scope's column. |
| VersioningScope.Compact | src/Scopes/VersioningScope.php:42 | Renumbering after unsetting never lengthens the bindings. |
| VersioningScope.Apply | src/Scopes/VersioningScope.php:12-17 | Appends exactly `table.is_current_version = 1` and its binding. |
| VersioningScope.Remove | src/Scopes/VersioningScope.php:19-43 | The loop's clauses and bindings equal the kept clauses and the compacted bindings, proved by loop invariants against their specifications. |
| VersioningScope.WithOldVersions | src/Scopes/VersioningScope.php:58-65 | `remove`, after which no clause is on the scope's column. |
| VersioningScope.OnlyOldVersions | src/Scopes/VersioningScope.php:70-81 | `remove` then `= 0`: exactly one clause, the last, is on the scope's column. |
| VersioningScope.ApplySelectsCurrent | src/Scopes/VersioningScope.php:14 | After `apply`, a row is selected iff it was before and is current. |
| VersioningScope.OnlyOldSelectsArchived | src/Scopes/VersioningScope.php:70-81 | After `onlyOldVersions`, a row is selected iff it passes the remaining clauses and is not current. |
| VersioningScope.RemoveWidens | src/Scopes/VersioningScope.php:32-40 | Every row selected before `remove` is selected after it. |
| VersioningScope.KeptClausesAppend | src/Scopes/VersioningScope.php:28-40 | The kept clauses of a concatenation are the concatenation of the kept clauses, so order is kept. |
| VersioningScope.KeptClausesMembers | src/Scopes/VersioningScope.php:32-40 | A clause is kept iff it is in the query and on another column. |
| VersioningScope.UnsetOnlyOnes | src/Scopes/VersioningScope.php:29-35 | Only existing bindings equal to 1, at positions the basic count reaches, are unset. |
| VersioningScope.RemoveKeepsAlignment | src/Scopes/VersioningScope.php:28-42 | With no `in` clause and only `= 1` scope clauses, the bindings left are exactly the kept clauses' bindings, in order. |
| VersioningScope.RemoveIdempotent | src/Scopes/VersioningScope.php:28-42 | A second `remove` keeps every clause and every binding. |
| VersioningScope.RemoveUndoesApply | src/Scopes/VersioningScope.php:12-43 | On a query with no scope clause and counted bindings, `remove` after `apply` restores clauses and bindings. |
| VersioningScope.InClauseLeavesOrphanBinding | src/Scopes/VersioningScope.php:29-34 | An `in` clause before the scope clause leaves the scope's binding 1 behind. |
| VersioningScope.ZeroClauseLeavesOrphanBinding | src/Scopes/VersioningScope.php:33-36 | A scope clause bound to 0 loses its clause but keeps its binding. |
| VersionDiffer.Entry | src/VersionDiffer.php:44-49 | A change holds the left value under `0` and `left`, the right value under `1` and `right`, and nothing else. |
| VersionDiffer.Except | src/VersionDiffer.php:39-40 | Exactly the attributes not ignored, values unchanged. |
| VersionDiffer.Diff | src/VersionDiffer.php:30-52 | Fails iff the left is not an instance of the right's class. Otherwise it reports exactly the non-ignored left keys whose value matches no non-ignored right value as a string. Each entry pairs the left value with the right value at that key (null if none). |
| VersionDiffer.OneEditOneChange | src/VersionDiffer.php:42-49 | Maps on the same keys that differ at one key, whose left value is among no right values, yield exactly that change. |
| VersionDiffer.IgnoredNeverReported | src/VersionDiffer.php:14-20 | The five default fields and every caller-ignored field are never reported. |
| VersionDiffer.ModelIdReported | src/VersionDiffer.php:14-20 | `model_id` is not ignored: a changed model id is reported. |
| VersionDiffer.IdenticalHaveNoDifferences | src/VersionDiffer.php:42 | Equal filtered attributes give an empty diff. |
| VersionDiffer.ComparedByValueNotKey | src/VersionDiffer.php:42 | A value moved to another key, or an integer turned into the same digits as a string, is not reported. |
| VersionDiffer.AllFoundNoChanges | src/VersionDiffer.php:42-49 | When every left value occurs among the right values, nothing is reported. |
| VersionDiffer.NameEditReported | tests/VersionedTest.php:107-129 | The test's diff of the archived row against the edited model reports the `name` edit, old value left and new value right, and also the key, which is 2 on the archive and 1 on the model. Nothing else is reported. |
| VersionDiffer.KeyAndNameChanged | src/VersionDiffer.php:42-49 | Over columns that all hold 1, a new key and a new name are the only changes reported. |
| VersionDiffer.MismatchRefused | src/VersionDiffer.php:32-34 | Models of unrelated classes are refused with the mismatch error. |
| Builder.DefaultOrders | src/Builder.php:19-21 | An empty order list becomes `model_id` ascending. A non-empty list is kept, so the result is never empty. |
| Builder.DefaultOrdersIdempotent | src/Builder.php:19-21 | Adding the default order twice equals adding it once. |
| Builder.DefaultOrdersOnlyWhenEmpty | src/Builder.php:19 | The order list changes iff it was empty, and then `model_id` is its only order. |
| Builder.VersionedBuilder.First | src/Builder.php:17-24 | The orders become the default orders of the old orders. |
| Builder.VersionedBuilder.GetModels | src/Builder.php:31-38 | The orders become the default orders of the old orders. |
| Builder.VersionedBuilder.FindMany | src/Builder.php:51 | No ids: the query is untouched. Otherwise it gains `key in (ids)` with the ids as bindings, and the default orders. |
| Builder.VersionedBuilder.FindAll | src/Builder.php:49-52 | `findMany([id])`: one `key in (id)` clause, one binding, the default orders. |
| Builder.FindAllSelectsKey | src/Builder.php:49-52 | The clause `findAll` adds selects exactly the rows with that key, current or not. |

## Left out

- Versioned.Save: the create path ignores the `updating` veto of the follow-up update (src/Traits/Versioned.php:145). In the source, a veto there leaves the inserted row without its model id and returns false.
- Versioned.CreateFirstVersion: same as above; the follow-up update always goes through.
- Versioned.InsertNewModel: same as above.
- The `creating`, `updated` and `saved` events are left out; only the `saving` and `updating` vetoes are inputs.
- After a create, the in-memory version and flag are set to 1 and current. Eloquent would leave them unset until the model is reloaded, because they are column defaults.
- Query execution (`parent::first`, `parent::getModels`, `get`, `max`, SQL generation) is left out. Navigation is a first-match search over the rows, and `Builder` models only what it adds to the query.
- Transactions, connections and concurrency are left out; the archive-then-update closure is one sequential step.
- `getNextModelId` is a parameter (`generatedModelId`), required to be unused in the table. UUID generation is not modelled.
- PHP loose typing is left out. The current flag is a boolean, so the `== 0` at src/Traits/Versioned.php:51 and the `=== true` at src/Traits/Versioned.php:284 are read as their intent. `version === 1` is read with an integer version.
- VersioningScope.Remove: only a binding equal to the integer 1 counts as `== 1`. The loose comparison would also accept the string "1", `true` or 1.0.
- VersioningScope.Remove: only where bindings are modelled. `getBindings` also flattens bindings of other query parts (joins, havings), which would shift the positions `bindKey` points at.
- The macro registration in `extend` (src/Scopes/VersioningScope.php:48-53) is left out; the two macros are the fixed methods `WithOldVersions` and `OnlyOldVersions`.
- Timestamps, `finishSave` beyond syncing the original values, `touchOwners` and relations are left out.
- `getKeyName` (src/Traits/AppendedVersioning.php:36-39) only defers to the framework and is left out. The primary key is `id`.
- Column getters are constants of `Columns`. `newEloquentBuilder` and `bootVersioned` only wire classes together and are left out.
- Eloquent.Dirty: compares values strictly. The framework's `getDirty` also counts a value as clean when it is numerically equal to the original (`1` against `"1"`); here such a value is dirty, so the model versions a save that the source would treat as clean.
- Values are null, integers and strings. Floats, booleans and dates, and their string forms in `array_diff`, are left out.
