# Cloud back end: a verified model

A point-of-sale cloud authors menus, fees, translations and settings, compiles them, and publishes them to
stores as nodes of a versioned configuration document. This project models the parts of that back end whose
correctness spans several functions or a whole run, and proves what they promise. Where the code and a
comment or document disagree, the model follows the code, and the disagreement is proved.

The modules, by component:

- **The configuration tree.** `Json` (layer merging, merge patches, diffs), `ConfigTree` (four layers, the
  version history, publish and rollback), `ConfigSync` (what a store that pulls ends up running).
- **Conditional publishing.** `ConditionalWrites` (any number of writers, each loading a versioned row and
  saving on condition that nobody saved since, as a state machine over every interleaving), `Publishing`
  (the three kinds of configuration write: a node publish, an authored layer, a rollback), `PublishLoop`
  (one caller's bounded retry as a loop over a shared store), `LayerWrites`, `ConfirmedValues`, `DenyList`
  (the read-merge-append of retired devices).
- **QR ordering.** `QrOrdering` (one switch and the two older facts that must agree with it), `QrWrites`
  (what a store runs after a write), `QrRuns` (agreement over every run), `DataMigrations` and `Migration`
  (the one-time change, cut off anywhere and started again).
- **CSV.** `CsvText` (the formula escape and the trim), `GridImport` and `TranslationsCsv`, `Ulid` and
  `ItemsCsv`.
- **The menu compiler.** `MenuGraph` (inheritance, the cycle check, the chain), `Catalog` (entities),
  `MenuMeaning` (what a menu compiles to, said without the loops), `MenuCompiler` (the loops, proved to
  build that), `MenuBooks` (what a book says), `MenuOrder` (the order of the authoring lists does not
  matter).
- **The layout compiler.** `Layouts`, `LayoutMeaning`.
- **Fees and faults.** `FeeRules` (the store of rules, and the rule a store runs), `FeeCompile`,
  `ClassBases`, `MenuFaults`.
- **Change analysis.** `Closure`, `Changes`, `Affected`.
- **Shared.** `Outcomes`, `Ordered` (listing a set in order, as an ordered map iterates), `Lists`,
  `Grouping` (a stable sort, keys by first appearance, and that grouping conserves).

What the proofs found:

- The comment on `diff` says that applying the difference always gives the target back. It does not when a
  layer newly writes a `null`. `Json.NewNullIsLost` shows one, and `Json.PatchRoundTrip` gives the exact
  condition.
- The comment on the ULID alphabet says exactly one text maps to each identifier. Lower case is accepted, so
  it does not. `Ulid.LowerCaseReadsTheSame` shows two, and `Ulid.ParsedText` gives the exact condition.
- A write that touches one of the three QR facts leaves them in agreement except when it makes the switch or
  the `qr` node unreadable: `QrWrites.AlignedWriteExactly`. Settling makes them agree exactly for a document
  that is an object: `QrOrdering.SettlePreservesMeaning`.
- Rolling a store back can take its QR facts out of agreement. The rollback settles only versions from before
  the one-time change, and a store that had not set its switch yet may have published later ones.
  `QrRuns.RollbackUndoesAgreement` shows one, and `QrRuns.RollbackAgreesExactly` gives the exact condition.
- A store that was out of agreement is left so by the one-time change exactly when the cloud would refuse the
  document its switch leads to: `Migration.MigrationIsCrashSafe`. The validator reads none of the three facts, so that is
  exactly when the document the store already runs no longer validates: `Migration.ValidStoresEndAligned`, with
  such a store in `Migration.RefusedStore`. A store left so may stop taking QR orders, or start: intake now reads
  the switch, which was not brought into line for it. `Migration.StoresTakeAsBefore` gives the exact condition, and the store of
  `Migration.RefusedStore` took QR orders and stops.
- The menu fault check also looks at a channel row hidden behind an earlier row of the same channel, which no
  sale is made from: `MenuFaults.HiddenRowFaulted`, with the exact relation in `MenuFaults.RowsRatedExactly`.
- A comment on the authoring model speaks of a price falling through to a parent menu per channel. The
  compiler takes the nearest menu's placement of an item whole, and so does the model
  (`MenuMeaning.Nearest`, `MenuBooks.BookSells`).

## Model

| member | source | states |
|---|---|---|
| `Json.PatchRoundTrip` | crates/pos-cloud-config/src/config_tree/merge.rs:52-110 | applying the difference of two documents to the first gives the second exactly when no member that is new, or newly an object, carries a `null`: the claimed invariant with its exact condition |
| `Json.FreshPatch` | crates/pos-cloud-config/src/config_tree/merge.rs:52-75 | a value patched onto nothing arrives whole exactly when it holds no `null` member |
| `Json.NullFreePatchable` | crates/pos-cloud-config/src/config_tree/merge.rs:77-110 | a document without a `null` is always delivered exactly by a difference |
| `Json.NewNullIsLost` | crates/pos-cloud-config/src/config_tree/merge.rs:77-110 | a pair of documents for which the claimed invariant fails |
| `Json.MergeLayersNullFree` | crates/pos-cloud-config/src/config_tree/merge.rs:22-45 | layers without a `null` merge to a document without one |
| `ConfigTree.RestoreReinstates` | crates/pos-cloud-config/src/config_tree/tree.rs:365-393 | a rollback to a version known makes the layers compose to that version's whole document, settled, whichever layer each member came from |
| `ConfigSync.PullReachesCurrent` | crates/pos-cloud-config/src/config_tree/tree.rs:429-459 | a pull by a store in step brings it to the current version, and to the current document exactly when no patch was sent or the patch can say it |
| `ConfigSync.StepKeepsSound` | crates/pos-cloud-config/src/config_tree/tree.rs:259-459 | each publish, rollback (settling the document or not) and pull keeps the fleet sound |
| `ConfigSync.StoreStaysInStep` | crates/pos-cloud-config/src/config_tree/tree.rs:424-459 | over every run of publishes, rollbacks (settling or not) and pulls that author no `null`, the store runs the very document of the version it reports |
| `LayerWrites.LayerWithNodes` | crates/pos-cloud-config/src/publish.rs:329-347 | the written layer is the old one with each key at the last value the write gives it; a missing layer or one that is no object counts as empty |
| `ConditionalWrites.RaceLostToARival` | crates/pos-cloud-config/src/publish.rs:225-241 | a save lands exactly when nobody committed since its load; otherwise every commit since is somebody else's |
| `ConditionalWrites.NextKeepsInv` | crates/pos-cloud-config/src/registry.rs:155-162 | each load, refusal, commit and lost race keeps the serial account of the row, and that a writer has lost no more races than others committed since its first load |
| `ConditionalWrites.EveryRunIsSerial` | crates/pos-cloud-config/src/publish.rs:186-246 | in every interleaving of any number of writers the stored row is the committed changes applied one after another in commit order, each accepted on the row before it; a refused or given-up writer is nowhere in it, a committed one once; giving up takes at least as many commits by others, between the writer's own first load and its last save, as it had attempts |
| `ConditionalWrites.FactSurvives` | crates/pos-cloud-config/src/publish.rs:186-246 | a fact one commit establishes and every later change keeps is true of the row at the end |
| `Publishing.CheckPrerequisites` | crates/pos-cloud-config/src/publish.rs:279-322 | the answer is none exactly when every needed node is there or in the write |
| `Publishing.NamesFirstMissing` | crates/pos-cloud-config/src/publish.rs:279-322 | otherwise the refusal names the first need missing, in the order the nodes and their needs are listed |
| `Publishing.AcceptedStartsNothing` | crates/pos-cloud-config/src/setting_refusal.rs:102-155 | a write let through starts no value that needs confirming, unless it republishes the settings |
| `Publishing.AttemptLayer` | crates/pos-cloud/src/http/authored_layer.rs:29-69 | what each kind of write leaves under a key of a layer: the value a publish sets, the authored layer itself, a rollback's flattened and settled document, or the value that was there |
| `Publishing.EveryRunIsWellKept` | crates/pos-cloud-config/src/config_tree/tree.rs:259-393 | in every interleaving of node publishes, authored layers and rollbacks the last version is the document the layers compose to, and every version is an object |
| `Publishing.CommittedKeySurvives` | crates/pos-cloud-config/src/publish.rs:186-246 | a key a publish committed holds the value it committed after any later commits that do not write that key on that layer |
| `Publishing.ConfirmedSince` | crates/pos-cloud-config/src/confirmed_values.rs:42-58 | along any commit log, a value that needs confirming and is run now was run at every commit back to the start or to a settings republish |
| `Publishing.RunsOnlyConfirmedValues` | crates/pos-cloud-config/src/setting_refusal.rs:111-155 | the same over every interleaving of node publishes, authored layers, rollbacks and settings republishes |
| `PublishLoop.TreeStore.Save` | crates/adapters/store-postgres/src/config_trees.rs:268-322 | the precondition is decided at write time: an expected version that is current is replaced under a new one, anything else is refused and nothing is written |
| `PublishLoop.TreeStore.Interleave` | crates/pos-cloud-catalog/src/tax.rs:196-205 | other writers' saves between a load and a save land in order, under versions not seen before |
| `PublishLoop.PublishNodes` | crates/pos-cloud-config/src/publish.rs:186-246 | a publish that lands was composed on the tree it replaced; a refusal was decided on the tree just read; giving up lost all three tries to saves by others; nothing else is added to what others saved |
| `ConfirmedValues.Check` | crates/pos-cloud-config/src/confirmed_values.rs:42-63 | none exactly when the write starts no value that needs confirming; otherwise the first such setting in the register's order |
| `DenyList.RevocationLands` | crates/pos-cloud-devices/src/routes/revoke.rs:231-264 | a landed retirement puts the device on the list the store runs and keeps every device there |
| `DenyList.OtherPublishLands` | crates/pos-cloud-config/src/publish.rs:329-347 | any other landed publish leaves that list as it was |
| `DenyList.NoRetirementIsLost` | crates/pos-cloud-devices/src/routes/revoke.rs:231-264 | in every interleaving of retirements and other publishes, each committed retirement's device is on the list the store runs, and so is every device on the list it started with |
| `QrOrdering.ComposeKeepsMeaning` | crates/pos-cloud-config/src/qr_ordering.rs:176-189 | composing a list leaves empty exactly what was empty, keeps the other tokens in order, and admits QR as the switch says |
| `QrOrdering.AlignedRunsAsBefore` | crates/pos-cloud-config/src/qr_ordering.rs:138-159 | on an aligned document, switch on and list admitting QR equals what the store took before the switch, the empty list and the QR-only list included |
| `QrOrdering.SettledMembers` | crates/pos-cloud-config/src/qr_ordering.rs:308-338 | what each of the three reads as in a settled document |
| `QrOrdering.SettlePreservesMeaning` | crates/pos-cloud-config/src/qr_ordering.rs:308-338 | settling aligns exactly a document that is an object, is idempotent, changes nothing the store takes, and touches no other member |
| `QrOrdering.Align` | crates/pos-cloud-config/src/qr_ordering.rs:234-298 | the node list edited in place and extended is the alignment the later proofs are about |
| `QrWrites.SwitchAfterWrite` | crates/pos-cloud-config/src/qr_ordering.rs:234-298 | the switch the composed document reads after an aligned write |
| `QrWrites.QrAfterWrite` | crates/pos-cloud-config/src/qr_ordering.rs:234-298 | `qr.enabled` then follows the switch, unless the write made the node unreadable |
| `QrWrites.ChannelsAfterWrite` | crates/pos-cloud-config/src/qr_ordering.rs:234-298 | the channel list then is the composed list for that switch |
| `QrWrites.AlignedWriteExactly` | crates/pos-cloud-config/src/qr_ordering.rs:234-298 | a Store-layer write of any of the three leaves an aligned document exactly when it does not make the switch or `qr` unreadable against it |
| `QrWrites.OtherWriteKeepsThree` | crates/pos-cloud-config/src/publish.rs:199-207 | a write of anything else leaves the three as they read |
| `QrRuns.StorePublishAgrees` | crates/pos-cloud-config/src/publish.rs:199-224 | a well-formed Store-layer publish leaves the three in agreement, in the document the store runs and in the version it appends |
| `QrRuns.RollbackAgreesExactly` | crates/pos-cloud/src/http/config_publish/versions.rs:403-428 | of any tree a run can leave, an accepted rollback runs an aligned document exactly when the version it names is from before the switch or was aligned itself |
| `QrRuns.SwitchedIsReached` | crates/pos-cloud-config/src/publish.rs:199-224 | two accepted publishes bring an unpublished store to a named tree: a version without the switch, then its switch |
| `QrRuns.RollbackUndoesAgreement` | crates/pos-cloud/src/http/config_publish/versions.rs:418-427 | from that tree, whose three agree, a rollback to the first version is accepted and leaves them out of agreement |
| `QrRuns.RollbackAgrees` | crates/pos-cloud/src/http/config_publish/versions.rs:403-428 | a rollback keeps the three in agreement when the version it names is from before the switch or was aligned |
| `QrRuns.AgreementSurvivesEveryRun` | crates/pos-cloud-config/src/qr_ordering.rs:155-189 | in every interleaving of well-formed publishes and rollbacks an aligned store stays aligned, and what it takes by its switch and its list is what its document meant before the switch, as long as every version a rollback names that the store already had, published since the switch, was aligned |
| `DataMigrations.InMemoryDataMigrations.Record` | crates/pos-cloud-config/src/data_migrations.rs:93-106 | the first time written stays; a new name past the bound is refused and changes nothing |
| `Migration.SettleStoreKeepsMeaning` | crates/pos-cloud-config/src/qr_ordering.rs:465-515 | setting one store's switch aligns it by one new version, and it then takes QR orders, by its switch, exactly as it did before there was one, as does a store that was aligned already; otherwise the store is left as it was |
| `Migration.SettleStoreOnce` | crates/pos-cloud-config/src/qr_ordering.rs:465-515 | a store settled, or refused, is left so by any later settling |
| `Migration.SwitchAccepted` | crates/pos-cloud-config/src/qr_ordering.rs:490-515 | the publish of a store's switch is accepted exactly when the document it leads to validates and starts no value that needs confirming; no prerequisite ever refuses it |
| `Migration.RunOnce` | crates/pos-cloud-config/src/qr_ordering.rs:409-458 | a recorded change does nothing; otherwise every listed store is settled in order, each counted once, the published count is the versions added, and the record carries the time the call began at; it is the boot of the later results that was not cut off |
| `Migration.FirstCompletedBootRecords` | crates/pos-cloud-config/src/qr_ordering.rs:409-458 | over any boots, nothing is on record exactly while none completed, and then the first completed boot's time is |
| `Migration.MigrationIsCrashSafe` | crates/pos-cloud-config/src/qr_ordering.rs:409-515 | over any boots cut off anywhere no store gains more than one version, and a store that gained one is aligned and reads, before the switch, as it did; once one boot completed, a configured store is aligned exactly when it already was or the cloud lets its switch be set |
| `Migration.SettleableExactly` | crates/pos-cloud-config/src/config_tree/validate.rs:60-82 | for a validator and a register that, like the code's, read none of the three, a store's switch can be set exactly when the document it runs validates |
| `Migration.ValidStoresEndAligned` | crates/pos-cloud-config/src/qr_ordering.rs:409-515 | then, once a boot completed, a configured store is aligned exactly when it was already or the document it ran validates |
| `Migration.StoresTakeAsBefore` | crates/pos-cloud/src/qr_http.rs:220-229 | once a boot completed, a configured store takes QR orders, by its switch and its list, exactly as it did before there was a switch if and only if its three agreed, or the cloud lets its switch be set, or its list refuses QR or its switch already says what `qr.enabled` reads as |
| `Migration.ValidStoresTakeAsBefore` | crates/pos-cloud/src/qr_http.rs:220-229 | the same under a validator and a register that read none of the three, with the document the store ran validating in place of the switch being let through |
| `Migration.RefusedStore` | crates/pos-cloud-config/src/qr_ordering.rs:465-515 | a named store running both pay-first and tables, which the validator would refuse today: its switch is refused, so that it stays out of agreement; it took QR orders and stops |
| `Migration.RecordedIsFinal` | crates/pos-cloud-config/src/data_migrations.rs:83-106 | once recorded, no later boot changes a tree or the time on record |
| `CsvText.EscapeUndone` | crates/pos-cloud-api/src/csv_file.rs:13-44 | the escape is undone exactly for every text, and no escaped cell starts with a formula trigger |
| `CsvText.CellRoundTrip` | crates/pos-cloud-catalog/src/import.rs:623-627 | a text written to a cell and read back is the same exactly when the trim spares it |
| `CsvText.ReadIsKept` | crates/pos-cloud-catalog/src/import.rs:623-627 | whatever is read from a cell is a text the trim spares |
| `GridImport.Merge` | crates/pos-cloud-catalog/src/import.rs:120-175 | the merged grid is the existing one with each imported key from its last valid row; every row gets its verdict; the counts count the verdicts |
| `GridImport.GrowthIsTheCreates` | crates/pos-cloud-catalog/src/import.rs:97-181 | the grid grows by at most the report's create count, and by exactly it when and only when no new key repeats |
| `TranslationsCsv.Export` | crates/pos-cloud-catalog/src/export.rs:94-126 | the file is a header of the union of the locales and a row per key, both in text order, absent strings blank |
| `TranslationsCsv.ReadRow` | crates/pos-cloud-catalog/src/import.rs:120-160 | the loop over a row's cells gives the row's reading: rejected, or its key and strings |
| `TranslationsCsv.Parse` | crates/pos-cloud-catalog/src/import.rs:97-181 | an error exactly for a wrong header; otherwise the merge of the readings of all rows |
| `TranslationsCsv.ImportKeepsFallback` | crates/pos-cloud-catalog/src/import.rs:97-181 | a grid whose every key has an `en` value still has one for every key after any file |
| `TranslationsCsv.ImportedIsPortable` | crates/pos-cloud-catalog/src/import.rs:97-181 | whatever the file, what it imports into an empty grid is portable |
| `TranslationsCsv.ExportedGridImports` | crates/pos-cloud-catalog/src/export.rs:94-126 | a grid written out reads into an empty grid as itself exactly when it is portable, and then no row is rejected |
| `TranslationsCsv.RoundTrip` | crates/pos-cloud-catalog/src/import.rs:97-181 | export then import gives the grid back exactly when it is portable |
| `Ulid.TextRoundTrip` | crates/pos-proto/src/ulid.rs:88-182 | every 128-bit identifier is read back from its text |
| `Ulid.ParsedText` | crates/pos-proto/src/ulid.rs:88-182 | what a text reads as is in range and its own text is the upper case of it; it is that text exactly when the text has no lower case letter |
| `Ulid.LowerCaseReadsTheSame` | crates/pos-proto/src/ulid.rs:81-87 | two named texts, differing in the case of the last letter, that read as the identifier 10 |
| `ItemsCsv.Export` | crates/pos-cloud-catalog/src/export.rs:50-82 | a header, then a row per item in order |
| `ItemsCsv.ParseItems` | crates/pos-cloud-catalog/src/import.rs:257-300 | the verdict of every row in file order, and the writes of those not rejected; an error exactly for a wrong header |
| `ItemsCsv.CountsPartition` | crates/pos-cloud-catalog/src/import.rs:359-380 | creates, updates and rejects partition the rows, and the writes are the rows not rejected |
| `ItemsCsv.UpdateKeepsTheRest` | crates/pos-cloud-catalog/src/import.rs:323-356 | an update is of an item the tenant has, at the version read, and keeps what the file does not carry |
| `ItemsCsv.ItemRowReads` | crates/pos-cloud-catalog/src/import.rs:388-428 | an item's row reads as its fields exactly when its name is not blank and its references are known |
| `ItemsCsv.ExportedRowImports` | crates/pos-cloud-catalog/src/import.rs:323-428 | a stored item's exported row imports as an update equal to it in every field at its own version exactly when the item is portable |
| `ItemsCsv.RoundTrip` | crates/pos-cloud-catalog/src/import.rs:257-300 | of an exported master, the rows of portable items and no others import as an update equal to the item as stored; when all are portable that is one update per item, in order, with nothing rejected |
| `MenuGraph.WouldCycle` | crates/pos-cloud-catalog/src/catalog_compiler.rs:89-108 | ends on any stored graph, and is true exactly when the menu is reached from the proposed parent |
| `MenuGraph.AllowedReparentingKeepsAcyclic` | crates/pos-cloud-catalog/src/catalog_compiler.rs:89-108 | an allowed re-parenting of a graph without loops makes none |
| `MenuGraph.AllowedEditsKeepAcyclic` | crates/pos-cloud-catalog/src/catalog_compiler.rs:89-108 | neither does any sequence of them, each allowed on the graph as it then stood |
| `MenuGraph.MenuChain` | crates/pos-cloud-catalog/src/catalog_compiler.rs:235-257 | the loop's chain or error is the walk's |
| `MenuGraph.ChainMeaning` | crates/pos-cloud-catalog/src/catalog_compiler.rs:235-257 | a chain is found exactly when the walk up ends with every menu known and active, and it is that walk |
| `MenuGraph.AcyclicNeverCycles` | crates/pos-cloud-catalog/src/catalog_compiler.rs:235-257 | on a graph without loops no root is answered with a cycle |
| `MenuCompiler.ActiveGroups` | crates/pos-cloud-catalog/src/catalog_compiler.rs:214-232 | the active groups by id, and the inversion: each item's active groups |
| `MenuMeaning.AttachmentsAre` | crates/pos-cloud-catalog/src/catalog_compiler.rs:214-232 | an item is in the inversion exactly when an active group is attached to it, with exactly those groups |
| `MenuCompiler.ResolvePlacements` | crates/pos-cloud-catalog/src/catalog_compiler.rs:260-282 | resolution grouped by menu equals scanning every placement for each menu of the chain |
| `MenuBooks.NearestIsNearest` | crates/pos-cloud-catalog/src/catalog_compiler.rs:273-281 | the placement found is the first one on the nearest menu of the chain that places the item at all |
| `MenuCompiler.EntriesByChannel` | crates/pos-cloud-catalog/src/catalog_compiler.rs:288-325 | every channel's entries in item order, or the least placed item the catalog does not carry |
| `MenuMeaning.EntriesOnAre` | crates/pos-cloud-catalog/src/catalog_compiler.rs:288-325 | a channel's entries are exactly the active, known, placed items priced on it, at each price |
| `MenuCompiler.PublishEach` | crates/pos-cloud-catalog/src/catalog_compiler.rs:435-460 | the groups the channel can offer, with the members it prices in order; counting members in 16 bits changes no answer |
| `MenuCompiler.PublishableGroups` | crates/pos-cloud-catalog/src/catalog_compiler.rs:425-474 | the groups published, and the entries with every other group id stripped in place |
| `MenuCompiler.CatalogFor` | crates/pos-cloud-catalog/src/catalog_compiler.rs:334-347 | one channel's catalog is its stripped entries, its groups and its courses |
| `MenuCompiler.MenuBook` | crates/pos-cloud-catalog/src/catalog_compiler.rs:328-349 | the book is the channels that have entries, in wire order, each with its catalog |
| `MenuCompiler.CompileMenu` | crates/pos-cloud-catalog/src/catalog_compiler.rs:177-202 | the whole compiler answers what the menu means, the error included |
| `MenuBooks.CompilesExactly` | crates/pos-cloud-catalog/src/catalog_compiler.rs:177-202 | a menu compiles exactly when the walk up from it ends with every menu known and active and every item placed along the way is in the catalog |
| `MenuBooks.BookSells` | crates/pos-cloud-catalog/src/catalog_compiler.rs:260-325 | a channel sells an item at a price exactly when the item is active and the nearest menu placing it prices it so there; the entry's name, translations, tax class and availability are the item's and that placement's |
| `MenuBooks.BookInOrder` | crates/pos-cloud-catalog/src/catalog_compiler.rs:22-25 | channels in wire order, none twice, each with at least one entry; entries in item order |
| `MenuBooks.ServedInOrder` | crates/pos-cloud-catalog/src/catalog_compiler.rs:357-378 | courses come strictly by (sort, id), each as authored |
| `MenuBooks.CatalogIsClosed` | crates/pos-cloud-catalog/src/catalog_compiler.rs:357-474 | one channel's catalog is closed under references both ways, its groups ascending by id |
| `MenuBooks.BookClosed` | crates/pos-cloud-catalog/src/catalog_compiler.rs:357-474 | in every compiled catalog an entry names exactly the active groups attached to its item that the channel can offer, and its item's course exactly if active; the groups and courses carried are exactly those named, the groups ascending by id and the courses in service order; each group lists exactly its priced members, at least one and at least as many as must be picked |
| `MenuOrder.CompilesTheSame` | crates/pos-cloud-catalog/src/catalog_compiler.rs:22-25 | reordering the items, menus, placements, groups, courses, a group's attachments or a placement's prices leaves the book, or the refusal, identical |
| `Layouts.PlaceableButtons` | crates/pos-cloud-catalog/src/catalog_compiler.rs:520-553 | each channel's usable buttons in the order authored, and no channel without one |
| `Layouts.CategoryOrder` | crates/pos-cloud-catalog/src/catalog_compiler.rs:570-576 | the categories by first button |
| `Layouts.DisplayCategoryOf` | crates/pos-cloud-catalog/src/catalog_compiler.rs:594-638 | a category's direct buttons, then its sub-categories by first button, none skipped |
| `Layouts.DisplayPlan` | crates/pos-cloud-catalog/src/catalog_compiler.rs:557-590 | one channel's plan, no category skipped |
| `Layouts.CompileLayoutBook` | crates/pos-cloud-catalog/src/catalog_compiler.rs:491-517 | the whole layout compiler builds the book the later proofs are about |
| `LayoutMeaning.LayoutConserves` | crates/pos-cloud-catalog/src/catalog_compiler.rs:491-638 | the book shows every usable button exactly once, in its own channel, category and sub-category, and nothing else |
| `LayoutMeaning.SlotsInOrder` | crates/pos-cloud-catalog/src/catalog_compiler.rs:562-568 | every slot shows exactly its own buttons by (sort, item id), those that tie in the order authored |
| `LayoutMeaning.CategoriesInOrder` | crates/pos-cloud-catalog/src/catalog_compiler.rs:570-589 | a plan's categories are exactly those of its buttons, each once, ascending by least (sort, item id) |
| `LayoutMeaning.PlanSubsInOrder` | crates/pos-cloud-catalog/src/catalog_compiler.rs:607-632 | so are each category's sub-categories, of the buttons in it that name one |
| `LayoutMeaning.LayoutRows` | crates/pos-cloud-catalog/src/catalog_compiler.rs:510-517 | the compiled book has a row for exactly the channels with a usable button, in wire order, and each row shows the channel's usable buttons with categories, sub-categories and slots in the order of the three results above |
| `FeeRules.RunValid` | crates/pos-cloud-catalog/src/fees.rs:251-287 | over any run of puts and deletes the tenant and rule bounds hold, every rule is in its own slot, and no tenant is kept without a rule |
| `FeeRules.InMemoryFeeRules.List` | crates/pos-cloud-catalog/src/fees.rs:243-249 | exactly the tenant's rules, each once, by scope token, scope id and fee id |
| `FeeRules.InMemoryFeeRules.Put` | crates/pos-cloud-catalog/src/fees.rs:251-269 | stored exactly when the scope is writable and the bounds allow; then one slot changes; a refused put changes nothing |
| `FeeRules.InMemoryFeeRules.Delete` | crates/pos-cloud-catalog/src/fees.rs:271-287 | the slot is emptied, says whether it held a rule, and a tenant's last rule takes the tenant with it |
| `FeeRules.ResolveForStore` | crates/pos-cloud-catalog/src/fees.rs:309-320 | the loop gives, in fee-id order, exactly one rule for each fee that reaches the store: the most specific |
| `FeeRules.WinnerIsChosen` | crates/pos-cloud-catalog/src/fees.rs:85-92 | whatever the list order, that rule is the store's own, else its brand's, else its tenant's |
| `FeeRules.ResolvesTheSame` | crates/pos-cloud-catalog/src/fees.rs:303-320 | two listings of one tenant's rules resolve to the same list |
| `FeeRules.WritesStayLocal` | crates/pos-cloud-catalog/src/fees.rs:139-146 | a write changes what a store runs only for its own fee and only where its slot reaches |
| `FeeRules.RunStaysLocal` | crates/pos-cloud-catalog/src/fees.rs:251-287 | over any run of writes, a fee none of them touches at a store runs there as before |
| `FeeRules.RunResolves` | crates/pos-cloud-catalog/src/fees.rs:309-320 | after any run of writes from empty, a store's resolved list is each fee's own, brand's or tenant's rule, once, in order, for exactly the fees that have one |
| `FeeRules.StoreRuleOverridesThenHandsBack` | crates/pos-cloud-catalog/src/fees.rs:182-212 | a store's rule put runs there; deleted, the store is handed back its brand's or its tenant's |
| `FeeRules.BrandRuleOverridesThenHandsBack` | crates/pos-cloud-catalog/src/fees.rs:182-212 | a brand's rule put runs at its stores without their own; deleted, those are handed back their tenant's, and a store with its own runs that throughout |
| `FeeCompile.FromCatalog` | crates/pos-cloud-catalog/src/fees.rs:346-363 | each category holds exactly the active items in it |
| `FeeCompile.Compile` | crates/pos-cloud-catalog/src/fees.rs:373-392 | the compiled rule counts exactly the items the authored one does; its list is in id order without repeats; it never excludes an empty list; nothing else changes |
| `FeeCompile.CountsByCatalog` | crates/pos-proto/src/fees.rs:392-401 | against the catalog, a rule names an item by itself or by a named category that holds it actively |
| `ClassBases.GroupByClass` | crates/pos-cloud-catalog/src/fees.rs:686-703 | each class once in first-seen order with its lines' sum, the bases summing to the lines; or the error at the first line that cannot be added |
| `ClassBases.OneCurrencyGroups` | crates/pos-proto/src/money.rs:244-250 | in one currency the lines group exactly when every running class sum stays within 64 bits |
| `MenuFaults.Faults` | crates/pos-cloud-catalog/src/menu_faults.rs:38-79 | exactly the faults of the rows on their channels and of the fallback on the rated channels without a row, each once, in order; none without a menu |
| `MenuFaults.NoFaultsExactly` | crates/pos-cloud-catalog/src/menu_faults.rs:38-91 | there is no fault exactly when every price is in the store's currency and every row and the fallback are rated where they are sold, as far as the store has those facts |
| `MenuFaults.RowsRatedIsSound` | crates/pos-cloud-catalog/src/menu_faults.rs:44-57 | a menu without faults sells nothing, on any channel with a row or a rate, that its store has no rate for |
| `MenuFaults.RowsRatedExactly` | crates/pos-cloud-catalog/src/menu_faults.rs:44-57 | the rates found wanting are exactly those of what a channel sells and of rows hidden behind another of their channel |
| `MenuFaults.HiddenRowFaulted` | crates/pos-proto/src/menu.rs:597-604 | a named menu whose every sale is rated and in currency and which has a fault |
| `Closure.DependentClosure` | xtask/src/affected.rs:290-309 | the worklist ends on any dependency relation and gives the least set that holds the seeds and is closed under dependents |
| `Closure.ClosureMonotone` | xtask/src/affected.rs:281-309 | more seeds never give fewer crates |
| `Changes.ClassifyBy` | xtask/src/affected.rs:122-174 | the loop's classes are the union over the files, documentation only when every file is |
| `Affected.ClassesOfTwoChanges` | xtask/src/affected.rs:122-174 | under this repository's own file tables, two changes together have the union of their classes, documentation only exactly when both are |
| `Changes.Owner` | xtask/src/affected.rs:271-278 | the crate whose directory holds the path, the deepest |
| `Changes.AffectedBy` | xtask/src/affected.rs:281-309 | the whole workspace when some file is unsure, otherwise the least closed set over the crates that own or read a changed file |
| `Changes.MoreFilesAffectMore` | xtask/src/affected.rs:281-309 | a list of changed files that includes another, in any order, never affects fewer crates |
| `Affected.Classify` | xtask/src/affected.rs:44-174 | the classification by the repository's own tables |
| `Affected.AffectedPackages` | xtask/src/affected.rs:281-309 | the affected crates by the repository's own tables |

## Left out

- PublishLoop.PublishNodes: what others save between a load and a save is given as data, and version ids are given, because the clock and the entropy they come from are not modelled.
- Publishing.CommittedKeySurvives: speaks of the layer, because a more specific layer may hold the same key over it in the document.
- Migration.MigrationIsCrashSafe: assumes no other writer and no store outage during the change, and every listing complete, as the source's own account of it does; that a store's last version is what its layers compose to is proved of every run (`Publishing.EveryRunIsWellKept`).
- Migration.SettleStoreKeepsMeaning: takes the Device layer as silent on the three facts, because a device's own value stands over what a store is published.
- Migration.SettleableExactly: that the capability validator and the settings register read none of the three facts is a condition on the cloud, because the validator is an arbitrary predicate here.
- Migration.ValidStoresEndAligned: likewise.
- Migration.ValidStoresTakeAsBefore: likewise.
- Migration.StoresTakeAsBefore: assumes no other writer and no store outage during the change, and every listing complete, as `Migration.MigrationIsCrashSafe` does; of what intake reads, the switch and the channel list alone are modelled.
- Migration.SettleStoreOnce: takes the Device layer as silent on the three facts, for the same reason.
- QrWrites.SwitchAfterWrite: takes the keys of one write as distinct and the Device layer as silent on the three facts; a write that repeats a key is not covered.
- QrWrites.QrAfterWrite: likewise.
- QrWrites.ChannelsAfterWrite: likewise.
- QrWrites.AlignedWriteExactly: likewise.
- QrWrites.OtherWriteKeepsThree: takes the Device layer as silent on the three facts.
- QrRuns.StorePublishAgrees: takes the switch and the `qr` node of a write as readable; `QrWrites.AlignedWriteExactly` says what happens otherwise.
- DenyList.NoRetirementIsLost: takes the Device layer as carrying no list of its own, and covers node publishes, because a rollback or a hand-authored layer may well put an older list back.
- DenyList.RevocationLands: takes the Device layer as carrying no list of its own.
- DenyList.OtherPublishLands: takes the Device layer as carrying no list of its own.
- QrRuns.AgreementSurvivesEveryRun: asks that the versions the rollbacks name agree, unless they are from before the switch, because otherwise it is false (`QrRuns.RollbackUndoesAgreement`); takes the Device layer as silent on the three facts and every layer as an object, and covers node publishes and rollbacks, because a hand-authored layer is not aligned by the code.
- MenuOrder.CompilesTheSame: takes ids as unique in each list, one placement per menu and item, and one price row per channel, because with repeats the code keeps the last or the first listed.
- Configuration validation: the validator is an arbitrary predicate on documents, and the settings register an arbitrary list.
- A compose step that keeps state between attempts: it is a function of the tree it reads.
- The list of node keys a version records is a set: order and repeats in it are not modelled.
- Update in place inside a JSON value: merging, patching and settling are functions from document to document.
- The positional array form serde would accept for a `channels` node: only the object form is read.
- Sorting and ordered collections of the standard library: a stable sort by insertion, and the listing of a set in order, stand for them.
- CSV quoting and encoding: a file is rows of cells.
- The rate, amount, tax treatment and channels of a fee, and the fault check on a fee: resolution, compilation and class bases do not read them.
- Repricing a line, assembling a bill, cash and tax rounding: a sample bill is modelled from its priced lines to its class bases.
- Store outages, entropy failures, and saves whose outcome is unknown.
- PostgreSQL adapters beyond the four answers of a save, HTTP responses, permissions, audit, paging, images, report rendering, country packs and the front ends: plumbing or easy members.
