# KDBX document tree: a Dafny model

This project models the in-memory document tree of a KDBX password
database (the `kdbxweb` library). It covers the operations its test suite
drives on a `Kdbx` database object:

- creating a database with a default group and a recycle bin;
- creating groups and entries;
- editing entry fields and pushing entry history;
- looking groups up by uuid;
- moving nodes;
- removing nodes, into the recycle bin or for good with a deleted-object
  record;
- `cleanup`, which runs three retention rules:
  - history trimming by `meta.historyMaxItems`;
  - pruning of unused custom icons;
  - pruning of unused binaries.

Layout:

- `types.dfy` (`KdbxTypes`): the values.
  - A uuid is 16 bytes, and the all-zero uuid means "unset".
  - Groups hold ordered child groups and entries.
  - Entries hold fields, attachments, an icon and history snapshots.
  - Also: the metadata and the deleted-object ledger.
- `tree.dfy`, `moves.dfy`, `unique.dfy`, `entries.dfy`, `lazybin.dfy`: the
  forest and its operations.
  - The forest is a value.
  - Groups and entries are found by uuid, in depth-first order.
  - `Detach` takes a node from its parent, `Insert` appends it to a new
    parent, and `ReplaceEntry` rewrites one entry.
  - Lemmas say which child lists each operation changes.
- `document.dfy` (`KdbxDocument`) gives each database operation as a
  function from the document before to the document after, with its error
  results. `document_facts.dfy` (`KdbxDocumentFacts`) proves what those
  functions promise.
- `retention.dfy` (`KdbxRetention`): `cleanup` and its lemmas.
- `database.dfy` (`KdbxDatabase`): the class `Kdbx`.
  - Its fields `groups`, `meta` and `deletedObjects` are updated in place by
    its methods.
  - Each method is proved to leave the fields equal to the document function
    applied to the old fields.
  - Each method is proved to keep the forest well formed: a default group
    exists, no uuid names two nodes, and the empty uuid names none.
- `scenarios.dfy` (`KdbxScenarios`) replays the cleanup tests step by step.
- `findings.dfy` (`KdbxFindings`) holds the concrete database of the finding
  below.

Node handles: the library passes group and entry objects around, and this
model names them by uuid. Every lookup resolves a uuid against the current
forest, so the forest is free of back-pointers and ownership cycles.

## Model

| member | source | states |
|---|---|---|
| KdbxDocument.Create | test/format/kdbx.spec.js:105 | a new database has one root group, named after the database, whose only child is an empty "Recycle Bin" group. The bin is enabled and its uuid is recorded. Ten history items are kept. The pools and the ledger are empty. |
| KdbxDocumentFacts.CreateWellFormed | test/format/kdbx.spec.js:102-133 | a new database is well formed, and `getGroup(meta.recycleBinUuid)` resolves to `groups[0].groups[0]`. Together with `CreateGroupAppends` this explains the two groups under the root after `createGroup`. |
| KdbxDocument.GetGroupIn | test/format/kdbx.spec.js:246-250 | `getGroup` of the empty uuid gives nothing. A group it returns carries the uuid asked for and lies in the forest. |
| KdbxDocumentFacts.DefaultGroupKept | test/format/kdbx.spec.js:106-110 | an operation that keeps the root uuids in order keeps `getDefaultGroup()`: it exists afterwards exactly when before, under the same uuid. Every document operation keeps the root uuids, and `Kdbx.CreateRecycleBin` and `Kdbx.Cleanup` use this lemma for their default-group clause. |
| KdbxDocumentFacts.CreateDefaultGroupReady | test/format/kdbx.spec.js:109 | on a database without groups, `createDefaultGroup()` gives a well-formed forest whose default group is the new empty group. |
| KdbxDocument.CreateRecycleBin | test/format/kdbx.spec.js:110 | the bin becomes enabled. A bin that already resolves is left as it is, and nothing else in the metadata or the ledger changes. |
| KdbxDocumentFacts.CreateRecycleBinReady | test/format/kdbx.spec.js:110 | afterwards the bin resolves and the forest stays well formed. A missing bin is created under the new uuid as an empty "Recycle Bin" group appended to the default group, adding exactly that uuid. Every other group keeps its children, and the default group gains only the bin at its end. |
| KdbxDocument.CreateGroup | test/format/kdbx.spec.js:106 | `InvalidArg`, with the document unchanged, exactly when the parent does not resolve. Metadata and ledger are untouched. |
| KdbxDocumentFacts.CreateGroupAppends | test/format/kdbx.spec.js:106 | with a fresh uuid the forest stays well formed and the new empty group resolves. The parent's child list grows by exactly that uuid at its end. Every group keeps its name and icon, every other group's children stay the same, and every entry is found as before. |
| KdbxDocument.CreateEntry | test/format/kdbx.spec.js:107 | `InvalidArg`, with the document unchanged, exactly when the parent does not resolve. |
| KdbxDocumentFacts.CreateEntryAppends | test/format/kdbx.spec.js:107 | the new empty entry resolves, and the parent's entry list grows by its uuid at the end. Every group keeps its name and icon, and every other group keeps its children. Every other entry is found as before, fields and history included. The forest stays well formed. |
| KdbxEntries.SetField | test/format/kdbx.spec.js:111-122 | assigning `entry.fields[name]` sets that field. The other fields keep their values, and no field is dropped. The entry's uuid, history, attachments and icon are kept. |
| KdbxDocument.UpdateEntry | test/format/kdbx.spec.js:111-122 | editing an entry that is not in the tree is `NotAttached` and changes nothing. |
| KdbxDocumentFacts.UpdateEntryReplaces | test/format/kdbx.spec.js:111-122 | after editing an attached entry, the entry resolves to its new value and every other entry is unchanged. Every group is found exactly as before, with the same name, icon and child lists. The set of uuids is the same, so the forest stays well formed. |
| KdbxEntries.ReplaceEntryKept | test/format/kdbx.spec.js:111-122 | replacing an entry where it stands touches no group: each group is found after exactly when before, with the same name, icon, child groups and child entries. |
| KdbxEntries.PushSnapshot | test/format/kdbx.spec.js:117 | `pushHistory` appends the entry's current state as the newest snapshot and keeps the older snapshots in order. |
| KdbxDocumentFacts.PushHistoryAppends | test/format/kdbx.spec.js:288-293 | pushing history on an attached entry gives that entry one more snapshot. Every other entry is unchanged, and every group is found as before with the same name, icon and child lists. The forest stays well formed. |
| KdbxTree.Detach | test/format/kdbx.spec.js:219 | taking a node out of its parent keeps the list of root groups. A node that is not found leaves the forest unchanged. |
| KdbxTree.DetachIds | test/format/kdbx.spec.js:219 | a detached node takes exactly its own subtree's uuids with it. |
| KdbxMoves.DetachShrunk | test/format/kdbx.spec.js:219 | after a detach, every group outside the node loses that node from its child lists and nothing else, and keeps its name and icon. The parent is the only group that had it. |
| KdbxTree.InsertIds | test/format/kdbx.spec.js:222 | appending a node under a resolving parent adds exactly its subtree's uuids. |
| KdbxMoves.InsertGrown | test/format/kdbx.spec.js:222 | appending a node under a parent adds its uuid at the end of that parent's groups or entries, and leaves every other group's lists unchanged. Every group keeps its name and icon. |
| KdbxEntries.FindEntryInsertedOther | test/format/kdbx.spec.js:106-107 | appending a node under a parent leaves every entry outside that node where a search finds it, unchanged. |
| KdbxMoves.InsertNew | test/format/kdbx.spec.js:222 | a group appended under a resolving parent is found again by its uuid. |
| KdbxMoves.DetachInserted | test/format/kdbx.spec.js:219-222 | detaching a node just appended gives back the forest before and the same node. |
| KdbxUnique.OccursUnique | test/format/kdbx.spec.js:214-215 | in a well-formed forest, two groups found in the tree with the same uuid are the same group. |
| KdbxUnique.DetachFindsChild | test/format/kdbx.spec.js:215-219 | the node that `remove` detaches is exactly the child the test picked from its parent. |
| KdbxLazyBin.DetachAdoptHead | test/format/kdbx.spec.js:253 | creating the bin under the default group does not change what detaching another node takes, or from where. |
| KdbxDocument.Move | test/format/kdbx.spec.js:222 | `InvalidArg` exactly when the target does not resolve or lies inside the node moved. `NotAttached` exactly when the node has no parent. On either error the document is unchanged. Metadata and ledger are never touched. |
| KdbxDocumentFacts.MoveKeepsIds | test/format/kdbx.spec.js:222 | a move that succeeds keeps the multiset of uuids, so the forest stays well formed. |
| KdbxDocumentFacts.MoveReparents | test/format/kdbx.spec.js:222 | a successful move takes the node out of its old parent's list and appends it to the target's. |
| KdbxDocumentFacts.MoveUndoable | test/format/kdbx.spec.js:222 | detaching the node after a move takes it from the target, leaving the same forest as detaching it before the move. |
| KdbxDocument.Remove | test/format/kdbx.spec.js:219 | only a permanent delete appends to the ledger, and it appends exactly `(uuid, now)`. A recycle or a refusal leaves the ledger as it was. The enabled flag is never changed. |
| KdbxDocumentFacts.RemoveRecycles | test/format/kdbx.spec.js:219 | with the bin enabled and resolving, removing a node outside the bin is a move into the bin, with no ledger record. |
| KdbxDocumentFacts.RemoveThenMoveBack | test/format/kdbx.spec.js:211-227 | removing a child group moves it to the end of the bin's group list. The parent loses one group, and metadata and ledger stay the same. Moving it back to the parent succeeds, restores the bin's child list exactly, and restores the parent's count. |
| KdbxDocumentFacts.RemoveDeletes | test/format/kdbx.spec.js:229-241 | with the bin disabled, remove deletes the node. The ledger grows by exactly one record whose uuid is the node's. The metadata is unchanged. The forest becomes the forest with the node detached. It loses exactly the node's subtree and stays well formed. Every group outside the subtree keeps its children, except that the node's parent loses the node. |
| KdbxDocumentFacts.RemoveLazyBin | test/format/kdbx.spec.js:243-261 | with the bin enabled but its uuid unresolved, remove creates the bin under a new non-empty uuid and records that uuid. The bin then resolves, its only child group is the removed group (only child entry for an entry), no ledger record is added, and the forest stays well formed. |
| KdbxDocumentFacts.RemoveLazyBinParent | test/format/kdbx.spec.js:243-261 | in the same situation, for a parent that is not the default group (the lazily created bin is appended to the default group), the removed group's parent keeps its other children in order and has one group fewer. |
| KdbxDocumentFacts.RemoveWellFormed | test/format/kdbx.spec.js:219 | every branch of remove keeps the forest well formed. |
| KdbxDocumentFacts.RecycledNodeKept | test/format/kdbx.spec.js:221 | a group removed into the bin is still in the tree, unchanged, children included. |
| KdbxFindings.RestoreLengthCheck | test/format/kdbx.spec.js:221 | on a concrete database the length check as written fails while the intended check holds (see Findings). |
| KdbxRetention.HistoryCap | test/format/kdbx.spec.js:321-335 | cleanup applies a cap only when `historyRules` is set and `historyMaxItems` is set and positive, and then the cap is that value. |
| KdbxRetention.Trim | test/format/kdbx.spec.js:310-313 | a cut history keeps the newest `min(len, max)` snapshots in their order: the oldest go first. |
| KdbxRetention.TrimOldest | test/format/kdbx.spec.js:310-313 | removing the oldest snapshot one at a time, while the history is over the cap, gives exactly `Trim`. This loop is a reference form only: `Kdbx.Cleanup` cuts histories through `TrimForest`, which uses `Trim`. |
| KdbxRetention.TrimWithin | test/format/kdbx.spec.js:293-295 | a history within the cap is kept whole. |
| KdbxRetention.TrimOver | test/format/kdbx.spec.js:310-313 | a history over the cap keeps its last `max` snapshots, so the first one kept is at position `len - max`. |
| KdbxRetention.TrimIdempotent | test/format/kdbx.spec.js:318-320 | cutting an already cut history changes nothing: cutting twice is cutting once. |
| KdbxRetention.TrimForestIds | test/format/kdbx.spec.js:281-336 | cutting histories keeps every group and entry. |
| KdbxRetention.TrimForestFindEntry | test/format/kdbx.spec.js:281-336 | after cutting, each entry found by uuid is the same entry with its history cut. |
| KdbxRetention.AttachmentRefs | test/format/kdbx.spec.js:369-374 | the binaries an attachment map uses are exactly the `ref` targets of its reference attachments. |
| KdbxRetention.Restrict | test/format/kdbx.spec.js:358-359 | the pruned pool keeps exactly the keys in use that it had, each with its old value. |
| KdbxRetention.Prune | test/format/kdbx.spec.js:381-382 | deleting unused keys one by one gives exactly `Restrict`. |
| KdbxRetention.FoundEntryUsed | test/format/kdbx.spec.js:345-350 | the icon and binary references of any entry in the tree, its history included, count as used. |
| KdbxRetention.FoundGroupUsed | test/format/kdbx.spec.js:351 | the icon of any group in the tree counts as used. |
| KdbxRetention.SnapshotUsed | test/format/kdbx.spec.js:345-349 | the icon and binary references of every history snapshot count as used by its entry. |
| KdbxRetention.HistoryIconsFrom | test/format/kdbx.spec.js:345-349 | conversely, an icon or binary counts as used by a history only when one of its snapshots refers to it. |
| KdbxRetention.IconUser | test/format/kdbx.spec.js:338-360 | every icon in use belongs to a group of the forest, or to one of that group's entries (live or in history). Nothing else counts as used. |
| KdbxRetention.RefUser | test/format/kdbx.spec.js:362-383 | every binary in use is referred to by an entry of a group of the forest (live or in history). |
| KdbxRetention.UsedExactly | test/format/kdbx.spec.js:338-383 | in a forest without repeated uuids, an icon is in use exactly when a group that its uuid resolves to, or one of that group's entries, refers to it; likewise binaries. With `CleanupPools`, cleanup deletes every pool key nothing refers to and keeps every one something refers to. |
| KdbxRetention.Cleanup | test/format/kdbx.spec.js:281-383 | cleanup cuts histories first. It then prunes the icon pool and the binary pool by what the cut tree still uses, each only when asked. It never touches the ledger or the other metadata, and it leaves the forest alone when no cap applies. |
| KdbxRetention.CleanupKeepsNodes | test/format/kdbx.spec.js:281-336 | cleanup removes no group or entry. Every uuid resolves as before, to the same node with its history cut when a cap applies. |
| KdbxRetention.CleanupIdempotent | test/format/kdbx.spec.js:326-331 | a second cleanup with the same options changes nothing. |
| KdbxScenarios.PushTitledTitles | test/format/kdbx.spec.js:288-291 | the test's loop of title assignments and pushes appends one snapshot per step, titled `"lo"`, ..., `"hi-1"` in order. |
| KdbxScenarios.PushTitledKeeps | test/format/kdbx.spec.js:345-349 | the loop keeps the entry's uuid, icon, attachments and old snapshots, and each new snapshot carries that icon and those attachments. |
| KdbxScenarios.ThreePushes | test/format/kdbx.spec.js:284-295 | three pushes give three snapshots, the first titled "0". Cleanup with cap 10 keeps them all. |
| KdbxScenarios.TenPushes | test/format/kdbx.spec.js:296-305 | ten snapshots titled from "0" stay whole under cap 10. |
| KdbxScenarios.ElevenPushes | test/format/kdbx.spec.js:306-313 | an eleventh push, then cleanup, leaves ten snapshots, the first titled "1". |
| KdbxScenarios.NineteenPushes | test/format/kdbx.spec.js:314-320 | nine more pushes make nineteen, and cleanup leaves ten, the first titled "10". |
| KdbxScenarios.UncappedPushes | test/format/kdbx.spec.js:321-335 | ten more pushes make twenty snapshots, the first titled "10". That a cleanup without a positive cap keeps them is `NoCap`. |
| KdbxScenarios.NoCap | test/format/kdbx.spec.js:325-335 | a cap of -1, no cap, or cleanup without the history rules all mean no trimming, as the test fixes. A cap of 0 means no trimming too; that case is the model's choice (see "## Left out"). |
| KdbxScenarios.ExampleUse | test/format/kdbx.spec.js:341-351 | the database built by the test uses exactly the subgroup's icon and the entry's icons and binaries. The bin and the root use none. |
| KdbxScenarios.IconCleanupScenario | test/format/kdbx.spec.js:338-360 | the pool becomes exactly `{i1, i2, i3}` with their data, and `r1`-`r3` are deleted. |
| KdbxScenarios.BinaryCleanupScenario | test/format/kdbx.spec.js:362-383 | the pool becomes exactly `{b1, b2}` with their data, and `b3` is deleted. |
| KdbxDatabase.Kdbx.Create | test/format/kdbx.spec.js:105 | the fields hold the new database, which is well formed and whose bin is `groups[0].groups[0]`. |
| KdbxDatabase.Kdbx.CreateDefaultGroup | test/format/kdbx.spec.js:109 | the fields become `CreateDefaultGroup` of the old fields: a database without groups gets its default group, and a database made by `Create` is unchanged. The forest is well formed afterwards. |
| KdbxDatabase.Kdbx.CreateRecycleBin | test/format/kdbx.spec.js:110 | the fields become `CreateRecycleBin` of the old fields. The bin is enabled and resolves, and the default group keeps its uuid. |
| KdbxDatabase.Kdbx.CreateGroup | test/format/kdbx.spec.js:106 | fields and status are those of `CreateGroup`. The forest stays well formed, and on success the new group resolves. The default group keeps its uuid. |
| KdbxDatabase.Kdbx.CreateEntry | test/format/kdbx.spec.js:107 | fields and status are those of `CreateEntry`. On success the new entry resolves, and the forest stays well formed. The default group keeps its uuid. |
| KdbxDatabase.Kdbx.UpdateEntry | test/format/kdbx.spec.js:111-122 | fields and status are those of `UpdateEntry`. On success the entry resolves to its new value. The default group keeps its uuid. |
| KdbxDatabase.Kdbx.PushHistory | test/format/kdbx.spec.js:117 | fields and status are those of `PushHistory`. On success the entry has the snapshot appended. The default group keeps its uuid. |
| KdbxDocument.PushHistory | test/format/kdbx.spec.js:117 | `pushHistory` on a uuid that names no attached entry is refused with `NotAttached` and changes nothing. Otherwise it succeeds. The metadata, the ledger and the root uuids are kept. |
| KdbxRetention.CleanupPools | test/format/kdbx.spec.js:338-383 | with the icon rule on, an icon stays in the pool exactly when it was there and is used after the history cut, and it keeps its data. The same holds for binaries with the binary rule on. |
| KdbxDatabase.Kdbx.Move | test/format/kdbx.spec.js:222 | fields and status are those of `Move`. The uuids and well-formedness are kept. The default group keeps its uuid. |
| KdbxDatabase.Kdbx.Remove | test/format/kdbx.spec.js:219 | fields and result are those of `Remove`, and the forest stays well formed. The default group keeps its uuid. |
| KdbxDatabase.Kdbx.Cleanup | test/format/kdbx.spec.js:281-383 | the fields become `Cleanup` of the old fields. Histories are cut, and the pools are pruned key by key. Every uuid is kept. The default group keeps its uuid. |

## Left out

- Loading, saving and XML export: the binary container format, key
  derivation, encryption and integrity checks are not part of this model.
  Neither are `Credentials`, key files or a wrong password.
- Metadata the tree operations never read (generator, custom data,
  timestamps of fields and times) is not modelled.
- Clocks and random uuids:
  - the deletion time is a parameter (`now`);
  - each new group, entry or lazily created bin takes its uuid as a
    parameter, which the class methods require to be unused and non-empty.
- Run-time type checks of arguments are not modelled: the types rule out
  wrong arguments.
- Object identity:
  - the test holds JavaScript references to groups;
  - the model names them by uuid and looks them up again after each
    operation, so two references to one object cannot be told apart from
    one.
- `historyMaxSize` (the byte-size cap on history) is not modelled, and only
  the item cap is.
- Protected field values are plain strings here; their in-memory
  obfuscation is not modelled.
- Where `move` puts a node: it always appends to the target. A
  position-at-index argument is not modelled.
- Two edge cases of `remove` that the test suite does not exercise are
  decided by the model:
  - a node that is already the bin, or is inside it, is deleted for good
    with a ledger record;
  - when the node contains the bin, `remove` is refused with `InvalidArg`,
    because the move would create a cycle.
- KdbxScenarios.NoCap: `historyMaxItems` of 0 is treated as unlimited, like
  any value that is not positive. The test suite only fixes -1 and unset.
- Removing or moving a root group, or a uuid that names no node:
  - `Detach` never detaches a root group, so `remove` answers
    `Refused(NotAttached)` and `move` answers `NotAttached`;
  - `remove` with the bin enabled may still have created a missing bin
    before it refuses.
- KdbxDocument.GetGroupIn: the lookup finds the first group in depth-first
  order. A well-formed forest has at most one group per uuid, so the order
  matters only for ill-formed input.

## Findings

| source | as written | input that shows it | evidently intended | confidence | as-written member | corrected member |
|---|---|---|---|---|---|---|
| test/format/kdbx.spec.js:221 (and :258) | after `db.remove(group)` the test checks `group.groups.length` (the child groups of the removed group itself) against `groupLength - 1` (the parent's count before, minus one) | root [Recycle Bin, parent [sibling, leaf]], remove `leaf`: `leaf.groups.length` is 0 and `groupLength - 1` is 1 | `parentGroup.groups.length` equals `groupLength - 1` | not executed | KdbxFindings.RestoreLengthCheck | KdbxDocumentFacts.RemoveThenMoveBack |
