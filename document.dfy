/** The database document as a value: the group forest, the metadata and
    the deleted-objects ledger, with each tree operation of the database as
    a function from the document before to the document after. The class
    `Kdbx` applies these functions to its fields. */
module KdbxDocument {
  import opened KdbxTypes
  import opened KdbxTree
  import opened KdbxMoves
  import opened KdbxUnique
  import opened KdbxEntries
  import opened KdbxLazyBin

  datatype Doc = Doc(groups: seq<Group>, meta: Meta, deletedObjects: seq<DeletedObject>)

  /** How an operation that can refuse its arguments ended. */
  datatype Status = Done | InvalidArg | NotAttached

  /** How `remove` ended: moved into the recycle bin, deleted for good with
      a ledger record, or refused. */
  datatype Removal = Recycled | Deleted | Refused(why: Status)

  const RecycleBinName: string := "Recycle Bin"
  const DefaultHistoryMaxItems: int := 10

  function NewGroup(u: Uuid, name: string): Group {
    Group(u, name, None, [], [])
  }

  function NewEntry(u: Uuid): Entry {
    Entry(u, map[], map[], None, [])
  }

  /** There is a default group, no uuid names two nodes, and the empty uuid
      names none. */
  ghost predicate WellFormed(gs: seq<Group>) {
    gs != [] && Unique(gs) && EmptyUuid !in Ids(gs)
  }

  /** `getGroup(uuid)`: the empty uuid never resolves. */
  function GetGroupIn(gs: seq<Group>, id: Uuid): (r: Option<Group>)
    ensures id == EmptyUuid ==> r.None?
    ensures r.Some? ==> r.value.uuid == id && id in Ids(gs)
  {
    if id == EmptyUuid then None
    else if FindGroup(gs, id).Some? then FindGroupIn(gs, id); FindGroup(gs, id)
    else None
  }

  /** `getDefaultGroup()`: the first root group. */
  function GetDefaultGroup(gs: seq<Group>): (r: Option<Group>)
    ensures r.Some? <==> gs != []
    ensures r.Some? ==> r.value == gs[0]
  {
    if gs == [] then None else Some(gs[0])
  }

  /** `Kdbx.create(credentials, name)`: one root group named after the
      database, holding an empty recycle bin; the bin is enabled and ten
      history items are kept. */
  function Create(name: string, root: Uuid, bin: Uuid): (d: Doc)
    ensures |d.groups| == 1 && d.groups[0].uuid == root && d.groups[0].name == name
    ensures d.groups[0].groups == [NewGroup(bin, RecycleBinName)] && d.groups[0].entries == []
    ensures d.meta.recycleBinEnabled && d.meta.recycleBinUuid == bin
    ensures d.meta.historyMaxItems == Some(DefaultHistoryMaxItems)
    ensures d.meta.customIcons == map[] && d.meta.binaries == map[] && d.deletedObjects == []
  {
    Doc([Group(root, name, None, [NewGroup(bin, RecycleBinName)], [])],
        Meta(true, bin, Some(DefaultHistoryMaxItems), map[], map[]), [])
  }

  /** `createDefaultGroup()`: adds a root group only to an empty forest. */
  function CreateDefaultGroup(d: Doc, name: string, u: Uuid): (r: Doc)
    ensures r.groups != [] && r.meta == d.meta && r.deletedObjects == d.deletedObjects
    ensures d.groups != [] ==> r == d
    ensures d.groups == [] ==> r.groups == [NewGroup(u, name)]
  {
    if d.groups != [] then d else d.(groups := [NewGroup(u, name)])
  }

  /** `createRecycleBin()`: enables the bin and, when its uuid does not
      resolve, appends a new empty bin to the default group under the uuid
      `newBin`. */
  function CreateRecycleBin(d: Doc, newBin: Uuid): (r: Doc)
    ensures r.meta == d.meta.(recycleBinEnabled := true, recycleBinUuid := r.meta.recycleBinUuid)
    ensures r.deletedObjects == d.deletedObjects && GroupUuids(r.groups) == GroupUuids(d.groups)
    ensures GetGroupIn(d.groups, d.meta.recycleBinUuid).Some? ==> r == d.(meta := d.meta.(recycleBinEnabled := true))
  {
    var m := d.meta.(recycleBinEnabled := true);
    if GetGroupIn(d.groups, d.meta.recycleBinUuid).Some? || GetDefaultGroup(d.groups).None? then d.(meta := m)
    else
      d.(groups := Insert(d.groups, GetDefaultGroup(d.groups).value.uuid, GroupNode(NewGroup(newBin, RecycleBinName))),
         meta := m.(recycleBinUuid := newBin))
  }

  /** `createGroup(parent, name)`: a new empty group appended to the parent's
      child groups; `InvalidArg` when the parent does not resolve. */
  function CreateGroup(d: Doc, parent: Uuid, name: string, u: Uuid): (r: (Doc, Status))
    ensures r.1 == InvalidArg <==> GetGroupIn(d.groups, parent).None?
    ensures r.1 == InvalidArg ==> r.0 == d
    ensures r.1 != NotAttached && r.0.meta == d.meta && r.0.deletedObjects == d.deletedObjects
    ensures GroupUuids(r.0.groups) == GroupUuids(d.groups)
  {
    if GetGroupIn(d.groups, parent).None? then (d, InvalidArg)
    else (d.(groups := Insert(d.groups, parent, GroupNode(NewGroup(u, name)))), Done)
  }

  /** `createEntry(parent)`: a new empty entry appended to the parent's
      entries; `InvalidArg` when the parent does not resolve. */
  function CreateEntry(d: Doc, parent: Uuid, u: Uuid): (r: (Doc, Status))
    ensures r.1 == InvalidArg <==> GetGroupIn(d.groups, parent).None?
    ensures r.1 == InvalidArg ==> r.0 == d
    ensures r.1 != NotAttached && r.0.meta == d.meta && r.0.deletedObjects == d.deletedObjects
    ensures GroupUuids(r.0.groups) == GroupUuids(d.groups)
  {
    if GetGroupIn(d.groups, parent).None? then (d, InvalidArg)
    else (d.(groups := Insert(d.groups, parent, EntryNode(NewEntry(u)))), Done)
  }

  /** Assigning to an entry's fields, attachments or icon: the entry named
      `e.uuid` becomes `e`; `NotAttached` when no entry has that uuid. */
  function UpdateEntry(d: Doc, e: Entry): (r: (Doc, Status))
    ensures r.1 == NotAttached <==> FindEntry(d.groups, e.uuid).None?
    ensures r.1 == NotAttached ==> r.0 == d
    ensures r.1 != InvalidArg && r.0.meta == d.meta && r.0.deletedObjects == d.deletedObjects
    ensures GroupUuids(r.0.groups) == GroupUuids(d.groups)
  {
    if FindEntry(d.groups, e.uuid).None? then (d, NotAttached)
    else (d.(groups := ReplaceEntry(d.groups, e)), Done)
  }

  /** `entry.pushHistory()` on the entry named `id`. */
  function PushHistory(d: Doc, id: Uuid): (r: (Doc, Status))
    ensures r.1 == NotAttached <==> FindEntry(d.groups, id).None?
    ensures r.1 == NotAttached ==> r.0 == d
    ensures r.1 != InvalidArg && r.0.meta == d.meta && r.0.deletedObjects == d.deletedObjects
    ensures GroupUuids(r.0.groups) == GroupUuids(d.groups)
  {
    match FindEntry(d.groups, id)
    case None => (d, NotAttached)
    case Some(e) => (d.(groups := ReplaceEntry(d.groups, PushSnapshot(e))), Done)
  }

  /** `move(node, toGroup)`: the node named `id` leaves its parent and is
      appended to the group named `to`. `InvalidArg` when `to` does not
      resolve or lies inside the node; `NotAttached` when the node has no
      parent. */
  function Move(d: Doc, id: Uuid, to: Uuid): (r: (Doc, Status))
    ensures r.1 == InvalidArg <==>
      GetGroupIn(d.groups, to).None? ||
      (Detach(d.groups, id).1.Some? && to in NodeIds(Detach(d.groups, id).1.value))
    ensures r.1 == NotAttached <==> GetGroupIn(d.groups, to).Some? && Detach(d.groups, id).1.None?
    ensures r.1 != Done ==> r.0 == d
    ensures r.0.meta == d.meta && r.0.deletedObjects == d.deletedObjects
    ensures GroupUuids(r.0.groups) == GroupUuids(d.groups)
  {
    if GetGroupIn(d.groups, to).None? then (d, InvalidArg)
    else
      var (rest, found) := Detach(d.groups, id);
      if found.None? then (d, NotAttached)
      else if to in NodeIds(found.value) then (d, InvalidArg)
      else (d.(groups := Insert(rest, to, found.value)), Done)
  }

  /** `remove(node)`. With the bin enabled, the bin is made ready first
      (created under `newBin` when its uuid does not resolve); a node that is
      neither the bin nor inside it then moves into the bin. Otherwise the
      node leaves its parent and `(id, now)` is appended to the ledger. */
  function Remove(d: Doc, id: Uuid, now: Time, newBin: Uuid): (r: (Doc, Removal))
    ensures r.1 == Recycled ==> r.0.deletedObjects == d.deletedObjects
    ensures r.1 == Deleted ==> r.0.deletedObjects == d.deletedObjects + [DeletedObject(id, now)]
    ensures r.1 != Deleted ==> r.0.deletedObjects == d.deletedObjects
    ensures r.0.meta.recycleBinEnabled == d.meta.recycleBinEnabled
    ensures GroupUuids(r.0.groups) == GroupUuids(d.groups)
  {
    var d1 := if d.meta.recycleBinEnabled then CreateRecycleBin(d, newBin) else d;
    var (rest, found) := Detach(d1.groups, id);
    if found.None? then (d1, Refused(NotAttached))
    else
      var bin := GetGroupIn(d1.groups, d1.meta.recycleBinUuid);
      if d1.meta.recycleBinEnabled && bin.Some? && id !in SubIds(bin.value) then
        if bin.value.uuid in NodeIds(found.value) then (d1, Refused(InvalidArg))
        else (d1.(groups := Insert(rest, bin.value.uuid, found.value)), Recycled)
      else (d1.(groups := rest, deletedObjects := d1.deletedObjects + [DeletedObject(id, now)]), Deleted)
  }
}
