/** The database object `Kdbx`: the group forest, the metadata and the
    deleted-objects ledger are fields that each operation updates in place.
    Each method is proved to leave the fields equal to the document function
    of the same name applied to the fields before, and to keep the forest
    well formed; what the document functions promise is proved in
    `KdbxDocumentFacts` and `KdbxRetention`. */
module KdbxDatabase {
  import opened KdbxTypes
  import opened KdbxTree
  import opened KdbxEntries
  import KdbxDocument
  import opened KdbxDocumentFacts
  import opened KdbxRetention

  class Kdbx {
    var groups: seq<Group>
    var meta: Meta
    var deletedObjects: seq<KdbxTypes.DeletedObject>

    /** The three fields as one document value. */
    function Value(): KdbxDocument.Doc
      reads this
    {
      KdbxDocument.Doc(groups, meta, deletedObjects)
    }

    /** There is a default group, and uuids name at most one node. */
    ghost predicate Valid()
      reads this
    {
      KdbxDocument.WellFormed(groups)
    }

    /** A uuid a new node may take: not empty, not in the tree. Fresh uuids
        are random in the database; here they are parameters. */
    ghost predicate Unused(u: Uuid)
      reads this
    {
      u != EmptyUuid && u !in Ids(groups)
    }

    /** `Kdbx.create(credentials, name)`. */
    constructor Create(name: string, root: Uuid, bin: Uuid)
      requires root != bin && root != EmptyUuid && bin != EmptyUuid
      ensures Value() == KdbxDocument.Create(name, root, bin)
      ensures Valid() && KdbxDocument.GetGroupIn(groups, meta.recycleBinUuid) == Some(groups[0].groups[0])
    {
      groups := KdbxDocument.Create(name, root, bin).groups;
      meta := KdbxDocument.Create(name, root, bin).meta;
      deletedObjects := [];
      CreateWellFormed(name, root, bin);
    }

    /** `createDefaultGroup()`: on a database without groups it adds the
        default group; a database made by `Create` already has it, and then
        nothing changes. */
    method CreateDefaultGroup(name: string, u: Uuid)
      requires groups == [] || Valid()
      requires u != EmptyUuid
      modifies this
      ensures Value() == KdbxDocument.CreateDefaultGroup(old(Value()), name, u)
      ensures Valid() && KdbxDocument.GetDefaultGroup(groups).Some?
      ensures old(groups) != [] ==> Value() == old(Value())
    {
      if groups == [] {
        CreateDefaultGroupReady(Value(), name, u);
        groups := [KdbxDocument.NewGroup(u, name)];
      }
    }

    /** `createRecycleBin()`. */
    method CreateRecycleBin(newBin: Uuid)
      requires Valid() && Unused(newBin)
      modifies this
      ensures Value() == KdbxDocument.CreateRecycleBin(old(Value()), newBin)
      ensures Valid() && meta.recycleBinEnabled
      ensures KdbxDocument.GetDefaultGroup(groups).value.uuid == KdbxDocument.GetDefaultGroup(old(groups)).value.uuid
      ensures KdbxDocument.GetGroupIn(groups, meta.recycleBinUuid).Some?
    {
      CreateRecycleBinReady(Value(), newBin);
      var m := meta.(recycleBinEnabled := true);
      if KdbxDocument.GetGroupIn(groups, meta.recycleBinUuid).None? {
        groups := Insert(groups, KdbxDocument.GetDefaultGroup(groups).value.uuid,
          GroupNode(KdbxDocument.NewGroup(newBin, KdbxDocument.RecycleBinName)));
        m := m.(recycleBinUuid := newBin);
      }
      meta := m;
      DefaultGroupKept(old(groups), groups);
    }

    /** `createGroup(parent, name)`. */
    method CreateGroup(parent: Uuid, name: string, u: Uuid) returns (s: KdbxDocument.Status)
      requires Valid() && Unused(u)
      modifies this
      ensures (Value(), s) == KdbxDocument.CreateGroup(old(Value()), parent, name, u)
      ensures Valid() && KdbxDocument.GetDefaultGroup(groups).value.uuid == KdbxDocument.GetDefaultGroup(old(groups)).value.uuid
      ensures s == KdbxDocument.Done ==> KdbxDocument.GetGroupIn(groups, u) == Some(KdbxDocument.NewGroup(u, name))
    {
      if KdbxDocument.GetGroupIn(groups, parent).None? {
        return KdbxDocument.InvalidArg;
      }
      CreateGroupAppends(Value(), parent, name, u);
      groups := Insert(groups, parent, GroupNode(KdbxDocument.NewGroup(u, name)));
      s := KdbxDocument.Done;
    }

    /** `createEntry(parent)`. */
    method CreateEntry(parent: Uuid, u: Uuid) returns (s: KdbxDocument.Status)
      requires Valid() && Unused(u)
      modifies this
      ensures (Value(), s) == KdbxDocument.CreateEntry(old(Value()), parent, u)
      ensures Valid() && KdbxDocument.GetDefaultGroup(groups).value.uuid == KdbxDocument.GetDefaultGroup(old(groups)).value.uuid
      ensures s == KdbxDocument.Done ==> FindEntry(groups, u) == Some(KdbxDocument.NewEntry(u))
    {
      if KdbxDocument.GetGroupIn(groups, parent).None? {
        return KdbxDocument.InvalidArg;
      }
      CreateEntryAppends(Value(), parent, u);
      groups := Insert(groups, parent, EntryNode(KdbxDocument.NewEntry(u)));
      s := KdbxDocument.Done;
    }

    /** Assigning an entry's fields, attachments or icon. */
    method UpdateEntry(e: Entry) returns (s: KdbxDocument.Status)
      requires Valid()
      modifies this
      ensures (Value(), s) == KdbxDocument.UpdateEntry(old(Value()), e)
      ensures Valid() && KdbxDocument.GetDefaultGroup(groups).value.uuid == KdbxDocument.GetDefaultGroup(old(groups)).value.uuid
      ensures s == KdbxDocument.Done ==> FindEntry(groups, e.uuid) == Some(e)
    {
      if FindEntry(groups, e.uuid).None? {
        return KdbxDocument.NotAttached;
      }
      UpdateEntryReplaces(Value(), e);
      groups := ReplaceEntry(groups, e);
      s := KdbxDocument.Done;
    }

    /** `entry.pushHistory()` on the entry named `id`. */
    method PushHistory(id: Uuid) returns (s: KdbxDocument.Status)
      requires Valid()
      modifies this
      ensures (Value(), s) == KdbxDocument.PushHistory(old(Value()), id)
      ensures Valid() && KdbxDocument.GetDefaultGroup(groups).value.uuid == KdbxDocument.GetDefaultGroup(old(groups)).value.uuid
      ensures s == KdbxDocument.Done ==>
        FindEntry(groups, id) == Some(PushSnapshot(FindEntry(old(groups), id).value))
    {
      var e := FindEntry(groups, id);
      if e.None? {
        return KdbxDocument.NotAttached;
      }
      PushHistoryAppends(Value(), id);
      groups := ReplaceEntry(groups, PushSnapshot(e.value));
      s := KdbxDocument.Done;
    }

    /** `move(node, toGroup)`. */
    method Move(id: Uuid, to: Uuid) returns (s: KdbxDocument.Status)
      requires Valid()
      modifies this
      ensures (Value(), s) == KdbxDocument.Move(old(Value()), id, to)
      ensures Valid() && Ids(groups) == Ids(old(groups))
      ensures KdbxDocument.GetDefaultGroup(groups).value.uuid == KdbxDocument.GetDefaultGroup(old(groups)).value.uuid
    {
      if KdbxDocument.GetGroupIn(groups, to).None? {
        return KdbxDocument.InvalidArg;
      }
      var (rest, found) := Detach(groups, id);
      if found.None? {
        return KdbxDocument.NotAttached;
      }
      if to in NodeIds(found.value) {
        return KdbxDocument.InvalidArg;
      }
      MoveKeepsIds(Value(), id, to);
      groups := Insert(rest, to, found.value);
      s := KdbxDocument.Done;
    }

    /** `remove(node)`, with `now` for the deletion time of a ledger record
        and `newBin` for a bin it has to create. */
    method Remove(id: Uuid, now: Time, newBin: Uuid) returns (r: KdbxDocument.Removal)
      requires Valid() && Unused(newBin)
      modifies this
      ensures (Value(), r) == KdbxDocument.Remove(old(Value()), id, now, newBin)
      ensures Valid() && KdbxDocument.GetDefaultGroup(groups).value.uuid == KdbxDocument.GetDefaultGroup(old(groups)).value.uuid
    {
      RemoveWellFormed(Value(), id, now, newBin);
      if meta.recycleBinEnabled {
        CreateRecycleBin(newBin);
      }
      ghost var d1 := Value();
      assert KdbxDocument.Remove(old(Value()), id, now, newBin) == KdbxDocument.Remove(d1, id, now, newBin);
      var (rest, found) := Detach(groups, id);
      if found.None? {
        return KdbxDocument.Refused(KdbxDocument.NotAttached);
      }
      var bin := KdbxDocument.GetGroupIn(groups, meta.recycleBinUuid);
      if meta.recycleBinEnabled && bin.Some? && id !in SubIds(bin.value) {
        if bin.value.uuid in NodeIds(found.value) {
          return KdbxDocument.Refused(KdbxDocument.InvalidArg);
        }
        groups := Insert(rest, bin.value.uuid, found.value);
        r := KdbxDocument.Recycled;
      } else {
        groups := rest;
        deletedObjects := deletedObjects + [KdbxTypes.DeletedObject(id, now)];
        r := KdbxDocument.Deleted;
      }
    }

    /** `cleanup(settings)`: cuts every history to the cap first, then
        deletes, key by key, the pool icons and binaries nothing uses. */
    method Cleanup(opts: CleanupOptions)
      requires Valid()
      modifies this
      ensures Value() == KdbxRetention.Cleanup(old(Value()), opts)
      ensures Valid() && Ids(groups) == Ids(old(groups))
      ensures KdbxDocument.GetDefaultGroup(groups).value.uuid == KdbxDocument.GetDefaultGroup(old(groups)).value.uuid
    {
      CleanupKeepsNodes(Value(), opts, EmptyUuid);
      var cap := HistoryCap(opts, meta);
      if cap.Some? {
        groups := TrimForest(groups, cap.value);
      }
      if opts.customIcons {
        var icons := Prune(meta.customIcons, ForestIcons(groups));
        meta := meta.(customIcons := icons);
      }
      if opts.binaries {
        var bins := Prune(meta.binaries, ForestRefs(groups));
        meta := meta.(binaries := bins);
      }
      DefaultGroupKept(old(groups), groups);
    }
  }
}
