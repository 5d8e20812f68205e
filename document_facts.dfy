/** What the tree operations of the database promise: each keeps the
    forest well formed, and each changes exactly the child lists it is
    meant to change. */
module KdbxDocumentFacts {
  import opened KdbxTypes
  import opened KdbxTree
  import opened KdbxMoves
  import opened KdbxUnique
  import opened KdbxEntries
  import opened KdbxLazyBin
  import opened KdbxDocument

  // ----- keeping uuids unique -----

  /** A forest that lost uuids keeps them unique. */
  lemma WellFormedShrinks(small: seq<Group>, big: seq<Group>, extra: multiset<Uuid>)
    requires small != [] && WellFormed(big) && Ids(small) + extra == Ids(big)
    ensures WellFormed(small)
  {
    forall u ensures Ids(small)[u] <= 1 {
      assert Ids(big)[u] == Ids(small)[u] + extra[u];
    }
  }

  /** A forest that gained one new non-empty uuid keeps its uuids unique. */
  lemma WellFormedGrows(big: seq<Group>, small: seq<Group>, u: Uuid)
    requires big != [] && WellFormed(small) && u != EmptyUuid && u !in Ids(small)
    requires Ids(big) == Ids(small) + multiset{u}
    ensures WellFormed(big)
  {
    forall v ensures Ids(big)[v] <= 1 {
      assert Ids(big)[v] == Ids(small)[v] + multiset{u}[v];
    }
  }

  // ----- create -----

  /** A group with no children holds its own uuid only. */
  lemma LeafIds(g: Group)
    requires g.groups == [] && g.entries == []
    ensures Ids([g]) == multiset{g.uuid}
  {
    IdsCons(g, []);
  }

  lemma CreateIds(name: string, root: Uuid, bin: Uuid)
    ensures Ids(Create(name, root, bin).groups) == multiset{root} + multiset{bin}
  {
    var d := Create(name, root, bin);
    LeafIds(NewGroup(bin, RecycleBinName));
    IdsCons(d.groups[0], []);
  }

  /** A new database is well formed and its bin uuid resolves to the first
      child of the default group. */
  lemma CreateWellFormed(name: string, root: Uuid, bin: Uuid)
    requires root != bin && root != EmptyUuid && bin != EmptyUuid
    ensures WellFormed(Create(name, root, bin).groups)
    ensures var d := Create(name, root, bin);
      GetGroupIn(d.groups, d.meta.recycleBinUuid) == Some(d.groups[0].groups[0])
  {
    var d := Create(name, root, bin);
    CreateIds(name, root, bin);
    forall u ensures Ids(d.groups)[u] <= 1 {
      assert Ids(d.groups)[u] == multiset{root}[u] + multiset{bin}[u];
    }
    assert FindGroup(d.groups[0].groups, bin) == Some(NewGroup(bin, RecycleBinName));
  }

  /** `createRecycleBin` leaves a resolving bin alone, and otherwise appends
      a new empty bin to the default group and points the metadata at it. */
  lemma CreateRecycleBinReady(d: Doc, newBin: Uuid)
    requires WellFormed(d.groups) && newBin != EmptyUuid && newBin !in Ids(d.groups)
    ensures var r := CreateRecycleBin(d, newBin);
      WellFormed(r.groups) && r.meta.recycleBinEnabled &&
      GetGroupIn(r.groups, r.meta.recycleBinUuid).Some?
    ensures var r := CreateRecycleBin(d, newBin);
      GetGroupIn(d.groups, d.meta.recycleBinUuid).None? ==>
        r.meta.recycleBinUuid == newBin &&
        GetGroupIn(r.groups, newBin) == Some(NewGroup(newBin, RecycleBinName)) &&
        Kids(r.groups[0]) == Kids(d.groups[0]) + [newBin] &&
        Ids(r.groups) == Ids(d.groups) + multiset{newBin}
    ensures var r := CreateRecycleBin(d, newBin);
      GetGroupIn(d.groups, d.meta.recycleBinUuid).None? ==>
        forall b :: b != newBin ==>
          Grown(FindGroup(d.groups, b), FindGroup(r.groups, b), d.groups[0].uuid,
                GroupNode(NewGroup(newBin, RecycleBinName)))
  {
    if GetGroupIn(d.groups, d.meta.recycleBinUuid).None? {
      var gs := d.groups;
      var b := NewGroup(newBin, RecycleBinName);
      var gs' := Insert(gs, gs[0].uuid, GroupNode(b));
      assert gs' == [Adopt(gs[0], GroupNode(b))] + gs[1..];
      AdoptKids(gs[0], GroupNode(b));
      InsertNew(gs, gs[0].uuid, b);
      InsertIds(gs, gs[0].uuid, GroupNode(b));
      assert SubIds(b) == multiset{newBin} by {
        assert Ids(b.groups) == multiset{};
      }
      WellFormedGrows(gs', gs, newBin);
      forall x | x != newBin
        ensures Grown(FindGroup(gs, x), FindGroup(gs', x), gs[0].uuid, GroupNode(b))
      {
        InsertGrown(gs, gs[0].uuid, GroupNode(b), x);
      }
    }
  }

  /** `createGroup` appends a new group that resolves to itself. Every
      other group keeps its name, icon and children, except that the parent
      gains the new group at the end; every entry is found as before. */
  lemma CreateGroupAppends(d: Doc, parent: Uuid, name: string, u: Uuid)
    requires WellFormed(d.groups) && GetGroupIn(d.groups, parent).Some?
    requires u != EmptyUuid && u !in Ids(d.groups)
    ensures var r := CreateGroup(d, parent, name, u);
      r.1 == Done && WellFormed(r.0.groups) && GetGroupIn(r.0.groups, u) == Some(NewGroup(u, name))
    ensures var r := CreateGroup(d, parent, name, u);
      forall b :: b != u ==>
        Grown(FindGroup(d.groups, b), FindGroup(r.0.groups, b), parent, GroupNode(NewGroup(u, name)))
    ensures var r := CreateGroup(d, parent, name, u);
      forall x :: x != u ==> FindEntry(r.0.groups, x) == FindEntry(d.groups, x)
  {
    var c := NewGroup(u, name);
    var gs' := Insert(d.groups, parent, GroupNode(c));
    assert SubIds(c) == multiset{u} by {
      assert Ids(c.groups) == multiset{};
    }
    InsertNew(d.groups, parent, c);
    InsertIds(d.groups, parent, GroupNode(c));
    WellFormedGrows(gs', d.groups, u);
    forall b | b != u
      ensures Grown(FindGroup(d.groups, b), FindGroup(gs', b), parent, GroupNode(c))
    {
      InsertGrown(d.groups, parent, GroupNode(c), b);
    }
    forall x | x != u ensures FindEntry(gs', x) == FindEntry(d.groups, x) {
      FindEntryInsertedOther(d.groups, parent, GroupNode(c), x);
    }
  }

  /** `createEntry` appends a new entry that can be found by its uuid. Every
      group keeps its name, icon and children, except that the parent gains
      the new entry at the end; every other entry is found as before. */
  lemma CreateEntryAppends(d: Doc, parent: Uuid, u: Uuid)
    requires WellFormed(d.groups) && GetGroupIn(d.groups, parent).Some?
    requires u != EmptyUuid && u !in Ids(d.groups)
    ensures var r := CreateEntry(d, parent, u);
      r.1 == Done && WellFormed(r.0.groups) && FindEntry(r.0.groups, u) == Some(NewEntry(u))
    ensures var r := CreateEntry(d, parent, u);
      forall b :: b != u ==>
        Grown(FindGroup(d.groups, b), FindGroup(r.0.groups, b), parent, EntryNode(NewEntry(u)))
    ensures var r := CreateEntry(d, parent, u);
      forall x :: x != u ==> FindEntry(r.0.groups, x) == FindEntry(d.groups, x)
  {
    var e := NewEntry(u);
    var gs' := Insert(d.groups, parent, EntryNode(e));
    FindEntryInserted(d.groups, parent, e);
    InsertIds(d.groups, parent, EntryNode(e));
    WellFormedGrows(gs', d.groups, u);
    forall b | b != u
      ensures Grown(FindGroup(d.groups, b), FindGroup(gs', b), parent, EntryNode(e))
    {
      InsertGrown(d.groups, parent, EntryNode(e), b);
    }
    forall x | x != u ensures FindEntry(gs', x) == FindEntry(d.groups, x) {
      FindEntryInsertedOther(d.groups, parent, EntryNode(e), x);
    }
  }

  // ----- entry edits -----

  /** An entry edit replaces exactly the edited entry. */
  lemma UpdateEntryReplaces(d: Doc, e: Entry)
    requires WellFormed(d.groups) && FindEntry(d.groups, e.uuid).Some?
    ensures var r := UpdateEntry(d, e);
      r.1 == Done && WellFormed(r.0.groups) && Ids(r.0.groups) == Ids(d.groups) &&
      FindEntry(r.0.groups, e.uuid) == Some(e)
    ensures var r := UpdateEntry(d, e);
      forall id :: id != e.uuid ==> FindEntry(r.0.groups, id) == FindEntry(d.groups, id)
    ensures var r := UpdateEntry(d, e);
      forall b :: Kept(FindGroup(d.groups, b), FindGroup(r.0.groups, b))
  {
    var gs' := ReplaceEntry(d.groups, e);
    ReplaceEntryIds(d.groups, e);
    forall id ensures FindEntry(gs', id) == if id == e.uuid then Some(e) else FindEntry(d.groups, id) {
      FindEntryReplaced(d.groups, e, id);
    }
    forall b ensures Kept(FindGroup(d.groups, b), FindGroup(gs', b)) {
      ReplaceEntryKept(d.groups, e, b);
    }
  }

  /** `pushHistory` appends a snapshot to exactly one entry's history. */
  lemma PushHistoryAppends(d: Doc, id: Uuid)
    requires WellFormed(d.groups) && FindEntry(d.groups, id).Some?
    ensures var r := PushHistory(d, id);
      r.1 == Done && WellFormed(r.0.groups) &&
      FindEntry(r.0.groups, id) == Some(PushSnapshot(FindEntry(d.groups, id).value))
    ensures var r := PushHistory(d, id);
      forall x :: x != id ==> FindEntry(r.0.groups, x) == FindEntry(d.groups, x)
    ensures var r := PushHistory(d, id);
      forall b :: Kept(FindGroup(d.groups, b), FindGroup(r.0.groups, b))
  {
    UpdateEntryReplaces(d, PushSnapshot(FindEntry(d.groups, id).value));
  }

  // ----- move -----

  /** Only uuids of the detached node leave the forest, so the node's own
      uuid is no longer in what remains. */
  lemma DetachedGone(gs: seq<Group>, id: Uuid)
    requires Unique(gs) && Detach(gs, id).1.Some?
    ensures id !in Ids(Detach(gs, id).0)
  {
    DetachIds(gs, id);
    var n := Detach(gs, id).1.value;
    assert n.Id() in NodeIds(n);
    assert Ids(gs)[id] == Ids(Detach(gs, id).0)[id] + NodeIds(n)[id];
  }

  /** A successful move keeps exactly the uuids of the forest. */
  lemma MoveKeepsIds(d: Doc, id: Uuid, to: Uuid)
    requires WellFormed(d.groups) && Move(d, id, to).1 == Done
    ensures Ids(Move(d, id, to).0.groups) == Ids(d.groups) && WellFormed(Move(d, id, to).0.groups)
  {
    var (rest, found) := Detach(d.groups, id);
    DetachIds(d.groups, id);
    DetachShrunk(d.groups, id, to);
    InsertIds(rest, to, found.value);
  }

  /** A successful move takes the node out of its old parent's child list
      and appends it to the new parent's; every group outside the node keeps
      its other children. */
  lemma MoveReparents(d: Doc, id: Uuid, to: Uuid, b: Uuid)
    requires WellFormed(d.groups) && Move(d, id, to).1 == Done
    requires b !in NodeIds(Detach(d.groups, id).1.value)
    ensures Shrunk(FindGroup(d.groups, b), FindGroup(Detach(d.groups, id).0, b), id)
    ensures Grown(FindGroup(Detach(d.groups, id).0, b), FindGroup(Move(d, id, to).0.groups, b), to,
                  Detach(d.groups, id).1.value)
  {
    DetachShrunk(d.groups, id, b);
    InsertGrown(Detach(d.groups, id).0, to, Detach(d.groups, id).1.value, b);
  }

  /** After a successful move, detaching the node again takes it out of its
      new parent and leaves the forest it was moved out of. */
  lemma MoveUndoable(d: Doc, id: Uuid, to: Uuid)
    requires WellFormed(d.groups) && Move(d, id, to).1 == Done
    ensures Detach(Move(d, id, to).0.groups, id) == Detach(d.groups, id)
  {
    var (rest, found) := Detach(d.groups, id);
    DetachShrunk(d.groups, id, to);
    DetachedGone(d.groups, id);
    DetachInserted(rest, to, found.value);
  }

  // ----- remove -----

  /** With the bin disabled, `remove` detaches the node and appends exactly
      one ledger record, holding the node's uuid. */
  lemma RemoveDeletes(d: Doc, id: Uuid, now: Time, newBin: Uuid)
    requires WellFormed(d.groups) && !d.meta.recycleBinEnabled && Detach(d.groups, id).1.Some?
    ensures var r := Remove(d, id, now, newBin);
      r.1 == Deleted && r.0.meta == d.meta &&
      r.0.deletedObjects == d.deletedObjects + [DeletedObject(id, now)] &&
      |r.0.deletedObjects| == |d.deletedObjects| + 1 && r.0.deletedObjects[|d.deletedObjects|].uuid == id
    ensures var r := Remove(d, id, now, newBin);
      WellFormed(r.0.groups) && Ids(r.0.groups) + NodeIds(Detach(d.groups, id).1.value) == Ids(d.groups) &&
      id !in Ids(r.0.groups)
    ensures Remove(d, id, now, newBin).0.groups == Detach(d.groups, id).0
    ensures var r := Remove(d, id, now, newBin);
      forall b :: b !in NodeIds(Detach(d.groups, id).1.value) ==>
        Shrunk(FindGroup(d.groups, b), FindGroup(r.0.groups, b), id)
  {
    var rest := Detach(d.groups, id).0;
    DetachIds(d.groups, id);
    DetachedGone(d.groups, id);
    WellFormedShrinks(rest, d.groups, NodeIds(Detach(d.groups, id).1.value));
    assert Remove(d, id, now, newBin).0.groups == rest;
    forall b | b !in NodeIds(Detach(d.groups, id).1.value)
      ensures Shrunk(FindGroup(d.groups, b), FindGroup(rest, b), id)
    {
      DetachShrunk(d.groups, id, b);
    }
  }

  /** With the bin enabled and resolving, removing a node that is outside
      the bin is moving it into the bin, and no ledger record is added. */
  lemma RemoveRecycles(d: Doc, id: Uuid, now: Time, newBin: Uuid)
    requires WellFormed(d.groups) && d.meta.recycleBinEnabled
    requires GetGroupIn(d.groups, d.meta.recycleBinUuid).Some? && Detach(d.groups, id).1.Some?
    requires id !in SubIds(GetGroupIn(d.groups, d.meta.recycleBinUuid).value)
    requires d.meta.recycleBinUuid !in NodeIds(Detach(d.groups, id).1.value)
    ensures Move(d, id, d.meta.recycleBinUuid).1 == Done
    ensures Remove(d, id, now, newBin) == (Move(d, id, d.meta.recycleBinUuid).0, Recycled)
  {
    assert d.meta.(recycleBinEnabled := true) == d.meta;
  }

  /** Where `remove` detaches when it had to create the bin first: the same
      node as without the bin, leaving the same forest with the empty bin
      appended to the default group. */
  lemma LazyBinDetach(d: Doc, id: Uuid, newBin: Uuid)
    requires WellFormed(d.groups) && d.meta.recycleBinEnabled
    requires GetGroupIn(d.groups, d.meta.recycleBinUuid).None?
    requires newBin != EmptyUuid && newBin !in Ids(d.groups) && Detach(d.groups, id).1.Some?
    ensures Detach(CreateRecycleBin(d, newBin).groups, id) ==
      (Insert(Detach(d.groups, id).0, d.groups[0].uuid, GroupNode(NewGroup(newBin, RecycleBinName))),
       Detach(d.groups, id).1)
  {
    DetachPresent(d.groups, id);
    DetachAdoptHead(d.groups, NewGroup(newBin, RecycleBinName), id);
  }

  /** The lazily created bin resolves in what remains after the detach, still
      empty, and the detached node holds neither the bin nor its uuid. */
  lemma LazyBinRemains(d: Doc, id: Uuid, newBin: Uuid)
    requires WellFormed(d.groups) && newBin != EmptyUuid && newBin !in Ids(d.groups)
    requires Detach(d.groups, id).1.Some?
    ensures var rest := Detach(d.groups, id).0;
      var b := NewGroup(newBin, RecycleBinName);
      FindGroup(Insert(rest, d.groups[0].uuid, GroupNode(b)), newBin) == Some(b) &&
      newBin !in NodeIds(Detach(d.groups, id).1.value) && id !in SubIds(b) &&
      Ids(Insert(rest, d.groups[0].uuid, GroupNode(b))) + NodeIds(Detach(d.groups, id).1.value) ==
        Ids(d.groups) + multiset{newBin}
  {
    var rest := Detach(d.groups, id).0;
    var n := Detach(d.groups, id).1.value;
    var b := NewGroup(newBin, RecycleBinName);
    DetachIds(d.groups, id);
    DetachPresent(d.groups, id);
    assert rest != [] && rest[0].uuid == d.groups[0].uuid by {
      assert GroupUuids(rest) == GroupUuids(d.groups);
    }
    assert SubIds(b) == multiset{newBin} by {
      assert Ids(b.groups) == multiset{};
    }
    InsertNew(rest, d.groups[0].uuid, b);
    InsertIds(rest, d.groups[0].uuid, GroupNode(b));
  }

  /** When the bin's uuid does not resolve, `remove` creates the bin under a
      new non-empty uuid that resolves to it, and the removed node is the
      bin's only child. */
  lemma RemoveLazyBin(d: Doc, id: Uuid, now: Time, newBin: Uuid)
    requires WellFormed(d.groups) && d.meta.recycleBinEnabled
    requires GetGroupIn(d.groups, d.meta.recycleBinUuid).None?
    requires newBin != EmptyUuid && newBin !in Ids(d.groups) && Detach(d.groups, id).1.Some?
    ensures var r := Remove(d, id, now, newBin);
      r.1 == Recycled && r.0.meta.recycleBinUuid == newBin && r.0.meta.recycleBinUuid != EmptyUuid &&
      r.0.deletedObjects == d.deletedObjects && WellFormed(r.0.groups) &&
      GetGroupIn(r.0.groups, r.0.meta.recycleBinUuid).Some?
    ensures var r := Remove(d, id, now, newBin);
      var n := Detach(d.groups, id).1.value;
      var bin := GetGroupIn(r.0.groups, newBin).value;
      Kids(bin) == (if n.GroupNode? then [id] else []) &&
      EntryKids(bin) == (if n.EntryNode? then [id] else [])
  {
    var n := Detach(d.groups, id).1.value;
    var b := NewGroup(newBin, RecycleBinName);
    var mid := Insert(Detach(d.groups, id).0, d.groups[0].uuid, GroupNode(b));
    LazyBinDetach(d, id, newBin);
    LazyBinRemains(d, id, newBin);
    CreateRecycleBinReady(d, newBin);
    var r := Remove(d, id, now, newBin);
    assert r.0.groups == Insert(mid, newBin, n);
    InsertGrown(mid, newBin, n, newBin);
    InsertIds(mid, newBin, n);
    WellFormedGrows(r.0.groups, d.groups, newBin);
  }

  // ----- remove, then move back -----

  /** A group that occurs in the forest is what its uuid resolves to. */
  lemma {:induction false} OccursFound(gs: seq<Group>, x: Group)
    requires Occurs(gs, x)
    ensures FindGroup(gs, x.uuid).Some?
  {
    if gs[0] != x && gs[0].uuid != x.uuid {
      if Occurs(gs[0].groups, x) {
        OccursFound(gs[0].groups, x);
      } else {
        OccursFound(gs[1..], x);
      }
    }
  }

  lemma ParentFound(gs: seq<Group>, x: Group)
    requires Unique(gs) && Occurs(gs, x)
    ensures FindGroup(gs, x.uuid) == Some(x)
  {
    OccursFound(gs, x);
    FindGroupOccurs(gs, x.uuid);
    OccursUnique(gs, x, FindGroup(gs, x.uuid).value);
  }

  /** A group does not lie inside any of its children. */
  lemma ParentOutside(gs: seq<Group>, x: Group, j: nat)
    requires Unique(gs) && Occurs(gs, x) && j < |x.groups|
    ensures x.uuid !in SubIds(x.groups[j])
  {
    OccursIn(gs, x);
    IdsRemoveAt(x.groups, j);
    assert SubIds(x)[x.uuid] <= Ids(gs)[x.uuid];
    assert SubIds(x)[x.uuid] >= 1 + SubIds(x.groups[j])[x.uuid];
  }

  /** The `j`-th child of `x` stands at position `j` of its parent's list, so
      taking it out shortens that list by one. */
  lemma ChildIndexed(x: Group, j: nat)
    requires j < |x.groups|
    ensures |RemoveFirst(Kids(x), x.groups[j].uuid)| == |x.groups| - 1
  {
    assert Kids(x)[j] == x.groups[j].uuid;
  }

  /** Where the bin is enabled and resolves, `remove` on the `j`-th child of
      `x` moves it into the bin. */
  lemma RemoveIntoBin(d: Doc, x: Group, j: nat, now: Time, newBin: Uuid)
    requires WellFormed(d.groups) && d.meta.recycleBinEnabled
    requires GetGroupIn(d.groups, d.meta.recycleBinUuid).Some?
    requires Occurs(d.groups, x) && j < |x.groups|
    requires x.groups[j].uuid !in SubIds(GetGroupIn(d.groups, d.meta.recycleBinUuid).value)
    requires d.meta.recycleBinUuid !in SubIds(x.groups[j])
    ensures Detach(d.groups, x.groups[j].uuid).1 == Some(GroupNode(x.groups[j]))
    ensures Remove(d, x.groups[j].uuid, now, newBin) ==
      (d.(groups := Insert(Detach(d.groups, x.groups[j].uuid).0, d.meta.recycleBinUuid, GroupNode(x.groups[j]))),
       Recycled)
  {
    DetachFindsChild(d.groups, x, j);
    assert d.meta.(recycleBinEnabled := true) == d.meta;
  }

  /** The bin and the parent `x` after the `j`-th child of `x` moved into the
      bin: the bin gains the child at the end, the parent loses it. */
  lemma BinAndParentAfterRemove(d: Doc, x: Group, j: nat)
    requires WellFormed(d.groups) && FindGroup(d.groups, d.meta.recycleBinUuid).Some?
    requires Occurs(d.groups, x) && j < |x.groups|
    requires x.groups[j].uuid !in SubIds(FindGroup(d.groups, d.meta.recycleBinUuid).value)
    requires d.meta.recycleBinUuid !in SubIds(x.groups[j]) && x.uuid != d.meta.recycleBinUuid
    requires Detach(d.groups, x.groups[j].uuid).1 == Some(GroupNode(x.groups[j]))
    ensures var rest := Detach(d.groups, x.groups[j].uuid).0;
      var after := Insert(rest, d.meta.recycleBinUuid, GroupNode(x.groups[j]));
      FindGroup(rest, d.meta.recycleBinUuid).Some? &&
      FindGroup(after, d.meta.recycleBinUuid).Some? && FindGroup(after, x.uuid).Some? &&
      Kids(FindGroup(after, d.meta.recycleBinUuid).value) ==
        Kids(FindGroup(d.groups, d.meta.recycleBinUuid).value) + [x.groups[j].uuid] &&
      Kids(FindGroup(after, x.uuid).value) == RemoveFirst(Kids(x), x.groups[j].uuid)
  {
    var c := x.groups[j];
    var rest := Detach(d.groups, c.uuid).0;
    var bin := d.meta.recycleBinUuid;
    ParentFound(d.groups, x);
    ParentOutside(d.groups, x, j);
    DetachShrunk(d.groups, c.uuid, bin);
    NotChild(FindGroup(d.groups, bin).value, c.uuid);
    DetachShrunk(d.groups, c.uuid, x.uuid);
    InsertGrown(rest, bin, GroupNode(c), bin);
    InsertGrown(rest, bin, GroupNode(c), x.uuid);
  }

  /** The bin and the parent `x` after the child moved back from the bin to
      `x`: the bin has its old children again, and the parent has its other
      children with the child appended at the end. */
  lemma BinAndParentAfterMoveBack(d: Doc, x: Group, j: nat)
    requires WellFormed(d.groups) && FindGroup(d.groups, d.meta.recycleBinUuid).Some?
    requires Occurs(d.groups, x) && j < |x.groups|
    requires x.groups[j].uuid !in SubIds(FindGroup(d.groups, d.meta.recycleBinUuid).value)
    requires d.meta.recycleBinUuid !in SubIds(x.groups[j]) && x.uuid != d.meta.recycleBinUuid
    requires Detach(d.groups, x.groups[j].uuid).1 == Some(GroupNode(x.groups[j]))
    ensures var rest := Detach(d.groups, x.groups[j].uuid).0;
      var back := Insert(rest, x.uuid, GroupNode(x.groups[j]));
      FindGroup(back, d.meta.recycleBinUuid).Some? && FindGroup(back, x.uuid).Some? &&
      Kids(FindGroup(back, d.meta.recycleBinUuid).value) == Kids(FindGroup(d.groups, d.meta.recycleBinUuid).value) &&
      Kids(FindGroup(back, x.uuid).value) == RemoveFirst(Kids(x), x.groups[j].uuid) + [x.groups[j].uuid]
  {
    var c := x.groups[j];
    var rest := Detach(d.groups, c.uuid).0;
    var bin := d.meta.recycleBinUuid;
    ParentFound(d.groups, x);
    ParentOutside(d.groups, x, j);
    DetachShrunk(d.groups, c.uuid, bin);
    NotChild(FindGroup(d.groups, bin).value, c.uuid);
    DetachShrunk(d.groups, c.uuid, x.uuid);
    InsertGrown(rest, x.uuid, GroupNode(c), bin);
    InsertGrown(rest, x.uuid, GroupNode(c), x.uuid);
  }

  /** In the forest after the recycle, the child is found again inside the
      bin. */
  lemma RecycledDetachable(gs: seq<Group>, bin: Uuid, id: Uuid)
    requires Unique(gs) && FindGroup(gs, bin).Some? && Detach(gs, id).1.Some?
    requires bin !in NodeIds(Detach(gs, id).1.value)
    ensures Detach(Insert(Detach(gs, id).0, bin, Detach(gs, id).1.value), id) == Detach(gs, id)
  {
    DetachShrunk(gs, id, bin);
    DetachedGone(gs, id);
    DetachInserted(Detach(gs, id).0, bin, Detach(gs, id).1.value);
  }

  /** In the forest after the recycle, a group outside the recycled node
      still resolves. */
  lemma RecycledResolves(gs: seq<Group>, bin: Uuid, id: Uuid, p: Uuid)
    requires WellFormed(gs) && Detach(gs, id).1.Some? && GetGroupIn(gs, p).Some?
    requires p !in NodeIds(Detach(gs, id).1.value)
    ensures GetGroupIn(Insert(Detach(gs, id).0, bin, Detach(gs, id).1.value), p).Some?
  {
    DetachShrunk(gs, id, p);
    InsertGrown(Detach(gs, id).0, bin, Detach(gs, id).1.value, p);
  }

  /** A move whose target resolves and whose node has a parent outside the
      target is accepted. */
  lemma MoveAccepted(d: Doc, id: Uuid, to: Uuid, rest: seq<Group>, n: Node)
    requires GetGroupIn(d.groups, to).Some? && Detach(d.groups, id) == (rest, Some(n)) && to !in NodeIds(n)
    ensures Move(d, id, to) == (d.(groups := Insert(rest, to, n)), Done)
  {
  }

  /** Moving the recycled child back to `x` is accepted, and detaches it
      from the bin. */
  lemma MoveBackAccepted(d: Doc, x: Group, j: nat)
    requires WellFormed(d.groups) && FindGroup(d.groups, d.meta.recycleBinUuid).Some?
    requires Occurs(d.groups, x) && j < |x.groups|
    requires d.meta.recycleBinUuid !in SubIds(x.groups[j]) && x.uuid != d.meta.recycleBinUuid
    requires Detach(d.groups, x.groups[j].uuid).1 == Some(GroupNode(x.groups[j]))
    ensures var rest := Detach(d.groups, x.groups[j].uuid).0;
      var r := d.(groups := Insert(rest, d.meta.recycleBinUuid, GroupNode(x.groups[j])));
      Move(r, x.groups[j].uuid, x.uuid) == (d.(groups := Insert(rest, x.uuid, GroupNode(x.groups[j]))), Done)
  {
    var c := x.groups[j];
    var bin := d.meta.recycleBinUuid;
    var rest := Detach(d.groups, c.uuid).0;
    var after := Insert(rest, bin, GroupNode(c));
    assert GetGroupIn(d.groups, x.uuid).Some? && x.uuid !in SubIds(c) by {
      ParentFound(d.groups, x);
      ParentOutside(d.groups, x, j);
      FindGroupIn(d.groups, x.uuid);
    }
    assert Detach(after, c.uuid) == (rest, Some(GroupNode(c))) by {
      RecycledDetachable(d.groups, bin, c.uuid);
    }
    assert GetGroupIn(after, x.uuid).Some? by {
      RecycledResolves(d.groups, bin, c.uuid, x.uuid);
    }
    MoveAccepted(d.(groups := after), c.uuid, x.uuid, rest, GroupNode(c));
  }

  /** A group with a child outside the bin is not the bin. */
  lemma ParentNotBin(gs: seq<Group>, x: Group, j: nat, bin: Uuid)
    requires Unique(gs) && Occurs(gs, x) && j < |x.groups| && FindGroup(gs, bin).Some?
    requires x.groups[j].uuid !in SubIds(FindGroup(gs, bin).value)
    ensures x.uuid != bin
  {
    assert x.groups[j].uuid in SubIds(x) by {
      KidsInSubIds(x);
      assert Kids(x)[j] == x.groups[j].uuid;
    }
    if x.uuid == bin {
      ParentFound(gs, x);
    }
  }

  /** Removing the `j`-th child of group `x` with a resolving bin moves it
      into the bin, whose child count grows by one while the parent's drops
      by one; moving it back to `x` is accepted and gives the bin its old
      children and the parent its old child count. */
  lemma RemoveThenMoveBack(d: Doc, x: Group, j: nat, now: Time, newBin: Uuid)
    requires WellFormed(d.groups) && d.meta.recycleBinEnabled
    requires GetGroupIn(d.groups, d.meta.recycleBinUuid).Some?
    requires Occurs(d.groups, x) && j < |x.groups|
    requires x.groups[j].uuid !in SubIds(GetGroupIn(d.groups, d.meta.recycleBinUuid).value)
    requires d.meta.recycleBinUuid !in SubIds(x.groups[j])
    ensures var r := Remove(d, x.groups[j].uuid, now, newBin);
      var bin := d.meta.recycleBinUuid;
      r.1 == Recycled && r.0.meta == d.meta && r.0.deletedObjects == d.deletedObjects &&
      GetGroupIn(r.0.groups, bin).Some? && GetGroupIn(r.0.groups, x.uuid).Some? &&
      Kids(GetGroupIn(r.0.groups, bin).value) == Kids(GetGroupIn(d.groups, bin).value) + [x.groups[j].uuid] &&
      |Kids(GetGroupIn(r.0.groups, x.uuid).value)| == |x.groups| - 1
    ensures var r := Remove(d, x.groups[j].uuid, now, newBin);
      var m := Move(r.0, x.groups[j].uuid, x.uuid);
      var bin := d.meta.recycleBinUuid;
      m.1 == Done && GetGroupIn(m.0.groups, bin).Some? && GetGroupIn(m.0.groups, x.uuid).Some? &&
      Kids(GetGroupIn(m.0.groups, bin).value) == Kids(GetGroupIn(d.groups, bin).value) &&
      |Kids(GetGroupIn(m.0.groups, x.uuid).value)| == |x.groups|
  {
    var bin := d.meta.recycleBinUuid;
    var c := x.groups[j];
    assert x.uuid != EmptyUuid by {
      ParentFound(d.groups, x);
      FindGroupIn(d.groups, x.uuid);
    }
    ParentNotBin(d.groups, x, j, bin);
    RemoveIntoBin(d, x, j, now, newBin);
    BinAndParentAfterRemove(d, x, j);
    BinAndParentAfterMoveBack(d, x, j);
    MoveBackAccepted(d, x, j);
    ChildIndexed(x, j);
  }

  /** A group other than the target of an insertion keeps its children. */
  lemma GrownElsewhere(before: Option<Group>, after: Option<Group>, p: Uuid, n: Node)
    requires Grown(before, after, p, n) && before.Some? && before.value.uuid != p
    ensures after.Some? && Kids(after.value) == Kids(before.value) && EntryKids(after.value) == EntryKids(before.value)
  {
  }

  /** The forest `remove` leaves when it had to create the bin: the bin is
      appended to the default group of what remains after the detach, and
      the node is appended to the bin. */
  lemma LazyBinShape(d: Doc, id: Uuid, now: Time, newBin: Uuid)
    requires WellFormed(d.groups) && d.meta.recycleBinEnabled
    requires GetGroupIn(d.groups, d.meta.recycleBinUuid).None?
    requires newBin != EmptyUuid && newBin !in Ids(d.groups) && Detach(d.groups, id).1.Some?
    ensures Remove(d, id, now, newBin).0.groups ==
      Insert(Insert(Detach(d.groups, id).0, d.groups[0].uuid, GroupNode(NewGroup(newBin, RecycleBinName))),
             newBin, Detach(d.groups, id).1.value)
  {
    LazyBinDetach(d, id, newBin);
    LazyBinRemains(d, id, newBin);
    CreateRecycleBinReady(d, newBin);
  }

  /** Where `remove` creates the bin, the parent `x` of the removed `j`-th
      child loses that child and no other, when `x` is not the default
      group (which also gains the bin). */
  lemma RemoveLazyBinParent(d: Doc, x: Group, j: nat, now: Time, newBin: Uuid)
    requires WellFormed(d.groups) && d.meta.recycleBinEnabled
    requires GetGroupIn(d.groups, d.meta.recycleBinUuid).None?
    requires newBin != EmptyUuid && newBin !in Ids(d.groups)
    requires Occurs(d.groups, x) && j < |x.groups| && x.uuid != d.groups[0].uuid
    ensures var r := Remove(d, x.groups[j].uuid, now, newBin);
      GetGroupIn(r.0.groups, x.uuid).Some? &&
      Kids(GetGroupIn(r.0.groups, x.uuid).value) == RemoveFirst(Kids(x), x.groups[j].uuid) &&
      |Kids(GetGroupIn(r.0.groups, x.uuid).value)| == |x.groups| - 1
  {
    var c := x.groups[j];
    var rest := Detach(d.groups, c.uuid).0;
    var b := NewGroup(newBin, RecycleBinName);
    var mid := Insert(rest, d.groups[0].uuid, GroupNode(b));
    assert x.uuid in Ids(d.groups) && FindGroup(d.groups, x.uuid) == Some(x) by {
      ParentFound(d.groups, x);
      FindGroupIn(d.groups, x.uuid);
    }
    assert x.uuid !in SubIds(c) && x.uuid !in SubIds(b) by {
      ParentOutside(d.groups, x, j);
      assert SubIds(b) == multiset{newBin} by {
        assert Ids(b.groups) == multiset{};
      }
    }
    assert Detach(d.groups, c.uuid).1 == Some(GroupNode(c)) by {
      DetachFindsChild(d.groups, x, j);
    }
    assert Remove(d, c.uuid, now, newBin).0.groups == Insert(mid, newBin, GroupNode(c)) by {
      LazyBinShape(d, c.uuid, now, newBin);
    }
    assert Shrunk(Some(x), FindGroup(rest, x.uuid), c.uuid) by {
      DetachShrunk(d.groups, c.uuid, x.uuid);
    }
    var x0 := FindGroup(rest, x.uuid).value;
    assert x0.uuid == x.uuid && Kids(x0) == RemoveFirst(Kids(x), c.uuid);
    assert FindGroup(mid, x.uuid).Some? && Kids(FindGroup(mid, x.uuid).value) == Kids(x0) by {
      InsertGrown(rest, d.groups[0].uuid, GroupNode(b), x.uuid);
      GrownElsewhere(FindGroup(rest, x.uuid), FindGroup(mid, x.uuid), d.groups[0].uuid, GroupNode(b));
    }
    var x1 := FindGroup(mid, x.uuid).value;
    assert FindGroup(Insert(mid, newBin, GroupNode(c)), x.uuid).Some? &&
      Kids(FindGroup(Insert(mid, newBin, GroupNode(c)), x.uuid).value) == Kids(x1) by {
      InsertGrown(mid, newBin, GroupNode(c), x.uuid);
      GrownElsewhere(FindGroup(mid, x.uuid), FindGroup(Insert(mid, newBin, GroupNode(c)), x.uuid), newBin, GroupNode(c));
    }
    ChildIndexed(x, j);
    assert x.uuid != EmptyUuid;
    assert GetGroupIn(Insert(mid, newBin, GroupNode(c)), x.uuid) == FindGroup(Insert(mid, newBin, GroupNode(c)), x.uuid);
  }

  /** A recycled group keeps its own subtree: after `remove`, its uuid
      resolves to the very group that was removed. */
  lemma RecycledNodeKept(d: Doc, x: Group, j: nat, now: Time, newBin: Uuid)
    requires WellFormed(d.groups) && d.meta.recycleBinEnabled
    requires GetGroupIn(d.groups, d.meta.recycleBinUuid).Some?
    requires Occurs(d.groups, x) && j < |x.groups|
    requires x.groups[j].uuid !in SubIds(GetGroupIn(d.groups, d.meta.recycleBinUuid).value)
    requires d.meta.recycleBinUuid !in SubIds(x.groups[j])
    ensures FindGroup(Remove(d, x.groups[j].uuid, now, newBin).0.groups, x.groups[j].uuid) == Some(x.groups[j])
  {
    var c := x.groups[j];
    var rest := Detach(d.groups, c.uuid).0;
    RemoveIntoBin(d, x, j, now, newBin);
    assert FindGroup(rest, d.meta.recycleBinUuid).Some? by {
      DetachShrunk(d.groups, c.uuid, d.meta.recycleBinUuid);
    }
    DetachedGone(d.groups, c.uuid);
    InsertNew(rest, d.meta.recycleBinUuid, c);
  }

  /** Every branch of `remove` leaves the forest well formed, given a
      fresh uuid for a bin it may have to create. */
  lemma RemoveWellFormed(d: Doc, id: Uuid, now: Time, newBin: Uuid)
    requires WellFormed(d.groups) && newBin != EmptyUuid && newBin !in Ids(d.groups)
    ensures WellFormed(Remove(d, id, now, newBin).0.groups)
  {
    var d1 := if d.meta.recycleBinEnabled then CreateRecycleBin(d, newBin) else d;
    assert WellFormed(d1.groups) by {
      if d.meta.recycleBinEnabled {
        CreateRecycleBinReady(d, newBin);
      }
    }
    var found := Detach(d1.groups, id).1;
    if found.Some? {
      var bin := GetGroupIn(d1.groups, d1.meta.recycleBinUuid);
      if d1.meta.recycleBinEnabled && bin.Some? && id !in SubIds(bin.value) {
        if bin.value.uuid !in NodeIds(found.value) {
          MoveKeepsIds(d1, id, bin.value.uuid);
        }
      } else {
        DetachIds(d1.groups, id);
        WellFormedShrinks(Detach(d1.groups, id).0, d1.groups, NodeIds(found.value));
      }
    }
  }

  // ----- the default group -----

  /** An operation that keeps the uuids of the root groups, in order, keeps
      the default group: it exists after exactly when before, under the
      same uuid. */
  lemma DefaultGroupKept(before: seq<Group>, after: seq<Group>)
    requires GroupUuids(after) == GroupUuids(before)
    ensures GetDefaultGroup(after).Some? == GetDefaultGroup(before).Some?
    ensures GetDefaultGroup(after).Some? ==> GetDefaultGroup(after).value.uuid == GetDefaultGroup(before).value.uuid
  {
    if before != [] {
      assert GroupUuids(after)[0] == GroupUuids(before)[0];
    }
  }

  /** `createDefaultGroup()` on a database without groups gives a
      well-formed forest whose default group is the new empty group. That
      it leaves a database with groups alone is stated by
      `KdbxDocument.CreateDefaultGroup` itself. */
  lemma CreateDefaultGroupReady(d: Doc, name: string, u: Uuid)
    requires d.groups == [] && u != EmptyUuid
    ensures WellFormed(CreateDefaultGroup(d, name, u).groups)
    ensures GetDefaultGroup(CreateDefaultGroup(d, name, u).groups) == Some(NewGroup(u, name))
  {
    var g := NewGroup(u, name);
    LeafIds(g);
    forall x ensures Ids([g])[x] <= 1 {
      assert Ids([g])[x] == multiset{u}[x];
    }
  }
}
