/** Editing an entry where it stands in the forest: field, attachment and
    icon edits, and `pushHistory`, all replace the entry named by a uuid by
    a new value of it. */
module KdbxEntries {
  import opened KdbxTypes
  import opened KdbxTree
  import opened KdbxMoves
  import opened KdbxLazyBin

  /** `entry.pushHistory()`: a snapshot of the entry's current state is
      appended after every earlier snapshot. */
  function PushSnapshot(e: Entry): (r: Entry)
    ensures r.uuid == e.uuid && r.Current() == e.Current()
    ensures |r.history| == |e.history| + 1 && r.history[|e.history|] == e.Current()
    ensures forall i :: 0 <= i < |e.history| ==> r.history[i] == e.history[i]
  {
    e.(history := e.history + [e.Current()])
  }

  /** `entry.fields[name] = value`. */
  function SetField(e: Entry, name: string, value: FieldValue): (r: Entry)
    ensures r.uuid == e.uuid && r.history == e.history
    ensures r.customIcon == e.customIcon && r.binaries == e.binaries
    ensures r.fields.Keys == e.fields.Keys + {name} && r.fields[name] == value
    ensures forall k :: k in e.fields && k != name ==> r.fields[k] == e.fields[k]
  {
    e.(fields := e.fields[name := value])
  }

  // ----- lemmas: replacing one entry keeps every uuid in place -----

  lemma EntryUuidsUpdate(es: seq<Entry>, k: nat, e: Entry)
    requires k < |es| && es[k].uuid == e.uuid
    ensures EntryUuids(es[k := e]) == EntryUuids(es)
  {
    assert forall i :: 0 <= i < |es| ==> EntryUuids(es[k := e])[i] == EntryUuids(es)[i];
  }

  lemma {:induction false} EntryBagUpdate(es: seq<Entry>, k: nat, e: Entry)
    requires k < |es| && es[k].uuid == e.uuid
    ensures EntryBag(es[k := e]) == EntryBag(es)
  {
    if k == 0 {
      assert es[k := e][1..] == es[1..];
    } else {
      assert es[k := e][1..] == es[1..][k - 1 := e];
      EntryBagUpdate(es[1..], k - 1, e);
    }
  }

  /** The head group with its `k`-th entry replaced by a namesake. */
  lemma ReplaceHere(gs: seq<Group>, e: Entry)
    requires gs != [] && IndexOf(EntryKids(gs[0]), e.uuid) < |gs[0].entries|
    ensures Ids(ReplaceEntry(gs, e)) == Ids(gs)
  {
    var k := IndexOf(EntryKids(gs[0]), e.uuid);
    EntryBagUpdate(gs[0].entries, k, e);
    IdsHeadEntries(gs, gs[0].entries[k := e], multiset{});
  }

  lemma {:induction false} ReplaceEntryIds(gs: seq<Group>, e: Entry)
    ensures Ids(ReplaceEntry(gs, e)) == Ids(gs)
  {
    if gs != [] {
      var k := IndexOf(EntryKids(gs[0]), e.uuid);
      if k < |gs[0].entries| {
        ReplaceHere(gs, e);
      } else if FindEntry(gs[0].groups, e.uuid).Some? {
        ReplaceEntryIds(gs[0].groups, e);
        IdsHeadGroups(gs, ReplaceEntry(gs[0].groups, e), multiset{});
      } else {
        ReplaceEntryIds(gs[1..], e);
        IdsTail(gs, ReplaceEntry(gs[1..], e), multiset{});
      }
    }
  }

  // ----- lemmas: what searches find after a replacement -----

  /** The shape of `FindEntry` on a forest written as a head and a tail. */
  lemma FindEntryCons(g: Group, tl: seq<Group>, id: Uuid)
    ensures FindEntry([g] + tl, id) ==
      if IndexOf(EntryKids(g), id) < |g.entries| then Some(g.entries[IndexOf(EntryKids(g), id)])
      else if FindEntry(g.groups, id).Some? then FindEntry(g.groups, id)
      else FindEntry(tl, id)
  {
    assert ([g] + tl)[0] == g && ([g] + tl)[1..] == tl;
  }

  /** The head group with its entry named `e.uuid` replaced: its entry
      list reads the same uuids, and only the slot of `e` changes. */
  lemma ReplacedHead(g: Group, e: Entry, id: Uuid)
    requires IndexOf(EntryKids(g), e.uuid) < |g.entries|
    ensures var g' := g.(entries := g.entries[IndexOf(EntryKids(g), e.uuid) := e]);
      EntryKids(g') == EntryKids(g) &&
      (IndexOf(EntryKids(g), id) < |g.entries| ==>
        g'.entries[IndexOf(EntryKids(g), id)] == if id == e.uuid then e else g.entries[IndexOf(EntryKids(g), id)])
  {
    EntryUuidsUpdate(g.entries, IndexOf(EntryKids(g), e.uuid), e);
  }

  lemma ReplacedHere(gs: seq<Group>, e: Entry, id: Uuid)
    requires gs != [] && IndexOf(EntryKids(gs[0]), e.uuid) < |gs[0].entries|
    ensures FindEntry(ReplaceEntry(gs, e), id) == if id == e.uuid then Some(e) else FindEntry(gs, id)
  {
    var g := gs[0];
    var g' := g.(entries := g.entries[IndexOf(EntryKids(g), e.uuid) := e]);
    assert ReplaceEntry(gs, e) == [g'] + gs[1..];
    ReplacedHead(g, e, id);
    assert gs == [g] + gs[1..];
    FindEntryCons(g', gs[1..], id);
    FindEntryCons(g, gs[1..], id);
  }

  lemma ReplacedBelow(gs: seq<Group>, e: Entry, id: Uuid)
    requires gs != [] && IndexOf(EntryKids(gs[0]), e.uuid) == |gs[0].entries|
    requires FindEntry(gs[0].groups, e.uuid).Some?
    requires FindEntry(ReplaceEntry(gs[0].groups, e), id) == if id == e.uuid then Some(e) else FindEntry(gs[0].groups, id)
    ensures FindEntry(ReplaceEntry(gs, e), id) == if id == e.uuid then Some(e) else FindEntry(gs, id)
  {
    var g := gs[0];
    var g' := g.(groups := ReplaceEntry(g.groups, e));
    assert gs == [g] + gs[1..];
    FindEntryCons(g', gs[1..], id);
    FindEntryCons(g, gs[1..], id);
  }

  lemma ReplacedLater(gs: seq<Group>, e: Entry, id: Uuid)
    requires gs != [] && IndexOf(EntryKids(gs[0]), e.uuid) == |gs[0].entries|
    requires FindEntry(gs[0].groups, e.uuid).None?
    requires FindEntry(ReplaceEntry(gs[1..], e), id) == if id == e.uuid && FindEntry(gs[1..], e.uuid).Some? then Some(e) else FindEntry(gs[1..], id)
    ensures FindEntry(ReplaceEntry(gs, e), id) == if id == e.uuid && FindEntry(gs, e.uuid).Some? then Some(e) else FindEntry(gs, id)
  {
    var g, tl := gs[0], gs[1..];
    assert gs == [g] + tl;
    assert ReplaceEntry(gs, e) == [g] + ReplaceEntry(tl, e);
    FindEntryCons(g, ReplaceEntry(tl, e), id);
    FindEntryCons(g, tl, id);
    if id == e.uuid {
      assert FindEntry(ReplaceEntry(gs, e), id) == FindEntry(ReplaceEntry(tl, e), id);
      assert FindEntry(gs, id) == FindEntry(tl, id);
    }
  }

  /** After replacing the entry named `e.uuid`, a search for that uuid finds
      `e` (when there was an entry to replace) and a search for any other
      uuid finds what it found before. */
  lemma {:induction false} FindEntryReplaced(gs: seq<Group>, e: Entry, id: Uuid)
    ensures FindEntry(ReplaceEntry(gs, e), id) ==
      if id == e.uuid && FindEntry(gs, e.uuid).Some? then Some(e) else FindEntry(gs, id)
  {
    if gs != [] {
      var k := IndexOf(EntryKids(gs[0]), e.uuid);
      if k < |gs[0].entries| {
        ReplacedHere(gs, e, id);
      } else if FindEntry(gs[0].groups, e.uuid).Some? {
        FindEntryReplaced(gs[0].groups, e, id);
        ReplacedBelow(gs, e, id);
      } else {
        FindEntryReplaced(gs[1..], e, id);
        ReplacedLater(gs, e, id);
      }
    }
  }

  /** `after` is `before` as far as a group goes: found in both or in
      neither, with the same name, icon and child uuids. */
  ghost predicate Kept(before: Option<Group>, after: Option<Group>) {
    after.Some? == before.Some? &&
    (before.Some? ==>
      after.value.name == before.value.name && after.value.customIcon == before.value.customIcon &&
      Kids(after.value) == Kids(before.value) && EntryKids(after.value) == EntryKids(before.value))
  }

  lemma KeptHere(gs: seq<Group>, e: Entry, b: Uuid)
    requires gs != [] && IndexOf(EntryKids(gs[0]), e.uuid) < |gs[0].entries|
    ensures Kept(FindGroup(gs, b), FindGroup(ReplaceEntry(gs, e), b))
  {
    var g := gs[0];
    var g' := g.(entries := g.entries[IndexOf(EntryKids(g), e.uuid) := e]);
    assert ReplaceEntry(gs, e) == [g'] + gs[1..];
    assert ([g'] + gs[1..])[1..] == gs[1..];
    ReplacedHead(g, e, e.uuid);
  }

  lemma KeptBelow(gs: seq<Group>, e: Entry, b: Uuid)
    requires gs != [] && IndexOf(EntryKids(gs[0]), e.uuid) == |gs[0].entries|
    requires FindEntry(gs[0].groups, e.uuid).Some?
    requires Kept(FindGroup(gs[0].groups, b), FindGroup(ReplaceEntry(gs[0].groups, e), b))
    ensures Kept(FindGroup(gs, b), FindGroup(ReplaceEntry(gs, e), b))
  {
    var g := gs[0];
    var g' := g.(groups := ReplaceEntry(g.groups, e));
    assert ReplaceEntry(gs, e) == [g'] + gs[1..];
    assert ([g'] + gs[1..])[1..] == gs[1..];
  }

  lemma KeptLater(gs: seq<Group>, e: Entry, b: Uuid)
    requires gs != [] && IndexOf(EntryKids(gs[0]), e.uuid) == |gs[0].entries|
    requires FindEntry(gs[0].groups, e.uuid).None?
    requires Kept(FindGroup(gs[1..], b), FindGroup(ReplaceEntry(gs[1..], e), b))
    ensures Kept(FindGroup(gs, b), FindGroup(ReplaceEntry(gs, e), b))
  {
    var r := ReplaceEntry(gs, e);
    assert r[0] == gs[0] && r[1..] == ReplaceEntry(gs[1..], e);
  }

  /** Replacing an entry touches no group: every group is found after
      exactly when before, with the same name, icon and children. */
  lemma {:induction false} ReplaceEntryKept(gs: seq<Group>, e: Entry, b: Uuid)
    ensures Kept(FindGroup(gs, b), FindGroup(ReplaceEntry(gs, e), b))
  {
    if gs != [] {
      var k := IndexOf(EntryKids(gs[0]), e.uuid);
      if k < |gs[0].entries| {
        KeptHere(gs, e, b);
      } else if FindEntry(gs[0].groups, e.uuid).Some? {
        ReplaceEntryKept(gs[0].groups, e, b);
        KeptBelow(gs, e, b);
      } else {
        ReplaceEntryKept(gs[1..], e, b);
        KeptLater(gs, e, b);
      }
    }
  }

  // ----- lemmas: finding an entry -----

  /** Only a uuid of the forest names an entry found in it. */
  lemma {:induction false} FindEntryIn(gs: seq<Group>, id: Uuid)
    ensures FindEntry(gs, id).Some? ==> id in Ids(gs)
  {
    if gs != [] {
      var k := IndexOf(EntryKids(gs[0]), id);
      if k < |gs[0].entries| {
        EntryBagHas(gs[0].entries, k);
      } else {
        FindEntryIn(gs[0].groups, id);
        FindEntryIn(gs[1..], id);
      }
    }
  }

  lemma {:induction false} FindEntryConcat(a: seq<Group>, b: seq<Group>, id: Uuid)
    ensures FindEntry(a + b, id) == if FindEntry(a, id).Some? then FindEntry(a, id) else FindEntry(b, id)
  {
    if a == [] {
      assert a + b == b;
    } else {
      assert a + b == [a[0]] + (a[1..] + b);
      FindEntryCons(a[0], a[1..] + b, id);
      FindEntryCons(a[0], a[1..], id);
      assert a == [a[0]] + a[1..];
      FindEntryConcat(a[1..], b, id);
    }
  }

  /** Appending a group to a list does not change which entry a search
      finds outside that group's subtree. */
  lemma FindEntryAppend(s: seq<Group>, c: Group, id: Uuid)
    requires id !in SubIds(c)
    ensures FindEntry(s + [c], id) == FindEntry(s, id)
  {
    FindEntryConcat(s, [c], id);
    if FindEntry([c], id).Some? {
      FindEntryIn([c], id);
      IdsCons(c, []);
    }
  }

  /** Appending `n` to a group does not change which of its entries or
      child groups a search for a uuid outside `n` finds. */
  lemma AdoptedOther(g: Group, n: Node, x: Uuid)
    requires x !in NodeIds(n)
    ensures var g' := Adopt(g, n); var k := IndexOf(EntryKids(g), x);
      (IndexOf(EntryKids(g'), x) < |g'.entries|) == (k < |g.entries|) &&
      (k < |g.entries| ==> IndexOf(EntryKids(g'), x) == k && g'.entries[k] == g.entries[k]) &&
      FindEntry(g'.groups, x) == FindEntry(g.groups, x)
  {
    AdoptKids(g, n);
    if n.EntryNode? {
      assert IndexOf([n.Id()], x) == 1;
      IndexOfConcat(EntryKids(g), [n.Id()], x);
    } else {
      FindEntryAppend(g.groups, n.group, x);
    }
  }

  lemma InsertedOtherHere(gs: seq<Group>, p: Uuid, n: Node, x: Uuid)
    requires gs != [] && gs[0].uuid == p && x !in NodeIds(n)
    ensures FindEntry(Insert(gs, p, n), x) == FindEntry(gs, x)
  {
    var g := gs[0];
    var g' := Adopt(g, n);
    assert Insert(gs, p, n) == [g'] + gs[1..];
    assert gs == [g] + gs[1..];
    FindEntryCons(g', gs[1..], x);
    FindEntryCons(g, gs[1..], x);
    AdoptedOther(g, n, x);
  }

  lemma InsertedOtherBelow(gs: seq<Group>, p: Uuid, n: Node, x: Uuid)
    requires gs != [] && gs[0].uuid != p && FindGroup(gs[0].groups, p).Some?
    requires FindEntry(Insert(gs[0].groups, p, n), x) == FindEntry(gs[0].groups, x)
    ensures FindEntry(Insert(gs, p, n), x) == FindEntry(gs, x)
  {
    var g := gs[0];
    var g' := g.(groups := Insert(g.groups, p, n));
    assert Insert(gs, p, n) == [g'] + gs[1..];
    assert gs == [g] + gs[1..];
    FindEntryCons(g', gs[1..], x);
    FindEntryCons(g, gs[1..], x);
  }

  lemma InsertedOtherLater(gs: seq<Group>, p: Uuid, n: Node, x: Uuid)
    requires gs != [] && gs[0].uuid != p && FindGroup(gs[0].groups, p).None?
    requires FindEntry(Insert(gs[1..], p, n), x) == FindEntry(gs[1..], x)
    ensures FindEntry(Insert(gs, p, n), x) == FindEntry(gs, x)
  {
    assert Insert(gs, p, n) == [gs[0]] + Insert(gs[1..], p, n);
    assert gs == [gs[0]] + gs[1..];
    FindEntryCons(gs[0], Insert(gs[1..], p, n), x);
    FindEntryCons(gs[0], gs[1..], x);
  }

  /** Appending `n` to a group leaves every other entry where a search
      finds it: each uuid outside `n` names the same entry as before. */
  lemma {:induction false} FindEntryInsertedOther(gs: seq<Group>, p: Uuid, n: Node, x: Uuid)
    requires x !in NodeIds(n)
    ensures FindEntry(Insert(gs, p, n), x) == FindEntry(gs, x)
  {
    if gs != [] {
      if gs[0].uuid == p {
        InsertedOtherHere(gs, p, n, x);
      } else if FindGroup(gs[0].groups, p).Some? {
        FindEntryInsertedOther(gs[0].groups, p, n, x);
        InsertedOtherBelow(gs, p, n, x);
      } else {
        FindEntryInsertedOther(gs[1..], p, n, x);
        InsertedOtherLater(gs, p, n, x);
      }
    }
  }

  lemma InsertedEntryHere(gs: seq<Group>, p: Uuid, e: Entry)
    requires gs != [] && gs[0].uuid == p && e.uuid !in Ids(gs)
    ensures FindEntry(Insert(gs, p, EntryNode(e)), e.uuid) == Some(e)
  {
    var g := gs[0];
    var g' := Adopt(g, EntryNode(e));
    NotAmongKids(gs, e.uuid);
    assert IndexOf(EntryKids(g'), e.uuid) == |g.entries| by {
      AdoptKids(g, EntryNode(e));
      IndexOfConcat(EntryKids(g), [e.uuid], e.uuid);
    }
    FindEntryCons(g', gs[1..], e.uuid);
  }

  lemma InsertedEntryBelow(g: Group, tl: seq<Group>, p: Uuid, e: Entry)
    requires IndexOf(EntryKids(g), e.uuid) == |g.entries|
    requires FindEntry(Insert(g.groups, p, EntryNode(e)), e.uuid) == Some(e)
    ensures FindEntry([g.(groups := Insert(g.groups, p, EntryNode(e)))] + tl, e.uuid) == Some(e)
  {
    FindEntryCons(g.(groups := Insert(g.groups, p, EntryNode(e))), tl, e.uuid);
  }

  lemma InsertedEntryLater(gs: seq<Group>, p: Uuid, e: Entry)
    requires gs != [] && gs[0].uuid != p && FindGroup(gs[0].groups, p).None? && e.uuid !in Ids(gs)
    requires FindEntry(Insert(gs[1..], p, EntryNode(e)), e.uuid) == Some(e)
    ensures FindEntry(Insert(gs, p, EntryNode(e)), e.uuid) == Some(e)
  {
    NotAmongKids(gs, e.uuid);
    FindEntryIn(gs[0].groups, e.uuid);
    FindEntryCons(gs[0], Insert(gs[1..], p, EntryNode(e)), e.uuid);
  }

  /** A new entry appended under an existing parent is found by its uuid. */
  lemma {:induction false} FindEntryInserted(gs: seq<Group>, p: Uuid, e: Entry)
    requires FindGroup(gs, p).Some? && e.uuid !in Ids(gs)
    ensures FindEntry(Insert(gs, p, EntryNode(e)), e.uuid) == Some(e)
  {
    if gs[0].uuid == p {
      InsertedEntryHere(gs, p, e);
    } else if FindGroup(gs[0].groups, p).Some? {
      NotAmongKids(gs, e.uuid);
      FindEntryInserted(gs[0].groups, p, e);
      InsertedEntryBelow(gs[0], gs[1..], p, e);
    } else {
      NotAmongKids(gs, e.uuid);
      FindEntryInserted(gs[1..], p, e);
      InsertedEntryLater(gs, p, e);
    }
  }
}
