/** What detaching a node from its parent and appending it to another group
    do to the child lists of every group of the forest: the facts that
    `move` and `remove` are built on. */
module KdbxMoves {
  import opened KdbxTypes
  import opened KdbxTree

  /** `after` is `before` with `n` appended when `before` is the group named
      `p`, and has the same children otherwise. */
  ghost predicate Grown(before: Option<Group>, after: Option<Group>, p: Uuid, n: Node) {
    after.Some? == before.Some? &&
    (before.Some? ==>
      after.value.name == before.value.name && after.value.customIcon == before.value.customIcon &&
      Kids(after.value) == Kids(before.value) + (if before.value.uuid == p && n.GroupNode? then [n.Id()] else []) &&
      EntryKids(after.value) == EntryKids(before.value) + (if before.value.uuid == p && n.EntryNode? then [n.Id()] else []))
  }

  lemma GroupUuidsConcat(a: seq<Group>, b: seq<Group>)
    ensures GroupUuids(a + b) == GroupUuids(a) + GroupUuids(b)
  {
  }

  lemma EntryUuidsConcat(a: seq<Entry>, b: seq<Entry>)
    ensures EntryUuids(a + b) == EntryUuids(a) + EntryUuids(b)
  {
  }

  lemma AdoptKids(g: Group, n: Node)
    ensures Kids(Adopt(g, n)) == Kids(g) + (if n.GroupNode? then [n.Id()] else [])
    ensures EntryKids(Adopt(g, n)) == EntryKids(g) + (if n.EntryNode? then [n.Id()] else [])
  {
    if n.GroupNode? {
      GroupUuidsConcat(g.groups, [n.group]);
    } else {
      EntryUuidsConcat(g.entries, [n.entry]);
    }
  }

  /** Appending to the head group leaves every other search result alone. */
  lemma InsertGrownHere(gs: seq<Group>, p: Uuid, n: Node, b: Uuid)
    requires gs != [] && gs[0].uuid == p && b !in NodeIds(n)
    ensures Grown(FindGroup(gs, b), FindGroup(Insert(gs, p, n), b), p, n)
  {
    var g := gs[0];
    var r := Insert(gs, p, n);
    assert r[0] == Adopt(g, n) && r[1..] == gs[1..];
    if b == p {
      AdoptKids(g, n);
    } else if n.GroupNode? {
      FindGroupAppend(g.groups, n.group, b);
    }
  }

  lemma InsertGrownBelow(gs: seq<Group>, p: Uuid, n: Node, b: Uuid)
    requires gs != [] && gs[0].uuid != p && FindGroup(gs[0].groups, p).Some?
    requires Grown(FindGroup(gs[0].groups, b), FindGroup(Insert(gs[0].groups, p, n), b), p, n)
    ensures Grown(FindGroup(gs, b), FindGroup(Insert(gs, p, n), b), p, n)
  {
    var g := gs[0];
    var r := Insert(gs, p, n);
    assert r[0] == g.(groups := Insert(g.groups, p, n)) && r[1..] == gs[1..];
  }

  lemma InsertGrownLater(gs: seq<Group>, p: Uuid, n: Node, b: Uuid)
    requires gs != [] && gs[0].uuid != p && FindGroup(gs[0].groups, p).None?
    requires Grown(FindGroup(gs[1..], b), FindGroup(Insert(gs[1..], p, n), b), p, n)
    ensures Grown(FindGroup(gs, b), FindGroup(Insert(gs, p, n), b), p, n)
  {
    var r := Insert(gs, p, n);
    assert r[0] == gs[0] && r[1..] == Insert(gs[1..], p, n);
  }

  /** Appending `n` to the group named `p` gives that group one more child
      at the end and leaves the children of every other group as they were;
      every group resolves after exactly when it resolved before. */
  lemma {:induction false} InsertGrown(gs: seq<Group>, p: Uuid, n: Node, b: Uuid)
    requires b !in NodeIds(n)
    ensures Grown(FindGroup(gs, b), FindGroup(Insert(gs, p, n), b), p, n)
  {
    if gs != [] {
      if gs[0].uuid == p {
        InsertGrownHere(gs, p, n, b);
      } else if FindGroup(gs[0].groups, p).Some? {
        InsertGrown(gs[0].groups, p, n, b);
        InsertGrownBelow(gs, p, n, b);
      } else {
        InsertGrown(gs[1..], p, n, b);
        InsertGrownLater(gs, p, n, b);
      }
    }
  }

  /** `after` is `before` without its first child named `id`. */
  ghost predicate Shrunk(before: Option<Group>, after: Option<Group>, id: Uuid) {
    after.Some? == before.Some? &&
    (before.Some? ==>
      after.value.name == before.value.name && after.value.customIcon == before.value.customIcon &&
      Kids(after.value) == RemoveFirst(Kids(before.value), id) &&
      EntryKids(after.value) == RemoveFirst(EntryKids(before.value), id))
  }

  /** How often `u` occurs in a forest, part by part. */
  lemma IdsAt(gs: seq<Group>, u: Uuid)
    requires gs != []
    ensures Ids(gs)[u] == multiset{gs[0].uuid}[u] + EntryBag(gs[0].entries)[u] + Ids(gs[0].groups)[u] + Ids(gs[1..])[u]
  {
  }

  lemma UniqueParts(gs: seq<Group>)
    requires Unique(gs) && gs != []
    ensures Unique(gs[0].groups) && Unique(gs[1..])
  {
    forall u ensures Ids(gs[0].groups)[u] <= 1 && Ids(gs[1..])[u] <= 1 {
      IdsAt(gs, u);
    }
  }

  /** A uuid that is not in a group's subtree names none of its children. */
  lemma NotChild(x: Group, id: Uuid)
    requires id !in SubIds(x)
    ensures RemoveFirst(Kids(x), id) == Kids(x) && RemoveFirst(EntryKids(x), id) == EntryKids(x)
  {
    KidsInSubIds(x);
  }

  /** Whatever a search finds in `gs` has a subtree inside `Ids(gs)`, so a
      uuid that occurs elsewhere is none of its children. */
  lemma NotChildElsewhere(gs: seq<Group>, b: Uuid, id: Uuid)
    requires id !in Ids(gs)
    ensures FindGroup(gs, b).Some? ==> Shrunk(FindGroup(gs, b), FindGroup(gs, b), id)
  {
    if FindGroup(gs, b).Some? {
      FindGroupSound(gs, b);
      NotChild(FindGroup(gs, b).value, id);
    }
  }

  /** With unique uuids, an entry of the head group occurs nowhere below
      the head group. */
  lemma EntryOnce(gs: seq<Group>, k: nat)
    requires Unique(gs) && gs != [] && k < |gs[0].entries|
    ensures gs[0].entries[k].uuid !in Ids(gs[0].groups)
    ensures gs[0].entries[k].uuid !in Ids(gs[1..])
  {
    var id := gs[0].entries[k].uuid;
    EntryBagHas(gs[0].entries, k);
    IdsAt(gs, id);
    assert Ids(gs)[id] <= 1;
  }

  /** Taking out an entry changes the head group's entry list only. */
  lemma EntryTakenKids(g: Group, k: nat)
    requires k < |g.entries| && g.entries[k].uuid !in Ids(g.groups)
    requires k == IndexOf(EntryKids(g), g.entries[k].uuid)
    ensures Kids(g.(entries := RemoveAt(g.entries, k))) == RemoveFirst(Kids(g), g.entries[k].uuid)
    ensures EntryKids(g.(entries := RemoveAt(g.entries, k))) == RemoveFirst(EntryKids(g), g.entries[k].uuid)
  {
    KidsInSubIds(g);
    UuidsRemoveAt(g.groups, g.entries, 0, k);
  }

  lemma DetachShrunkEntryHere(gs: seq<Group>, id: Uuid)
    requires Unique(gs) && gs != [] && IndexOf(EntryKids(gs[0]), id) < |gs[0].entries|
    ensures Shrunk(FindGroup(gs, gs[0].uuid), FindGroup(Detach(gs, id).0, gs[0].uuid), id)
  {
    var g := gs[0];
    var k := IndexOf(EntryKids(g), id);
    var e := g.(entries := RemoveAt(g.entries, k));
    assert Detach(gs, id).0 == [e] + gs[1..] by {
      assert gs == [g] + gs[1..];
      DetachConsEntry(g, gs[1..], id);
    }
    FindGroupCons(e, gs[1..], g.uuid);
    EntryOnce(gs, k);
    EntryTakenKids(g, k);
  }

  lemma DetachShrunkEntryElsewhere(gs: seq<Group>, id: Uuid, b: Uuid)
    requires Unique(gs) && gs != [] && IndexOf(EntryKids(gs[0]), id) < |gs[0].entries| && b != gs[0].uuid
    ensures Shrunk(FindGroup(gs, b), FindGroup(Detach(gs, id).0, b), id)
  {
    var g := gs[0];
    var k := IndexOf(EntryKids(g), id);
    var rest := Detach(gs, id).0;
    assert FindGroup(rest, b) == FindGroup(gs, b) by {
      assert rest[0] == g.(entries := RemoveAt(g.entries, k)) && rest[1..] == gs[1..];
    }
    EntryOnce(gs, k);
    NotChildElsewhere(g.groups, b, id);
    NotChildElsewhere(gs[1..], b, id);
  }

  lemma DetachShrunkGroupHere(gs: seq<Group>, id: Uuid)
    requires gs != [] && IndexOf(EntryKids(gs[0]), id) == |gs[0].entries|
    requires IndexOf(Kids(gs[0]), id) < |gs[0].groups|
    ensures Shrunk(FindGroup(gs, gs[0].uuid), FindGroup(Detach(gs, id).0, gs[0].uuid), id)
  {
    var g := gs[0];
    var j := IndexOf(Kids(g), id);
    assert Detach(gs, id).0[0] == g.(groups := RemoveAt(g.groups, j));
    UuidsRemoveAt(g.groups, g.entries, j, 0);
  }

  /** The shape of `Detach` when the node is a subgroup of the head group. */
  lemma DetachGroupShape(gs: seq<Group>, id: Uuid)
    requires gs != [] && IndexOf(EntryKids(gs[0]), id) == |gs[0].entries|
    requires IndexOf(Kids(gs[0]), id) < |gs[0].groups|
    ensures Detach(gs, id).0 == [gs[0].(groups := RemoveAt(gs[0].groups, IndexOf(Kids(gs[0]), id)))] + gs[1..]
  {
  }

  /** What a search finds in a forest without `id` holds no `id` either. */
  lemma FoundExcludes(gs: seq<Group>, b: Uuid, id: Uuid)
    requires id !in Ids(gs)
    ensures FindGroup(gs, b).Some? ==> id !in SubIds(FindGroup(gs, b).value)
  {
    if FindGroup(gs, b).Some? {
      FindGroupSound(gs, b);
    }
  }

  /** A group that does not hold `id` among its uuids keeps its children
      when `id` is detached. */
  lemma ShrunkNowhere(x: Option<Group>, id: Uuid)
    requires x.Some? ==> id !in SubIds(x.value)
    ensures Shrunk(x, x, id)
  {
    if x.Some? {
      NotChild(x.value, id);
    }
  }

  /** With unique uuids, the uuid of a child group of the head occurs
      nowhere outside that child. */
  lemma ChildOnce(gs: seq<Group>, j: nat)
    requires Unique(gs) && gs != [] && j < |gs[0].groups|
    ensures gs[0].groups[j].uuid !in Ids(RemoveAt(gs[0].groups, j))
    ensures gs[0].groups[j].uuid !in Ids(gs[1..])
  {
    var id := gs[0].groups[j].uuid;
    IdsRemoveAt(gs[0].groups, j);
    IdsAt(gs, id);
    assert SubIds(gs[0].groups[j])[id] >= 1;
    assert Ids(gs)[id] <= 1;
  }

  /** Detaching a child group leaves every search for a uuid outside that
      child's subtree unchanged. */
  lemma DetachGroupFinds(gs: seq<Group>, id: Uuid, b: Uuid)
    requires gs != [] && IndexOf(EntryKids(gs[0]), id) == |gs[0].entries|
    requires IndexOf(Kids(gs[0]), id) < |gs[0].groups| && b != gs[0].uuid
    requires b !in SubIds(gs[0].groups[IndexOf(Kids(gs[0]), id)])
    ensures FindGroup(Detach(gs, id).0, b) == FindGroup(gs, b)
  {
    var g := gs[0];
    var j := IndexOf(Kids(g), id);
    var g' := g.(groups := RemoveAt(g.groups, j));
    DetachGroupShape(gs, id);
    assert gs == [g] + gs[1..];
    FindGroupRemoveAt(g.groups, j, b);
    FindGroupCons(g', gs[1..], b);
    FindGroupCons(g, gs[1..], b);
  }

  /** With unique uuids, a detached child group's uuid occurs nowhere outside
      it, so no group found outside it holds that uuid. */
  lemma DetachGroupExcludes(gs: seq<Group>, id: Uuid, b: Uuid)
    requires Unique(gs) && gs != [] && IndexOf(Kids(gs[0]), id) < |gs[0].groups| && b != gs[0].uuid
    requires b !in SubIds(gs[0].groups[IndexOf(Kids(gs[0]), id)])
    ensures FindGroup(gs, b).Some? ==> id !in SubIds(FindGroup(gs, b).value)
  {
    var g := gs[0];
    var j := IndexOf(Kids(g), id);
    var others := RemoveAt(g.groups, j);
    ChildOnce(gs, j);
    assert gs == [g] + gs[1..];
    FindGroupRemoveAt(g.groups, j, b);
    FindGroupCons(g, gs[1..], b);
    FoundExcludes(others, b, id);
    FoundExcludes(gs[1..], b, id);
  }

  lemma DetachShrunkGroupElsewhere(gs: seq<Group>, id: Uuid, b: Uuid)
    requires Unique(gs) && gs != [] && IndexOf(EntryKids(gs[0]), id) == |gs[0].entries|
    requires IndexOf(Kids(gs[0]), id) < |gs[0].groups| && b != gs[0].uuid
    requires b !in SubIds(gs[0].groups[IndexOf(Kids(gs[0]), id)])
    ensures Shrunk(FindGroup(gs, b), FindGroup(Detach(gs, id).0, b), id)
  {
    DetachGroupFinds(gs, id, b);
    DetachGroupExcludes(gs, id, b);
    ShrunkNowhere(FindGroup(gs, b), id);
  }

  /** The shape of `Detach` when the node is found under the head's subgroups. */
  lemma DetachBelowShape(gs: seq<Group>, id: Uuid)
    requires gs != [] && IndexOf(EntryKids(gs[0]), id) == |gs[0].entries|
    requires IndexOf(Kids(gs[0]), id) == |gs[0].groups|
    requires Detach(gs[0].groups, id).1.Some?
    ensures Detach(gs, id).0 == [gs[0].(groups := Detach(gs[0].groups, id).0)] + gs[1..]
  {
  }

  /** The shape of `Detach` when the node is found after the head group. */
  lemma DetachLaterShape(gs: seq<Group>, id: Uuid)
    requires gs != [] && IndexOf(EntryKids(gs[0]), id) == |gs[0].entries|
    requires IndexOf(Kids(gs[0]), id) == |gs[0].groups|
    requires Detach(gs[0].groups, id).1.None?
    ensures Detach(gs, id).0 == [gs[0]] + Detach(gs[1..], id).0
  {
  }

  /** Searching a forest whose head is `g`. */
  lemma FindGroupCons(g: Group, tl: seq<Group>, b: Uuid)
    ensures FindGroup([g] + tl, b) ==
      if g.uuid == b then Some(g)
      else if FindGroup(g.groups, b).Some? then FindGroup(g.groups, b)
      else FindGroup(tl, b)
  {
    assert ([g] + tl)[0] == g && ([g] + tl)[1..] == tl;
  }

  /** With unique uuids, a node detached below the head group occurs
      nowhere after it. */
  lemma BelowOnce(gs: seq<Group>, id: Uuid)
    requires Unique(gs) && gs != [] && Detach(gs[0].groups, id).1.Some?
    ensures id !in Ids(gs[1..])
  {
    DetachIds(gs[0].groups, id);
    IdsAt(gs, id);
    assert Ids(gs)[id] <= 1;
  }

  /** With unique uuids, a node detached after the head group occurs
      nowhere below it. */
  lemma LaterOnce(gs: seq<Group>, id: Uuid)
    requires Unique(gs) && gs != [] && Detach(gs[1..], id).1.Some?
    ensures id !in Ids(gs[0].groups)
  {
    DetachIds(gs[1..], id);
    IdsAt(gs, id);
    assert Ids(gs)[id] <= 1;
  }

  lemma DetachShrunkBelow(gs: seq<Group>, id: Uuid, b: Uuid)
    requires Unique(gs) && gs != [] && IndexOf(EntryKids(gs[0]), id) == |gs[0].entries|
    requires IndexOf(Kids(gs[0]), id) == |gs[0].groups|
    requires Detach(gs[0].groups, id).1.Some?
    requires Shrunk(FindGroup(gs[0].groups, b), FindGroup(Detach(gs[0].groups, id).0, b), id)
    ensures Shrunk(FindGroup(gs, b), FindGroup(Detach(gs, id).0, b), id)
  {
    var g := gs[0];
    var inner := Detach(g.groups, id).0;
    DetachBelowShape(gs, id);
    FindGroupCons(g.(groups := inner), gs[1..], b);
    FindGroupCons(g, gs[1..], b);
    assert gs == [g] + gs[1..];
    if b != g.uuid && FindGroup(g.groups, b).None? {
      BelowOnce(gs, id);
      NotChildElsewhere(gs[1..], b, id);
    }
  }

  lemma DetachShrunkLater(gs: seq<Group>, id: Uuid, b: Uuid)
    requires Unique(gs) && gs != [] && IndexOf(EntryKids(gs[0]), id) == |gs[0].entries|
    requires IndexOf(Kids(gs[0]), id) == |gs[0].groups|
    requires Detach(gs[0].groups, id).1.None? && Detach(gs[1..], id).1.Some?
    requires Shrunk(FindGroup(gs[1..], b), FindGroup(Detach(gs[1..], id).0, b), id)
    ensures Shrunk(FindGroup(gs, b), FindGroup(Detach(gs, id).0, b), id)
  {
    var g := gs[0];
    DetachLaterShape(gs, id);
    FindGroupCons(g, Detach(gs[1..], id).0, b);
    FindGroupCons(g, gs[1..], b);
    assert gs == [g] + gs[1..];
    if b != g.uuid && FindGroup(g.groups, b).Some? {
      LaterOnce(gs, id);
      NotChildElsewhere(g.groups, b, id);
    }
  }

  /** Detaching the node named `id` takes it out of its parent's child list
      and leaves the children of every other group as they were; every group
      outside the detached subtree still resolves. */
  lemma {:induction false} DetachShrunk(gs: seq<Group>, id: Uuid, b: Uuid)
    requires Unique(gs) && Detach(gs, id).1.Some? && b !in NodeIds(Detach(gs, id).1.value)
    ensures Shrunk(FindGroup(gs, b), FindGroup(Detach(gs, id).0, b), id)
  {
    var g := gs[0];
    UniqueParts(gs);
    if IndexOf(EntryKids(g), id) < |g.entries| {
      if b == g.uuid {
        DetachShrunkEntryHere(gs, id);
      } else {
        DetachShrunkEntryElsewhere(gs, id, b);
      }
    } else if IndexOf(Kids(g), id) < |g.groups| {
      if b == g.uuid {
        DetachShrunkGroupHere(gs, id);
      } else {
        DetachShrunkGroupElsewhere(gs, id, b);
      }
    } else if Detach(g.groups, id).1.Some? {
      DetachShrunk(g.groups, id, b);
      DetachShrunkBelow(gs, id, b);
    } else {
      DetachShrunk(gs[1..], id, b);
      DetachShrunkLater(gs, id, b);
    }
  }

  /** A uuid that is nowhere in a forest names none of its groups. */
  lemma FindGroupAbsent(gs: seq<Group>, id: Uuid)
    requires id !in Ids(gs)
    ensures FindGroup(gs, id).None?
  {
    if FindGroup(gs, id).Some? {
      FindGroupIn(gs, id);
    }
  }

  lemma InsertNewHere(gs: seq<Group>, p: Uuid, c: Group)
    requires gs != [] && gs[0].uuid == p && c.uuid !in Ids(gs)
    ensures FindGroup(Insert(gs, p, GroupNode(c)), c.uuid) == Some(c)
  {
    var g := gs[0];
    IdsAt(gs, c.uuid);
    FindGroupAbsent(g.groups, c.uuid);
    FindGroupConcat(g.groups, [c], c.uuid);
    FindGroupCons(Adopt(g, GroupNode(c)), gs[1..], c.uuid);
  }

  lemma InsertNewBelow(gs: seq<Group>, p: Uuid, c: Group)
    requires gs != [] && gs[0].uuid != p && FindGroup(gs[0].groups, p).Some? && c.uuid !in Ids(gs)
    requires FindGroup(Insert(gs[0].groups, p, GroupNode(c)), c.uuid) == Some(c)
    ensures FindGroup(Insert(gs, p, GroupNode(c)), c.uuid) == Some(c)
  {
    var g := gs[0];
    IdsAt(gs, c.uuid);
    FindGroupCons(g.(groups := Insert(g.groups, p, GroupNode(c))), gs[1..], c.uuid);
  }

  lemma InsertNewLater(gs: seq<Group>, p: Uuid, c: Group)
    requires gs != [] && gs[0].uuid != p && FindGroup(gs[0].groups, p).None? && c.uuid !in Ids(gs)
    requires FindGroup(Insert(gs[1..], p, GroupNode(c)), c.uuid) == Some(c)
    ensures FindGroup(Insert(gs, p, GroupNode(c)), c.uuid) == Some(c)
  {
    var g := gs[0];
    IdsAt(gs, c.uuid);
    FindGroupAbsent(g.groups, c.uuid);
    FindGroupCons(g, Insert(gs[1..], p, GroupNode(c)), c.uuid);
  }

  /** A new group appended under an existing parent resolves to itself. */
  lemma {:induction false} InsertNew(gs: seq<Group>, p: Uuid, c: Group)
    requires FindGroup(gs, p).Some? && c.uuid !in Ids(gs)
    ensures FindGroup(Insert(gs, p, GroupNode(c)), c.uuid) == Some(c)
  {
    IdsAt(gs, c.uuid);
    if gs[0].uuid == p {
      InsertNewHere(gs, p, c);
    } else if FindGroup(gs[0].groups, p).Some? {
      InsertNew(gs[0].groups, p, c);
      InsertNewBelow(gs, p, c);
    } else {
      InsertNew(gs[1..], p, c);
      InsertNewLater(gs, p, c);
    }
  }

  /** The first index of an element appended to a list that lacked it. */
  lemma IndexOfAppended(s: seq<Uuid>, x: Uuid)
    requires x !in s
    ensures IndexOf(s + [x], x) == |s|
  {
    var t := s + [x];
    assert t[|s|] == x;
    assert forall i :: 0 <= i < |s| ==> t[i] == s[i];
  }

  /** Only a uuid of the forest can be detached from it. */
  lemma DetachPresent(gs: seq<Group>, id: Uuid)
    ensures Detach(gs, id).1.Some? ==> id in Ids(gs)
  {
    if Detach(gs, id).1.Some? {
      DetachIds(gs, id);
      assert id in NodeIds(Detach(gs, id).1.value);
    }
  }

  // `Detach` on a forest written as a head group and a tail, one lemma per
  // branch of its definition.

  lemma DetachConsEntry(g: Group, tl: seq<Group>, id: Uuid)
    requires IndexOf(EntryKids(g), id) < |g.entries|
    ensures Detach([g] + tl, id) ==
      ([g.(entries := RemoveAt(g.entries, IndexOf(EntryKids(g), id)))] + tl,
       Some(EntryNode(g.entries[IndexOf(EntryKids(g), id)])))
  {
    assert ([g] + tl)[0] == g && ([g] + tl)[1..] == tl;
  }

  lemma DetachConsGroup(g: Group, tl: seq<Group>, id: Uuid)
    requires IndexOf(EntryKids(g), id) == |g.entries| && IndexOf(Kids(g), id) < |g.groups|
    ensures Detach([g] + tl, id) ==
      ([g.(groups := RemoveAt(g.groups, IndexOf(Kids(g), id)))] + tl,
       Some(GroupNode(g.groups[IndexOf(Kids(g), id)])))
  {
    assert ([g] + tl)[0] == g && ([g] + tl)[1..] == tl;
  }

  lemma DetachConsBelow(g: Group, tl: seq<Group>, id: Uuid)
    requires IndexOf(EntryKids(g), id) == |g.entries| && IndexOf(Kids(g), id) == |g.groups|
    requires Detach(g.groups, id).1.Some?
    ensures Detach([g] + tl, id) == ([g.(groups := Detach(g.groups, id).0)] + tl, Detach(g.groups, id).1)
  {
    assert ([g] + tl)[0] == g && ([g] + tl)[1..] == tl;
  }

  lemma DetachConsLater(g: Group, tl: seq<Group>, id: Uuid)
    requires IndexOf(EntryKids(g), id) == |g.entries| && IndexOf(Kids(g), id) == |g.groups|
    requires Detach(g.groups, id).1.None?
    ensures Detach([g] + tl, id) == ([g] + Detach(tl, id).0, Detach(tl, id).1)
  {
    assert ([g] + tl)[0] == g && ([g] + tl)[1..] == tl;
  }

  lemma NotAmongKids(gs: seq<Group>, id: Uuid)
    requires gs != [] && id !in Ids(gs)
    ensures IndexOf(Kids(gs[0]), id) == |gs[0].groups| && IndexOf(EntryKids(gs[0]), id) == |gs[0].entries|
    ensures id !in Ids(gs[0].groups) && id !in Ids(gs[1..])
  {
    IdsAt(gs, id);
    NotAmongHeadKids(gs[0], id);
  }

  lemma NotAmongHeadKids(g: Group, id: Uuid)
    requires id !in Ids(g.groups) && id !in EntryBag(g.entries)
    ensures IndexOf(Kids(g), id) == |g.groups| && IndexOf(EntryKids(g), id) == |g.entries|
  {
    KidsInSubIds(g);
  }

  lemma DetachInsertedHere(gs: seq<Group>, p: Uuid, n: Node)
    requires gs != [] && gs[0].uuid == p && n.Id() !in Ids(gs)
    ensures Detach(Insert(gs, p, n), n.Id()) == (gs, Some(n))
  {
    var g := gs[0];
    var id := n.Id();
    var g' := Adopt(g, n);
    assert Insert(gs, p, n) == [g'] + gs[1..];
    NotAmongKids(gs, id);
    AdoptKids(g, n);
    if n.EntryNode? {
      IndexOfAppended(EntryKids(g), id);
      DetachConsEntry(g', gs[1..], id);
      assert RemoveAt(g.entries + [n.entry], |g.entries|) == g.entries;
      assert g'.(entries := g.entries) == g;
    } else {
      IndexOfAppended(Kids(g), id);
      DetachConsGroup(g', gs[1..], id);
      assert RemoveAt(g.groups + [n.group], |g.groups|) == g.groups;
      assert g'.(groups := g.groups) == g;
    }
    assert [g] + gs[1..] == gs;
  }

  lemma DetachInsertedBelow(gs: seq<Group>, p: Uuid, n: Node)
    requires gs != [] && gs[0].uuid != p && FindGroup(gs[0].groups, p).Some? && n.Id() !in Ids(gs)
    requires Detach(Insert(gs[0].groups, p, n), n.Id()) == (gs[0].groups, Some(n))
    ensures Detach(Insert(gs, p, n), n.Id()) == (gs, Some(n))
  {
    var g := gs[0];
    var id := n.Id();
    var g' := g.(groups := Insert(g.groups, p, n));
    assert Insert(gs, p, n) == [g'] + gs[1..];
    NotAmongKids(gs, id);
    assert Kids(g') == Kids(g) && EntryKids(g') == EntryKids(g);
    DetachConsBelow(g', gs[1..], id);
    assert g'.(groups := g.groups) == g;
    assert [g] + gs[1..] == gs;
  }

  lemma DetachInsertedLater(gs: seq<Group>, p: Uuid, n: Node)
    requires gs != [] && gs[0].uuid != p && FindGroup(gs[0].groups, p).None? && n.Id() !in Ids(gs)
    requires Detach(Insert(gs[1..], p, n), n.Id()) == (gs[1..], Some(n))
    ensures Detach(Insert(gs, p, n), n.Id()) == (gs, Some(n))
  {
    var g := gs[0];
    var id := n.Id();
    assert Insert(gs, p, n) == [g] + Insert(gs[1..], p, n);
    NotAmongKids(gs, id);
    DetachPresent(g.groups, id);
    DetachConsLater(g, Insert(gs[1..], p, n), id);
    assert [g] + gs[1..] == gs;
  }

  /** Detaching a node that was just appended under an existing parent
      gives back the forest it was appended to. */
  lemma {:induction false} DetachInserted(gs: seq<Group>, p: Uuid, n: Node)
    requires FindGroup(gs, p).Some? && n.Id() !in Ids(gs)
    ensures Detach(Insert(gs, p, n), n.Id()) == (gs, Some(n))
  {
    IdsAt(gs, n.Id());
    if gs[0].uuid == p {
      DetachInsertedHere(gs, p, n);
    } else if FindGroup(gs[0].groups, p).Some? {
      DetachInserted(gs[0].groups, p, n);
      DetachInsertedBelow(gs, p, n);
    } else {
      DetachInserted(gs[1..], p, n);
      DetachInsertedLater(gs, p, n);
    }
  }
}
