/** Where a group sits in a forest, and what unique uuids imply about it:
    a uuid names at most one subtree, so detaching a group's child takes out
    exactly that child. */
module KdbxUnique {
  import opened KdbxTypes
  import opened KdbxTree
  import opened KdbxMoves

  /** `x` is one of the groups of the forest, at any depth. */
  ghost predicate Occurs(gs: seq<Group>, x: Group) {
    gs != [] && (gs[0] == x || Occurs(gs[0].groups, x) || Occurs(gs[1..], x))
  }

  lemma {:induction false} OccursAt(gs: seq<Group>, i: nat)
    requires i < |gs|
    ensures Occurs(gs, gs[i])
  {
    if i > 0 {
      OccursAt(gs[1..], i - 1);
    }
  }

  /** A group of the forest brings its whole subtree with it. */
  lemma {:induction false} OccursIn(gs: seq<Group>, x: Group)
    requires Occurs(gs, x)
    ensures SubIds(x) <= Ids(gs)
  {
    if gs[0] != x {
      if Occurs(gs[0].groups, x) {
        OccursIn(gs[0].groups, x);
      } else {
        OccursIn(gs[1..], x);
      }
    }
  }

  lemma {:induction false} FindGroupOccurs(gs: seq<Group>, id: Uuid)
    requires FindGroup(gs, id).Some?
    ensures Occurs(gs, FindGroup(gs, id).value)
  {
    if gs[0].uuid != id {
      if FindGroup(gs[0].groups, id).Some? {
        FindGroupOccurs(gs[0].groups, id);
      } else {
        FindGroupOccurs(gs[1..], id);
      }
    }
  }

  /** The children of a group of the forest are groups of the forest. */
  lemma {:induction false} ChildOccurs(gs: seq<Group>, x: Group, j: nat)
    requires Occurs(gs, x) && j < |x.groups|
    ensures Occurs(gs, x.groups[j])
  {
    if gs[0] == x {
      OccursAt(x.groups, j);
    } else if Occurs(gs[0].groups, x) {
      ChildOccurs(gs[0].groups, x, j);
    } else {
      ChildOccurs(gs[1..], x, j);
    }
  }

  /** The uuid of a group of the forest, counted part by part. */
  lemma OccursWhere(gs: seq<Group>, x: Group)
    requires Occurs(gs, x)
    ensures gs[0] == x || x.uuid in Ids(gs[0].groups) || x.uuid in Ids(gs[1..])
  {
    if gs[0] != x {
      if Occurs(gs[0].groups, x) {
        OccursIn(gs[0].groups, x);
      } else {
        OccursIn(gs[1..], x);
      }
    }
  }

  lemma OccursUniqueHead(gs: seq<Group>, y: Group)
    requires Unique(gs) && Occurs(gs, y) && gs[0].uuid == y.uuid
    ensures gs[0] == y
  {
    if gs[0] != y {
      OccursWhere(gs, y);
      IdsAt(gs, y.uuid);
      assert false;
    }
  }

  /** With unique uuids, a uuid names at most one group of the forest. */
  lemma {:induction false} OccursUnique(gs: seq<Group>, x: Group, y: Group)
    requires Unique(gs) && Occurs(gs, x) && Occurs(gs, y) && x.uuid == y.uuid
    ensures x == y
  {
    var g := gs[0];
    if g == x {
      OccursUniqueHead(gs, y);
    } else if g == y {
      OccursUniqueHead(gs, x);
    } else {
      UniqueParts(gs);
      if Occurs(g.groups, x) && Occurs(g.groups, y) {
        OccursUnique(g.groups, x, y);
      } else if Occurs(gs[1..], x) && Occurs(gs[1..], y) {
        OccursUnique(gs[1..], x, y);
      } else {
        assert x.uuid in Ids(g.groups) && x.uuid in Ids(gs[1..]) by {
          if Occurs(g.groups, x) {
            OccursIn(g.groups, x);
            OccursIn(gs[1..], y);
          } else {
            OccursIn(gs[1..], x);
            OccursIn(g.groups, y);
          }
        }
        IdsAt(gs, x.uuid);
        assert false;
      }
    }
  }

  lemma ChildNotEntry(gs: seq<Group>, x: Group, j: nat)
    requires Unique(gs) && Occurs(gs, x) && j < |x.groups|
    ensures IndexOf(EntryKids(gs[0]), x.groups[j].uuid) == |gs[0].entries|
  {
    var g := gs[0];
    var c := x.groups[j];
    var k := IndexOf(EntryKids(g), c.uuid);
    if k < |g.entries| {
      EntryBagHas(g.entries, k);
      ChildOccurs(gs, x, j);
      OccursWhere(gs, c);
      IdsAt(gs, c.uuid);
      assert false;
    }
  }

  lemma DetachFindsChildHere(gs: seq<Group>, x: Group, j: nat)
    requires Unique(gs) && Occurs(gs, x) && j < |x.groups|
    requires IndexOf(Kids(gs[0]), x.groups[j].uuid) < |gs[0].groups|
    ensures Detach(gs, x.groups[j].uuid).1 == Some(GroupNode(x.groups[j]))
  {
    var g := gs[0];
    var id := x.groups[j].uuid;
    var i := IndexOf(Kids(g), id);
    ChildNotEntry(gs, x, j);
    DetachConsGroup(g, gs[1..], id);
    assert gs == [g] + gs[1..];
    OccursAt(g.groups, i);
    ChildOccurs(gs, x, j);
    OccursUnique(gs, g.groups[i], x.groups[j]);
  }

  /** A child that is detachable from under the head group has its parent
      there too. */
  lemma ParentBelow(gs: seq<Group>, x: Group, j: nat)
    requires Unique(gs) && Occurs(gs, x) && j < |x.groups| && gs[0] != x
    requires Detach(gs[0].groups, x.groups[j].uuid).1.Some?
    ensures Occurs(gs[0].groups, x)
  {
    var id := x.groups[j].uuid;
    if !Occurs(gs[0].groups, x) {
      DetachPresent(gs[0].groups, id);
      ChildOccurs(gs[1..], x, j);
      OccursIn(gs[1..], x.groups[j]);
      IdsAt(gs, id);
      assert false;
    }
  }

  lemma DetachFindsChildBelow(gs: seq<Group>, x: Group, j: nat)
    requires gs != [] && j < |x.groups| && IndexOf(EntryKids(gs[0]), x.groups[j].uuid) == |gs[0].entries|
    requires IndexOf(Kids(gs[0]), x.groups[j].uuid) == |gs[0].groups|
    requires Detach(gs[0].groups, x.groups[j].uuid).1 == Some(GroupNode(x.groups[j]))
    ensures Detach(gs, x.groups[j].uuid).1 == Some(GroupNode(x.groups[j]))
  {
    assert gs == [gs[0]] + gs[1..];
    DetachConsBelow(gs[0], gs[1..], x.groups[j].uuid);
  }

  lemma DetachFindsChildLater(gs: seq<Group>, x: Group, j: nat)
    requires Unique(gs) && Occurs(gs, x) && j < |x.groups| && gs[0] != x
    requires IndexOf(EntryKids(gs[0]), x.groups[j].uuid) == |gs[0].entries|
    requires IndexOf(Kids(gs[0]), x.groups[j].uuid) == |gs[0].groups|
    requires Detach(gs[0].groups, x.groups[j].uuid).1.None?
    requires Occurs(gs[0].groups, x) ==> Detach(gs[0].groups, x.groups[j].uuid).1 == Some(GroupNode(x.groups[j]))
    requires Occurs(gs[1..], x) ==> Detach(gs[1..], x.groups[j].uuid).1 == Some(GroupNode(x.groups[j]))
    ensures Detach(gs, x.groups[j].uuid).1 == Some(GroupNode(x.groups[j]))
  {
    var g := gs[0];
    DetachConsLater(g, gs[1..], x.groups[j].uuid);
    assert gs == [g] + gs[1..];
  }

  /** With unique uuids, detaching the uuid of a child of any group of the
      forest takes out exactly that child. */
  lemma {:induction false} DetachFindsChild(gs: seq<Group>, x: Group, j: nat)
    requires Unique(gs) && Occurs(gs, x) && j < |x.groups|
    ensures Detach(gs, x.groups[j].uuid).1 == Some(GroupNode(x.groups[j]))
  {
    var g := gs[0];
    var id := x.groups[j].uuid;
    ChildNotEntry(gs, x, j);
    if IndexOf(Kids(g), id) < |g.groups| {
      DetachFindsChildHere(gs, x, j);
    } else {
      assert id in Kids(x);
      assert g != x;
      UniqueParts(gs);
      if Occurs(g.groups, x) {
        DetachFindsChild(g.groups, x, j);
      }
      if Detach(g.groups, id).1.Some? {
        ParentBelow(gs, x, j);
        DetachFindsChildBelow(gs, x, j);
      } else {
        if Occurs(gs[1..], x) {
          DetachFindsChild(gs[1..], x, j);
        }
        DetachFindsChildLater(gs, x, j);
      }
    }
  }
}
