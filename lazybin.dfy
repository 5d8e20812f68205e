/** A recycle bin created on demand is an empty group appended to the
    default group. Appending it before a node is detached gives the same
    forest as appending it after: the facts `remove` needs when it creates
    the bin and then moves the node into it. */
module KdbxLazyBin {
  import opened KdbxTypes
  import opened KdbxTree
  import opened KdbxMoves

  lemma {:induction false} IndexOfConcat(s: seq<Uuid>, t: seq<Uuid>, x: Uuid)
    ensures IndexOf(s + t, x) == if IndexOf(s, x) < |s| then IndexOf(s, x) else |s| + IndexOf(t, x)
  {
    if s == [] {
      assert s + t == t;
    } else {
      assert (s + t)[0] == s[0] && (s + t)[1..] == s[1..] + t;
      IndexOfConcat(s[1..], t, x);
    }
  }

  lemma RemoveAtAppend<T>(s: seq<T>, k: nat, x: T)
    requires k < |s|
    ensures RemoveAt(s + [x], k) == RemoveAt(s, k) + [x]
  {
    assert (s + [x])[..k] == s[..k];
    assert (s + [x])[k + 1..] == s[k + 1..] + [x];
  }

  /** Where the head `h` holds the node, the appended group stays last. */
  lemma AppendEmptyHead(h: Group, t: seq<Group>, b: Group, id: Uuid)
    requires IndexOf(EntryKids(h), id) < |h.entries| || IndexOf(Kids(h), id) < |h.groups| ||
      Detach(h.groups, id).1.Some?
    ensures Detach([h] + (t + [b]), id) == (Detach([h] + t, id).0 + [b], Detach([h] + t, id).1)
  {
    if IndexOf(EntryKids(h), id) < |h.entries| {
      DetachConsEntry(h, t + [b], id);
      DetachConsEntry(h, t, id);
      var h' := Detach([h] + t, id).0[0];
      assert [h'] + (t + [b]) == ([h'] + t) + [b];
    } else if IndexOf(Kids(h), id) < |h.groups| {
      DetachConsGroup(h, t + [b], id);
      DetachConsGroup(h, t, id);
      var h' := Detach([h] + t, id).0[0];
      assert [h'] + (t + [b]) == ([h'] + t) + [b];
    } else {
      DetachConsBelow(h, t + [b], id);
      DetachConsBelow(h, t, id);
      var h' := Detach([h] + t, id).0[0];
      assert [h'] + (t + [b]) == ([h'] + t) + [b];
    }
  }

  /** Where the node lies past the head `h`, the tail carries the claim. */
  lemma AppendEmptyLater(h: Group, t: seq<Group>, b: Group, id: Uuid)
    requires IndexOf(EntryKids(h), id) == |h.entries| && IndexOf(Kids(h), id) == |h.groups|
    requires Detach(h.groups, id).1.None?
    requires Detach(t + [b], id) == (Detach(t, id).0 + [b], Detach(t, id).1)
    ensures Detach([h] + (t + [b]), id) == (Detach([h] + t, id).0 + [b], Detach([h] + t, id).1)
  {
    DetachConsLater(h, t + [b], id);
    DetachConsLater(h, t, id);
    assert [h] + (Detach(t, id).0 + [b]) == ([h] + Detach(t, id).0) + [b];
  }

  lemma {:induction false} DetachAppendEmpty(a: seq<Group>, b: Group, id: Uuid)
    requires b.groups == [] && b.entries == []
    ensures Detach(a + [b], id) == (Detach(a, id).0 + [b], Detach(a, id).1)
  {
    if a == [] {
      assert a + [b] == [b] + [];
      DetachConsLater(b, [], id);
    } else {
      var h := a[0];
      var t := a[1..];
      assert a + [b] == [h] + (t + [b]) && a == [h] + t;
      if IndexOf(EntryKids(h), id) < |h.entries| || IndexOf(Kids(h), id) < |h.groups| ||
        Detach(h.groups, id).1.Some? {
        AppendEmptyHead(h, t, b, id);
      } else {
        DetachAppendEmpty(t, b, id);
        AppendEmptyLater(h, t, b, id);
      }
    }
  }

  // One lemma per place `Detach` finds the node, for the head group `g`
  // and the same group `g'` with the empty group `c` appended.

  lemma AdoptedEntry(g: Group, tl: seq<Group>, c: Group, id: Uuid)
    requires IndexOf(EntryKids(g), id) < |g.entries|
    ensures Detach([Adopt(g, GroupNode(c))] + tl, id) ==
      ([Adopt(Detach([g] + tl, id).0[0], GroupNode(c))] + Detach([g] + tl, id).0[1..], Detach([g] + tl, id).1)
  {
    var g' := Adopt(g, GroupNode(c));
    assert EntryKids(g') == EntryKids(g);
    DetachConsEntry(g', tl, id);
    DetachConsEntry(g, tl, id);
  }

  lemma AdoptedGroup(g: Group, tl: seq<Group>, c: Group, id: Uuid)
    requires IndexOf(EntryKids(g), id) == |g.entries| && IndexOf(Kids(g), id) < |g.groups|
    ensures Detach([Adopt(g, GroupNode(c))] + tl, id) ==
      ([Adopt(Detach([g] + tl, id).0[0], GroupNode(c))] + Detach([g] + tl, id).0[1..], Detach([g] + tl, id).1)
  {
    var g' := Adopt(g, GroupNode(c));
    var j := IndexOf(Kids(g), id);
    assert EntryKids(g') == EntryKids(g);
    assert IndexOf(Kids(g'), id) == j by {
      AdoptKids(g, GroupNode(c));
      IndexOfConcat(Kids(g), [c.uuid], id);
    }
    RemoveAtAppend(g.groups, j, c);
    DetachConsGroup(g', tl, id);
    DetachConsGroup(g, tl, id);
  }

  /** Past the children of `g`, the appended `c` is skipped when it is not
      the node. */
  lemma AdoptedPast(g: Group, c: Group, id: Uuid)
    requires c.uuid != id && IndexOf(Kids(g), id) == |g.groups|
    ensures IndexOf(Kids(Adopt(g, GroupNode(c))), id) == |Adopt(g, GroupNode(c)).groups|
  {
    AdoptKids(g, GroupNode(c));
    IndexOfConcat(Kids(g), [c.uuid], id);
  }

  lemma AdoptedBelow(g: Group, tl: seq<Group>, c: Group, id: Uuid)
    requires c.groups == [] && c.entries == [] && c.uuid != id
    requires IndexOf(EntryKids(g), id) == |g.entries| && IndexOf(Kids(g), id) == |g.groups|
    requires Detach(g.groups, id).1.Some?
    ensures Detach([Adopt(g, GroupNode(c))] + tl, id) ==
      ([Adopt(Detach([g] + tl, id).0[0], GroupNode(c))] + Detach([g] + tl, id).0[1..], Detach([g] + tl, id).1)
  {
    var g' := Adopt(g, GroupNode(c));
    assert EntryKids(g') == EntryKids(g);
    AdoptedPast(g, c, id);
    DetachAppendEmpty(g.groups, c, id);
    DetachConsBelow(g', tl, id);
    DetachConsBelow(g, tl, id);
  }

  lemma AdoptedLater(g: Group, tl: seq<Group>, c: Group, id: Uuid)
    requires c.groups == [] && c.entries == [] && c.uuid != id
    requires IndexOf(EntryKids(g), id) == |g.entries| && IndexOf(Kids(g), id) == |g.groups|
    requires Detach(g.groups, id).1.None?
    ensures Detach([Adopt(g, GroupNode(c))] + tl, id) ==
      ([Adopt(Detach([g] + tl, id).0[0], GroupNode(c))] + Detach([g] + tl, id).0[1..], Detach([g] + tl, id).1)
  {
    var g' := Adopt(g, GroupNode(c));
    assert EntryKids(g') == EntryKids(g);
    AdoptedPast(g, c, id);
    DetachAppendEmpty(g.groups, c, id);
    DetachConsLater(g', tl, id);
    DetachConsLater(g, tl, id);
  }

  /** Appending an empty group `c` to the first root and then detaching
      another node is detaching that node and then appending `c`. */
  lemma DetachAdoptHead(gs: seq<Group>, c: Group, id: Uuid)
    requires gs != [] && c.groups == [] && c.entries == [] && c.uuid != id
    ensures Detach(Insert(gs, gs[0].uuid, GroupNode(c)), id) ==
      (Insert(Detach(gs, id).0, gs[0].uuid, GroupNode(c)), Detach(gs, id).1)
  {
    var g := gs[0];
    var tl := gs[1..];
    var rest := Detach(gs, id).0;
    assert gs == [g] + tl;
    assert Insert(gs, g.uuid, GroupNode(c)) == [Adopt(g, GroupNode(c))] + tl;
    assert rest != [] && rest[0].uuid == g.uuid by {
      assert GroupUuids(rest) == GroupUuids(gs);
    }
    assert Insert(rest, g.uuid, GroupNode(c)) == [Adopt(rest[0], GroupNode(c))] + rest[1..];
    if IndexOf(EntryKids(g), id) < |g.entries| {
      AdoptedEntry(g, tl, c, id);
    } else if IndexOf(Kids(g), id) < |g.groups| {
      AdoptedGroup(g, tl, c, id);
    } else if Detach(g.groups, id).1.Some? {
      AdoptedBelow(g, tl, c, id);
    } else {
      AdoptedLater(g, tl, c, id);
    }
  }
}
