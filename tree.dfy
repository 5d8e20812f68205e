/** The forest of groups and entries, and the tree operations the database
    builds `getGroup`, `createGroup`, `createEntry`, `move`, `remove` and
    `pushHistory` from. Nodes are named by uuid; every search visits a group,
    then its entries and subgroups, then the next sibling, as the
    depth-first `getGroup` does. */
module KdbxTree {
  import opened KdbxTypes

  // ----- one level -----

  function GroupUuids(gs: seq<Group>): (r: seq<Uuid>)
    ensures |r| == |gs| && forall i :: 0 <= i < |gs| ==> r[i] == gs[i].uuid
  {
    if gs == [] then [] else [gs[0].uuid] + GroupUuids(gs[1..])
  }

  function EntryUuids(es: seq<Entry>): (r: seq<Uuid>)
    ensures |r| == |es| && forall i :: 0 <= i < |es| ==> r[i] == es[i].uuid
  {
    if es == [] then [] else [es[0].uuid] + EntryUuids(es[1..])
  }

  /** The uuids of a group's child groups, in order (`group.groups`). */
  function Kids(g: Group): seq<Uuid> {
    GroupUuids(g.groups)
  }

  /** The uuids of a group's child entries, in order (`group.entries`). */
  function EntryKids(g: Group): seq<Uuid> {
    EntryUuids(g.entries)
  }

  /** The first index of `x` in `s` (JavaScript's `indexOf`), or `|s|` when
      `x` does not occur. */
  function IndexOf(s: seq<Uuid>, x: Uuid): (k: nat)
    ensures k <= |s|
    ensures k < |s| ==> s[k] == x
    ensures forall i :: 0 <= i < k ==> s[i] != x
  {
    if s == [] then 0
    else if s[0] == x then 0
    else 1 + IndexOf(s[1..], x)
  }

  /** `s` without its element at `k` (`splice(k, 1)`). */
  function RemoveAt<T>(s: seq<T>, k: nat): (r: seq<T>)
    requires k < |s|
    ensures |r| == |s| - 1
  {
    s[..k] + s[k + 1..]
  }

  /** `s` without the first occurrence of `x`, as `splice(indexOf(x), 1)`
      leaves an array; `s` itself when `x` does not occur. */
  function RemoveFirst(s: seq<Uuid>, x: Uuid): seq<Uuid> {
    var k := IndexOf(s, x);
    if k < |s| then RemoveAt(s, k) else s
  }

  // ----- the uuids of a whole forest -----

  /** The uuids of a list of entries, as a multiset. */
  function EntryBag(es: seq<Entry>): multiset<Uuid> {
    if es == [] then multiset{} else multiset{es[0].uuid} + EntryBag(es[1..])
  }

  /** Every uuid of a forest, of groups and entries at every depth. */
  function Ids(gs: seq<Group>): multiset<Uuid> {
    if gs == [] then multiset{} else SubIds(gs[0]) + Ids(gs[1..])
  }

  /** Every uuid of a group's subtree, its own included. */
  function SubIds(g: Group): multiset<Uuid> {
    multiset{g.uuid} + EntryBag(g.entries) + Ids(g.groups)
  }

  /** Every uuid a detached node takes with it. */
  function NodeIds(n: Node): multiset<Uuid> {
    match n
    case GroupNode(g) => SubIds(g)
    case EntryNode(e) => multiset{e.uuid}
  }

  /** No uuid names two nodes of the forest. */
  ghost predicate Unique(gs: seq<Group>) {
    forall u :: Ids(gs)[u] <= 1
  }

  // ----- lookups -----

  /** `getGroup` without the empty-uuid guard: the first group named `id`
      in depth-first order. */
  function FindGroup(gs: seq<Group>, id: Uuid): (r: Option<Group>)
    ensures r.Some? ==> r.value.uuid == id
  {
    if gs == [] then None
    else if gs[0].uuid == id then Some(gs[0])
    else match FindGroup(gs[0].groups, id)
      case Some(g) => Some(g)
      case None => FindGroup(gs[1..], id)
  }

  /** The first entry named `id` in depth-first order. */
  function FindEntry(gs: seq<Group>, id: Uuid): (r: Option<Entry>)
    ensures r.Some? ==> r.value.uuid == id
  {
    if gs == [] then None
    else
      var k := IndexOf(EntryKids(gs[0]), id);
      if k < |gs[0].entries| then Some(gs[0].entries[k])
      else match FindEntry(gs[0].groups, id)
        case Some(e) => Some(e)
        case None => FindEntry(gs[1..], id)
  }

  // ----- updates -----

  /** Takes the node named `id` out of its parent's `groups` or `entries`
      (the `splice` of `move`). Roots have no parent and are never taken out;
      `None` when no non-root node is named `id`. */
  function Detach(gs: seq<Group>, id: Uuid): (r: (seq<Group>, Option<Node>))
    ensures GroupUuids(r.0) == GroupUuids(gs)
    ensures r.1.None? ==> r.0 == gs
    ensures r.1.Some? ==> r.1.value.Id() == id
  {
    if gs == [] then (gs, None)
    else
      var g := gs[0];
      var k := IndexOf(EntryKids(g), id);
      if k < |g.entries| then
        ([g.(entries := RemoveAt(g.entries, k))] + gs[1..], Some(EntryNode(g.entries[k])))
      else
        var j := IndexOf(Kids(g), id);
        if j < |g.groups| then
          ([g.(groups := RemoveAt(g.groups, j))] + gs[1..], Some(GroupNode(g.groups[j])))
        else
          var (inner, found) := Detach(g.groups, id);
          if found.Some? then
            ([g.(groups := inner)] + gs[1..], found)
          else
            var (rest, found') := Detach(gs[1..], id);
            ([g] + rest, found')
  }

  /** `parent.groups.push(node)` or `parent.entries.push(node)`. */
  function Adopt(parent: Group, n: Node): Group {
    match n
    case GroupNode(c) => parent.(groups := parent.groups + [c])
    case EntryNode(e) => parent.(entries := parent.entries + [e])
  }

  /** Appends `n` to the first group named `pid`; the forest is unchanged
      when there is none. */
  function Insert(gs: seq<Group>, pid: Uuid, n: Node): (r: seq<Group>)
    ensures GroupUuids(r) == GroupUuids(gs)
  {
    if gs == [] then gs
    else if gs[0].uuid == pid then [Adopt(gs[0], n)] + gs[1..]
    else if FindGroup(gs[0].groups, pid).Some? then
      [gs[0].(groups := Insert(gs[0].groups, pid, n))] + gs[1..]
    else [gs[0]] + Insert(gs[1..], pid, n)
  }

  /** Replaces the first entry named `e.uuid` by `e`, in place in its
      parent's `entries`. */
  function ReplaceEntry(gs: seq<Group>, e: Entry): (r: seq<Group>)
    ensures GroupUuids(r) == GroupUuids(gs)
  {
    if gs == [] then gs
    else
      var k := IndexOf(EntryKids(gs[0]), e.uuid);
      if k < |gs[0].entries| then [gs[0].(entries := gs[0].entries[k := e])] + gs[1..]
      else if FindEntry(gs[0].groups, e.uuid).Some? then
        [gs[0].(groups := ReplaceEntry(gs[0].groups, e))] + gs[1..]
      else [gs[0]] + ReplaceEntry(gs[1..], e)
  }

  // ----- lemmas: how the uuids of a forest add up -----

  lemma {:induction false} EntryBagConcat(a: seq<Entry>, b: seq<Entry>)
    ensures EntryBag(a + b) == EntryBag(a) + EntryBag(b)
  {
    if a == [] {
      assert a + b == b;
    } else {
      assert (a + b)[1..] == a[1..] + b;
      EntryBagConcat(a[1..], b);
    }
  }

  lemma {:induction false} EntryBagRemoveAt(es: seq<Entry>, k: nat)
    requires k < |es|
    ensures EntryBag(es) == EntryBag(RemoveAt(es, k)) + multiset{es[k].uuid}
  {
    if k == 0 {
      assert RemoveAt(es, k) == es[1..];
    } else {
      EntryBagRemoveAt(es[1..], k - 1);
      var r := RemoveAt(es, k);
      assert r[0] == es[0] && r[1..] == RemoveAt(es[1..], k - 1);
    }
  }

  lemma {:induction false} IdsConcat(a: seq<Group>, b: seq<Group>)
    ensures Ids(a + b) == Ids(a) + Ids(b)
  {
    if a == [] {
      assert a + b == b;
    } else {
      assert (a + b)[1..] == a[1..] + b;
      IdsConcat(a[1..], b);
    }
  }

  lemma {:induction false} IdsRemoveAt(gs: seq<Group>, k: nat)
    requires k < |gs|
    ensures Ids(gs) == Ids(RemoveAt(gs, k)) + SubIds(gs[k])
  {
    if k == 0 {
      assert RemoveAt(gs, k) == gs[1..];
    } else {
      var tl := RemoveAt(gs[1..], k - 1);
      assert RemoveAt(gs, k) == [gs[0]] + tl;
      assert gs[1..][k - 1] == gs[k];
      IdsRemoveAt(gs[1..], k - 1);
      IdsCons(gs[0], tl);
    }
  }

  lemma {:induction false} EntryBagHas(es: seq<Entry>, k: nat)
    requires k < |es|
    ensures es[k].uuid in EntryBag(es)
  {
    if k > 0 {
      EntryBagHas(es[1..], k - 1);
    }
  }

  // One lemma per way the head group of a forest can change, so that each
  // proof of the recursive lemmas below only chains them.

  lemma IdsHeadEntries(gs: seq<Group>, es: seq<Entry>, extra: multiset<Uuid>)
    requires gs != [] && EntryBag(es) + extra == EntryBag(gs[0].entries)
    ensures Ids([gs[0].(entries := es)] + gs[1..]) + extra == Ids(gs)
  {
    assert ([gs[0].(entries := es)] + gs[1..])[1..] == gs[1..];
  }

  lemma IdsHeadGroups(gs: seq<Group>, inner: seq<Group>, extra: multiset<Uuid>)
    requires gs != [] && Ids(inner) + extra == Ids(gs[0].groups)
    ensures Ids([gs[0].(groups := inner)] + gs[1..]) + extra == Ids(gs)
  {
    assert ([gs[0].(groups := inner)] + gs[1..])[1..] == gs[1..];
  }

  lemma IdsTail(gs: seq<Group>, rest: seq<Group>, extra: multiset<Uuid>)
    requires gs != [] && Ids(rest) + extra == Ids(gs[1..])
    ensures Ids([gs[0]] + rest) + extra == Ids(gs)
  {
    assert ([gs[0]] + rest)[1..] == rest;
  }

  /** What `Detach` takes out is exactly what the forest loses. */
  lemma {:induction false} DetachIds(gs: seq<Group>, id: Uuid)
    requires Detach(gs, id).1.Some?
    ensures Ids(Detach(gs, id).0) + NodeIds(Detach(gs, id).1.value) == Ids(gs)
  {
    var g := gs[0];
    var k := IndexOf(EntryKids(g), id);
    if k < |g.entries| {
      EntryBagRemoveAt(g.entries, k);
      IdsHeadEntries(gs, RemoveAt(g.entries, k), multiset{g.entries[k].uuid});
    } else {
      var j := IndexOf(Kids(g), id);
      if j < |g.groups| {
        IdsRemoveAt(g.groups, j);
        IdsHeadGroups(gs, RemoveAt(g.groups, j), SubIds(g.groups[j]));
      } else {
        var (inner, found) := Detach(g.groups, id);
        if found.Some? {
          DetachIds(g.groups, id);
          IdsHeadGroups(gs, inner, NodeIds(found.value));
        } else {
          DetachIds(gs[1..], id);
          var (rest, found') := Detach(gs[1..], id);
          IdsTail(gs, rest, NodeIds(found'.value));
        }
      }
    }
  }

  lemma IdsCons(g: Group, tl: seq<Group>)
    ensures Ids([g] + tl) == SubIds(g) + Ids(tl)
  {
    assert ([g] + tl)[1..] == tl;
  }

  lemma IdsHeadGrown(gs: seq<Group>, g': Group, extra: multiset<Uuid>)
    requires gs != [] && SubIds(g') == SubIds(gs[0]) + extra
    ensures Ids([g'] + gs[1..]) == Ids(gs) + extra
  {
    IdsCons(g', gs[1..]);
  }

  lemma {:induction false} EntryBagHasAll(es: seq<Entry>)
    ensures forall x :: x in EntryUuids(es) ==> x in EntryBag(es)
  {
    forall x | x in EntryUuids(es) ensures x in EntryBag(es) {
      var k :| 0 <= k < |es| && EntryUuids(es)[k] == x;
      EntryBagHas(es, k);
    }
  }

  lemma {:induction false} IdsHasRoots(gs: seq<Group>)
    ensures forall i :: 0 <= i < |gs| ==> SubIds(gs[i]) <= Ids(gs)
  {
    if gs != [] {
      IdsHasRoots(gs[1..]);
      assert forall i :: 1 <= i < |gs| ==> gs[i] == gs[1..][i - 1];
    }
  }

  /** The uuids of a group's children are among the uuids of its subtree. */
  lemma KidsInSubIds(g: Group)
    ensures forall x :: x in Kids(g) ==> x in Ids(g.groups)
    ensures forall x :: x in EntryKids(g) ==> x in EntryBag(g.entries)
  {
    IdsHasRoots(g.groups);
    EntryBagHasAll(g.entries);
  }

  lemma UuidsRemoveAt(gs: seq<Group>, es: seq<Entry>, j: nat, k: nat)
    ensures j < |gs| ==> GroupUuids(RemoveAt(gs, j)) == RemoveAt(GroupUuids(gs), j)
    ensures k < |es| ==> EntryUuids(RemoveAt(es, k)) == RemoveAt(EntryUuids(es), k)
  {
  }

  // ----- lemmas: searching a forest -----

  /** What a search finds, with its whole subtree, is part of the forest. */
  lemma {:induction false} FindGroupSound(gs: seq<Group>, id: Uuid)
    requires FindGroup(gs, id).Some?
    ensures SubIds(FindGroup(gs, id).value) <= Ids(gs)
  {
    if gs[0].uuid != id {
      if FindGroup(gs[0].groups, id).Some? {
        FindGroupSound(gs[0].groups, id);
      } else {
        FindGroupSound(gs[1..], id);
      }
    }
  }

  lemma FindGroupIn(gs: seq<Group>, id: Uuid)
    requires FindGroup(gs, id).Some?
    ensures id in Ids(gs)
  {
    FindGroupSound(gs, id);
  }

  lemma {:induction false} FindGroupConcat(a: seq<Group>, b: seq<Group>, id: Uuid)
    ensures FindGroup(a + b, id) == if FindGroup(a, id).Some? then FindGroup(a, id) else FindGroup(b, id)
  {
    if a == [] {
      assert a + b == b;
    } else {
      assert (a + b)[0] == a[0] && (a + b)[1..] == a[1..] + b;
      FindGroupConcat(a[1..], b, id);
    }
  }

  /** Taking a group out of a list does not change what a search finds
      outside that group's subtree. */
  lemma FindGroupRemoveAt(s: seq<Group>, j: nat, id: Uuid)
    requires j < |s| && id !in SubIds(s[j])
    ensures FindGroup(RemoveAt(s, j), id) == FindGroup(s, id)
  {
    assert s == s[..j] + ([s[j]] + s[j + 1..]);
    FindGroupConcat(s[..j], [s[j]] + s[j + 1..], id);
    FindGroupConcat([s[j]], s[j + 1..], id);
    FindGroupConcat(s[..j], s[j + 1..], id);
    if FindGroup([s[j]], id).Some? {
      FindGroupIn([s[j]], id);
      IdsCons(s[j], []);
    }
  }

  /** Appending a group to a list does not change what a search finds
      outside that group's subtree. */
  lemma FindGroupAppend(s: seq<Group>, c: Group, id: Uuid)
    requires id !in SubIds(c)
    ensures FindGroup(s + [c], id) == FindGroup(s, id)
  {
    FindGroupConcat(s, [c], id);
    if FindGroup([c], id).Some? {
      FindGroupIn([c], id);
      IdsCons(c, []);
    }
  }

  // ----- lemmas: Insert -----

  lemma AdoptGroupIds(g: Group, c: Group)
    ensures SubIds(g.(groups := g.groups + [c])) == SubIds(g) + SubIds(c)
  {
    IdsConcat(g.groups, [c]);
    IdsCons(c, []);
  }

  lemma AdoptEntryIds(g: Group, e: Entry)
    ensures SubIds(g.(entries := g.entries + [e])) == SubIds(g) + multiset{e.uuid}
  {
    EntryBagConcat(g.entries, [e]);
  }

  lemma AdoptIds(g: Group, n: Node)
    ensures SubIds(Adopt(g, n)) == SubIds(g) + NodeIds(n)
  {
    if n.GroupNode? {
      AdoptGroupIds(g, n.group);
    } else {
      AdoptEntryIds(g, n.entry);
    }
  }

  /** Without the parent, `Insert` changes nothing. */
  lemma {:induction false} InsertMissing(gs: seq<Group>, pid: Uuid, n: Node)
    requires FindGroup(gs, pid).None?
    ensures Insert(gs, pid, n) == gs
  {
    if gs != [] {
      InsertMissing(gs[1..], pid, n);
    }
  }

  lemma InsertIdsHere(gs: seq<Group>, pid: Uuid, n: Node)
    requires gs != [] && gs[0].uuid == pid
    ensures Ids(Insert(gs, pid, n)) == Ids(gs) + NodeIds(n)
  {
    AdoptIds(gs[0], n);
    IdsHeadGrown(gs, Adopt(gs[0], n), NodeIds(n));
  }

  lemma InsertIdsBelow(gs: seq<Group>, pid: Uuid, n: Node)
    requires gs != [] && gs[0].uuid != pid && FindGroup(gs[0].groups, pid).Some?
    requires Ids(Insert(gs[0].groups, pid, n)) == Ids(gs[0].groups) + NodeIds(n)
    ensures Ids(Insert(gs, pid, n)) == Ids(gs) + NodeIds(n)
  {
    IdsHeadGrown(gs, gs[0].(groups := Insert(gs[0].groups, pid, n)), NodeIds(n));
  }

  lemma InsertIdsLater(gs: seq<Group>, pid: Uuid, n: Node)
    requires gs != [] && gs[0].uuid != pid && FindGroup(gs[0].groups, pid).None?
    requires Ids(Insert(gs[1..], pid, n)) == Ids(gs[1..]) + NodeIds(n)
    ensures Ids(Insert(gs, pid, n)) == Ids(gs) + NodeIds(n)
  {
    IdsCons(gs[0], Insert(gs[1..], pid, n));
  }

  /** With the parent, `Insert` adds exactly the uuids of the node. */
  lemma {:induction false} InsertIds(gs: seq<Group>, pid: Uuid, n: Node)
    requires FindGroup(gs, pid).Some?
    ensures Ids(Insert(gs, pid, n)) == Ids(gs) + NodeIds(n)
  {
    if gs[0].uuid == pid {
      InsertIdsHere(gs, pid, n);
    } else if FindGroup(gs[0].groups, pid).Some? {
      InsertIds(gs[0].groups, pid, n);
      InsertIdsBelow(gs, pid, n);
    } else {
      InsertIds(gs[1..], pid, n);
      InsertIdsLater(gs, pid, n);
    }
  }
}
