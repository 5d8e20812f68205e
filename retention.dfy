/** `cleanup(opts)`: the retention rules run before a database is saved.
    History beyond `meta.historyMaxItems` is dropped oldest first; then the
    custom icons and the binaries that no group, entry or history snapshot
    refers to any more are deleted from the metadata pools. */
module KdbxRetention {
  import opened KdbxTypes
  import opened KdbxTree
  import opened KdbxDocument
  import opened KdbxUnique
  import KdbxDocumentFacts

  // ----- the history rule -----

  /** The history cap `cleanup` applies: `meta.historyMaxItems` when the
      history rules are asked for and the cap is set and positive (zero, a
      negative value such as -1, or no value stand for "unlimited"); no cap
      otherwise. */
  function HistoryCap(opts: CleanupOptions, meta: Meta): (r: Option<nat>)
    ensures r.Some? <==> opts.historyRules && meta.historyMaxItems.Some? && meta.historyMaxItems.value > 0
    ensures r.Some? ==> r.value == meta.historyMaxItems.value
  {
    if opts.historyRules && meta.historyMaxItems.Some? && meta.historyMaxItems.value > 0 then
      Some(meta.historyMaxItems.value as nat)
    else None
  }

  /** A history cut to its `max` newest snapshots. */
  function Trim(h: seq<Snapshot>, max: nat): (r: seq<Snapshot>)
    ensures |r| == if |h| <= max then |h| else max
    ensures forall i :: 0 <= i < |r| ==> r[i] == h[|h| - |r| + i]
  {
    if |h| <= max then h else h[|h| - max..]
  }

  /** `entry.removeHistory(0, n)` in a loop: the oldest snapshot goes first,
      until no more than `max` remain. */
  method TrimOldest(h: seq<Snapshot>, max: nat) returns (r: seq<Snapshot>)
    ensures r == Trim(h, max)
  {
    r := h;
    while |r| > max
      invariant |r| >= max || r == h
      invariant r == h[|h| - |r|..]
      decreases |r|
    {
      r := r[1..];
    }
  }

  /** An entry with its history cut to `max` snapshots. */
  function TrimEntry(e: Entry, max: nat): (r: Entry)
    ensures r.uuid == e.uuid && r.Current() == e.Current() && r.history == Trim(e.history, max)
  {
    e.(history := Trim(e.history, max))
  }

  function TrimEntries(es: seq<Entry>, max: nat): (r: seq<Entry>)
    ensures |r| == |es| && EntryUuids(r) == EntryUuids(es)
    ensures forall i :: 0 <= i < |es| ==> r[i] == TrimEntry(es[i], max)
  {
    if es == [] then [] else [TrimEntry(es[0], max)] + TrimEntries(es[1..], max)
  }

  /** Every entry of the forest with its history cut to `max` snapshots. */
  function TrimForest(gs: seq<Group>, max: nat): (r: seq<Group>)
    ensures |r| == |gs| && GroupUuids(r) == GroupUuids(gs)
  {
    if gs == [] then [] else [TrimGroup(gs[0], max)] + TrimForest(gs[1..], max)
  }

  function TrimGroup(g: Group, max: nat): (r: Group)
    ensures r.uuid == g.uuid && r.name == g.name && r.customIcon == g.customIcon
    ensures Kids(r) == Kids(g) && EntryKids(r) == EntryKids(g)
  {
    g.(groups := TrimForest(g.groups, max), entries := TrimEntries(g.entries, max))
  }

  // ----- the pool rules -----

  function OptSet(o: Option<IconId>): set<IconId> {
    if o.Some? then {o.value} else {}
  }

  /** The binary refs of an attachment map: the pool keys it points to. */
  function AttachmentRefs(m: map<string, Attachment>): (r: set<BinaryRef>)
    ensures forall k :: k in m && m[k].Ref? ==> m[k].ref in r
    ensures forall b :: b in r ==> exists k :: k in m && m[k] == Ref(b)
  {
    set k | k in m && m[k].Ref? :: m[k].ref
  }

  function HistoryIcons(h: seq<Snapshot>): set<IconId> {
    if h == [] then {} else OptSet(h[0].customIcon) + HistoryIcons(h[1..])
  }

  function HistoryRefs(h: seq<Snapshot>): set<BinaryRef> {
    if h == [] then {} else AttachmentRefs(h[0].binaries) + HistoryRefs(h[1..])
  }

  /** The icons an entry refers to, live or in its history. */
  function EntryIcons(e: Entry): set<IconId> {
    OptSet(e.customIcon) + HistoryIcons(e.history)
  }

  /** The binaries an entry refers to, live or in its history. */
  function EntryRefs(e: Entry): set<BinaryRef> {
    AttachmentRefs(e.binaries) + HistoryRefs(e.history)
  }

  function EntriesIcons(es: seq<Entry>): set<IconId> {
    if es == [] then {} else EntryIcons(es[0]) + EntriesIcons(es[1..])
  }

  function EntriesRefs(es: seq<Entry>): set<BinaryRef> {
    if es == [] then {} else EntryRefs(es[0]) + EntriesRefs(es[1..])
  }

  /** Every custom icon a group, an entry or a history snapshot of the
      forest refers to. */
  function ForestIcons(gs: seq<Group>): set<IconId> {
    if gs == [] then {} else GroupIcons(gs[0]) + ForestIcons(gs[1..])
  }

  function GroupIcons(g: Group): set<IconId> {
    OptSet(g.customIcon) + EntriesIcons(g.entries) + ForestIcons(g.groups)
  }

  /** Every binary an attachment of an entry or of a history snapshot of
      the forest refers to. */
  function ForestRefs(gs: seq<Group>): set<BinaryRef> {
    if gs == [] then {} else GroupRefs(gs[0]) + ForestRefs(gs[1..])
  }

  function GroupRefs(g: Group): set<BinaryRef> {
    EntriesRefs(g.entries) + ForestRefs(g.groups)
  }

  /** A pool with only the keys in `keep`, each with its old value. */
  function Restrict<K, V>(m: map<K, V>, keep: set<K>): (r: map<K, V>)
    ensures r.Keys == m.Keys * keep
    ensures forall k :: k in r ==> r[k] == m[k]
  {
    map k | k in m && k in keep :: m[k]
  }

  /** Deletes, one key at a time, every key of the pool that is not in
      `keep`. */
  method Prune<K, V>(m: map<K, V>, keep: set<K>) returns (r: map<K, V>)
    ensures r == Restrict(m, keep)
  {
    r := m;
    var todo := m.Keys;
    while todo != {}
      invariant todo <= m.Keys
      invariant r.Keys == (m.Keys - todo) * keep + todo
      invariant forall k :: k in r ==> r[k] == m[k]
      decreases todo
    {
      var k :| k in todo;
      if k !in keep {
        r := r - {k};
      }
      todo := todo - {k};
    }
  }

  // ----- cleanup -----

  /** `cleanup(opts)`: history first, then the pools, whose use is read from
      the trimmed forest. Nothing else of the database changes. */
  function Cleanup(d: Doc, opts: CleanupOptions): (r: Doc)
    ensures r.deletedObjects == d.deletedObjects && GroupUuids(r.groups) == GroupUuids(d.groups)
    ensures r.meta == d.meta.(customIcons := r.meta.customIcons, binaries := r.meta.binaries)
    ensures HistoryCap(opts, d.meta).None? ==> r.groups == d.groups
    ensures HistoryCap(opts, d.meta).Some? ==> r.groups == TrimForest(d.groups, HistoryCap(opts, d.meta).value)
    ensures r.meta.customIcons == if opts.customIcons then Restrict(d.meta.customIcons, ForestIcons(r.groups)) else d.meta.customIcons
    ensures r.meta.binaries == if opts.binaries then Restrict(d.meta.binaries, ForestRefs(r.groups)) else d.meta.binaries
  {
    var gs := match HistoryCap(opts, d.meta)
      case Some(max) => TrimForest(d.groups, max)
      case None => d.groups;
    var icons := if opts.customIcons then Restrict(d.meta.customIcons, ForestIcons(gs)) else d.meta.customIcons;
    var bins := if opts.binaries then Restrict(d.meta.binaries, ForestRefs(gs)) else d.meta.binaries;
    d.(groups := gs, meta := d.meta.(customIcons := icons, binaries := bins))
  }

  // ----- lemmas: the history rule -----

  /** A history within the cap is left as it is. */
  lemma TrimWithin(h: seq<Snapshot>, max: nat)
    requires |h| <= max
    ensures Trim(h, max) == h
  {
  }

  /** A history over the cap keeps exactly its `max` newest snapshots, in
      order, so its first snapshot is the one `|h| - max` places in. */
  lemma TrimOver(h: seq<Snapshot>, max: nat)
    requires |h| > max
    ensures Trim(h, max) == h[|h| - max..]
    ensures max > 0 ==> Trim(h, max)[0] == h[|h| - max]
  {
  }

  lemma TrimIdempotent(h: seq<Snapshot>, max: nat)
    ensures Trim(Trim(h, max), max) == Trim(h, max)
  {
  }

  lemma {:induction false} TrimEntriesIdempotent(es: seq<Entry>, max: nat)
    ensures TrimEntries(TrimEntries(es, max), max) == TrimEntries(es, max)
  {
    if es != [] {
      TrimIdempotent(es[0].history, max);
      TrimEntriesIdempotent(es[1..], max);
      assert TrimEntries(es, max)[1..] == TrimEntries(es[1..], max);
    }
  }

  /** Cutting a forest's histories twice cuts nothing more. */
  lemma {:induction false} TrimForestIdempotent(gs: seq<Group>, max: nat)
    ensures TrimForest(TrimForest(gs, max), max) == TrimForest(gs, max)
  {
    if gs != [] {
      TrimGroupIdempotent(gs[0], max);
      TrimForestIdempotent(gs[1..], max);
      assert TrimForest(gs, max)[1..] == TrimForest(gs[1..], max);
    }
  }

  lemma {:induction false} TrimGroupIdempotent(g: Group, max: nat)
    ensures TrimGroup(TrimGroup(g, max), max) == TrimGroup(g, max)
  {
    TrimForestIdempotent(g.groups, max);
    TrimEntriesIdempotent(g.entries, max);
  }

  lemma {:induction false} TrimEntriesBag(es: seq<Entry>, max: nat)
    ensures EntryBag(TrimEntries(es, max)) == EntryBag(es)
  {
    if es != [] {
      TrimEntriesBag(es[1..], max);
      assert TrimEntries(es, max)[1..] == TrimEntries(es[1..], max);
    }
  }

  /** Cutting histories keeps every group and entry of the forest. */
  lemma {:induction false} TrimForestIds(gs: seq<Group>, max: nat)
    ensures Ids(TrimForest(gs, max)) == Ids(gs)
  {
    if gs != [] {
      TrimGroupIds(gs[0], max);
      TrimForestIds(gs[1..], max);
      assert TrimForest(gs, max)[1..] == TrimForest(gs[1..], max);
    }
  }

  lemma {:induction false} TrimGroupIds(g: Group, max: nat)
    ensures SubIds(TrimGroup(g, max)) == SubIds(g)
  {
    TrimForestIds(g.groups, max);
    TrimEntriesBag(g.entries, max);
  }

  /** After cutting histories, a search for a group finds the same group,
      cut. */
  lemma {:induction false} TrimForestFindGroup(gs: seq<Group>, max: nat, id: Uuid)
    ensures FindGroup(TrimForest(gs, max), id) ==
      if FindGroup(gs, id).Some? then Some(TrimGroup(FindGroup(gs, id).value, max)) else None
  {
    if gs != [] {
      var t := TrimForest(gs, max);
      assert t[0] == TrimGroup(gs[0], max) && t[1..] == TrimForest(gs[1..], max);
      TrimForestFindGroup(gs[0].groups, max, id);
      TrimForestFindGroup(gs[1..], max, id);
    }
  }

  /** After cutting histories, a search for an entry finds the same entry,
      cut. */
  lemma {:induction false} TrimForestFindEntry(gs: seq<Group>, max: nat, id: Uuid)
    ensures FindEntry(TrimForest(gs, max), id) ==
      if FindEntry(gs, id).Some? then Some(TrimEntry(FindEntry(gs, id).value, max)) else None
  {
    if gs != [] {
      var t := TrimForest(gs, max);
      assert t[0] == TrimGroup(gs[0], max) && t[1..] == TrimForest(gs[1..], max);
      TrimForestFindEntry(gs[0].groups, max, id);
      TrimForestFindEntry(gs[1..], max, id);
    }
  }

  // ----- lemmas: what counts as used -----

  lemma {:induction false} EntriesIconsHas(es: seq<Entry>, k: nat)
    requires k < |es|
    ensures EntryIcons(es[k]) <= EntriesIcons(es) && EntryRefs(es[k]) <= EntriesRefs(es)
  {
    if k > 0 {
      EntriesIconsHas(es[1..], k - 1);
    }
  }

  /** The icons and binaries of an entry found in the forest are in use. */
  lemma {:induction false} FoundEntryUsed(gs: seq<Group>, id: Uuid)
    requires FindEntry(gs, id).Some?
    ensures EntryIcons(FindEntry(gs, id).value) <= ForestIcons(gs)
    ensures EntryRefs(FindEntry(gs, id).value) <= ForestRefs(gs)
  {
    var k := IndexOf(EntryKids(gs[0]), id);
    if k < |gs[0].entries| {
      EntriesIconsHas(gs[0].entries, k);
    } else if FindEntry(gs[0].groups, id).Some? {
      FoundEntryUsed(gs[0].groups, id);
    } else {
      FoundEntryUsed(gs[1..], id);
    }
  }

  /** The icon of a group found in the forest is in use. */
  lemma {:induction false} FoundGroupUsed(gs: seq<Group>, id: Uuid)
    requires FindGroup(gs, id).Some?
    ensures OptSet(FindGroup(gs, id).value.customIcon) <= ForestIcons(gs)
  {
    if gs[0].uuid != id {
      if FindGroup(gs[0].groups, id).Some? {
        FoundGroupUsed(gs[0].groups, id);
      } else {
        FoundGroupUsed(gs[1..], id);
      }
    }
  }

  lemma {:induction false} HistoryIconsHas(h: seq<Snapshot>, i: nat)
    requires i < |h|
    ensures OptSet(h[i].customIcon) <= HistoryIcons(h) && AttachmentRefs(h[i].binaries) <= HistoryRefs(h)
  {
    if i > 0 {
      HistoryIconsHas(h[1..], i - 1);
    }
  }

  /** Every icon and binary a history snapshot refers to is in use by its
      entry. */
  lemma SnapshotUsed(e: Entry, i: nat)
    requires i < |e.history|
    ensures OptSet(e.history[i].customIcon) <= EntryIcons(e)
    ensures AttachmentRefs(e.history[i].binaries) <= EntryRefs(e)
  {
    HistoryIconsHas(e.history, i);
  }

  /** `g` itself, or one of its entries live or in history, refers to
      icon `x`. */
  ghost predicate UsesIcon(g: Group, x: IconId) {
    g.customIcon == Some(x) || exists k :: 0 <= k < |g.entries| && x in EntryIcons(g.entries[k])
  }

  /** One of `g`'s entries, live or in history, refers to binary `x`. */
  ghost predicate UsesRef(g: Group, x: BinaryRef) {
    exists k :: 0 <= k < |g.entries| && x in EntryRefs(g.entries[k])
  }

  lemma {:induction false} EntriesIconsFrom(es: seq<Entry>, x: IconId)
    requires x in EntriesIcons(es)
    ensures exists k :: 0 <= k < |es| && x in EntryIcons(es[k])
  {
    if x !in EntryIcons(es[0]) {
      EntriesIconsFrom(es[1..], x);
      var k :| 0 <= k < |es[1..]| && x in EntryIcons(es[1..][k]);
      assert x in EntryIcons(es[k + 1]);
    }
  }

  lemma {:induction false} EntriesRefsFrom(es: seq<Entry>, x: BinaryRef)
    requires x in EntriesRefs(es)
    ensures exists k :: 0 <= k < |es| && x in EntryRefs(es[k])
  {
    if x !in EntryRefs(es[0]) {
      EntriesRefsFrom(es[1..], x);
      var k :| 0 <= k < |es[1..]| && x in EntryRefs(es[1..][k]);
      assert x in EntryRefs(es[k + 1]);
    }
  }

  /** Every icon in use belongs to a group of the forest or to one of its
      entries: nothing else counts as used. */
  lemma {:induction false} IconUser(gs: seq<Group>, x: IconId)
    requires x in ForestIcons(gs)
    ensures exists g :: Occurs(gs, g) && UsesIcon(g, x)
  {
    var g := gs[0];
    if x in OptSet(g.customIcon) || x in EntriesIcons(g.entries) {
      if x in EntriesIcons(g.entries) {
        EntriesIconsFrom(g.entries, x);
      }
      assert Occurs(gs, g) && UsesIcon(g, x);
    } else if x in ForestIcons(g.groups) {
      IconUser(g.groups, x);
      var h :| Occurs(g.groups, h) && UsesIcon(h, x);
      assert Occurs(gs, h);
    } else {
      IconUser(gs[1..], x);
      var h :| Occurs(gs[1..], h) && UsesIcon(h, x);
      assert Occurs(gs, h);
    }
  }

  /** Every binary in use belongs to an entry of a group of the forest. */
  lemma {:induction false} RefUser(gs: seq<Group>, x: BinaryRef)
    requires x in ForestRefs(gs)
    ensures exists g :: Occurs(gs, g) && UsesRef(g, x)
  {
    var g := gs[0];
    if x in EntriesRefs(g.entries) {
      EntriesRefsFrom(g.entries, x);
      assert Occurs(gs, g) && UsesRef(g, x);
    } else if x in ForestRefs(g.groups) {
      RefUser(g.groups, x);
      var h :| Occurs(g.groups, h) && UsesRef(h, x);
      assert Occurs(gs, h);
    } else {
      RefUser(gs[1..], x);
      var h :| Occurs(gs[1..], h) && UsesRef(h, x);
      assert Occurs(gs, h);
    }
  }

  /** What a group of the forest or its entries refer to is in use. */
  lemma {:induction false} UserIcon(gs: seq<Group>, g: Group, x: IconId)
    requires Occurs(gs, g) && UsesIcon(g, x)
    ensures x in ForestIcons(gs)
  {
    if gs[0] == g {
      if g.customIcon != Some(x) {
        var k :| 0 <= k < |g.entries| && x in EntryIcons(g.entries[k]);
        EntriesIconsHas(g.entries, k);
      }
    } else if Occurs(gs[0].groups, g) {
      UserIcon(gs[0].groups, g, x);
    } else {
      UserIcon(gs[1..], g, x);
    }
  }

  lemma {:induction false} UserRef(gs: seq<Group>, g: Group, x: BinaryRef)
    requires Occurs(gs, g) && UsesRef(g, x)
    ensures x in ForestRefs(gs)
  {
    if gs[0] == g {
      var k :| 0 <= k < |g.entries| && x in EntryRefs(g.entries[k]);
      EntriesIconsHas(g.entries, k);
    } else if Occurs(gs[0].groups, g) {
      UserRef(gs[0].groups, g, x);
    } else {
      UserRef(gs[1..], g, x);
    }
  }

  /** The used sets are exactly what the forest refers to: an icon is in
      use if and only if a group of a well-formed forest, found by its uuid,
      or one of that group's entries refers to it; a binary if and only if
      an entry of such a group refers to it. */
  lemma UsedExactly(gs: seq<Group>, x: IconId, y: BinaryRef)
    requires Unique(gs)
    ensures x in ForestIcons(gs) <==> exists g: Group :: FindGroup(gs, g.uuid) == Some(g) && UsesIcon(g, x)
    ensures y in ForestRefs(gs) <==> exists g: Group :: FindGroup(gs, g.uuid) == Some(g) && UsesRef(g, y)
  {
    if x in ForestIcons(gs) {
      IconUser(gs, x);
      var g :| Occurs(gs, g) && UsesIcon(g, x);
      KdbxDocumentFacts.ParentFound(gs, g);
    }
    if g: Group :| FindGroup(gs, g.uuid) == Some(g) && UsesIcon(g, x) {
      FindGroupOccurs(gs, g.uuid);
      UserIcon(gs, g, x);
    }
    if y in ForestRefs(gs) {
      RefUser(gs, y);
      var g :| Occurs(gs, g) && UsesRef(g, y);
      KdbxDocumentFacts.ParentFound(gs, g);
    }
    if g: Group :| FindGroup(gs, g.uuid) == Some(g) && UsesRef(g, y) {
      FindGroupOccurs(gs, g.uuid);
      UserRef(gs, g, y);
    }
  }

  /** An entry's icons are its own and its snapshots'; likewise its
      binaries. */
  lemma {:induction false} HistoryIconsFrom(h: seq<Snapshot>, x: IconId, y: BinaryRef)
    ensures x in HistoryIcons(h) <==> exists i :: 0 <= i < |h| && h[i].customIcon == Some(x)
    ensures y in HistoryRefs(h) <==> exists i :: 0 <= i < |h| && y in AttachmentRefs(h[i].binaries)
  {
    if h != [] {
      HistoryIconsFrom(h[1..], x, y);
      if i :| 0 <= i < |h[1..]| && h[1..][i].customIcon == Some(x) {
        assert h[i + 1].customIcon == Some(x);
      }
      if i :| 0 <= i < |h| && h[i].customIcon == Some(x) {
        if i > 0 {
          assert h[1..][i - 1].customIcon == Some(x);
        }
      }
      if i :| 0 <= i < |h[1..]| && y in AttachmentRefs(h[1..][i].binaries) {
        assert y in AttachmentRefs(h[i + 1].binaries);
      }
      if i :| 0 <= i < |h| && y in AttachmentRefs(h[i].binaries) {
        if i > 0 {
          assert y in AttachmentRefs(h[1..][i - 1].binaries);
        }
      }
    }
  }

  // ----- lemmas: cleanup -----

  lemma RestrictIdempotent<K, V>(m: map<K, V>, keep: set<K>)
    ensures Restrict(Restrict(m, keep), keep) == Restrict(m, keep)
  {
  }

  /** Running `cleanup` twice with the same options and caps gives the same
      database as running it once. */
  lemma CleanupIdempotent(d: Doc, opts: CleanupOptions)
    ensures Cleanup(Cleanup(d, opts), opts) == Cleanup(d, opts)
  {
    var once := Cleanup(d, opts);
    assert HistoryCap(opts, once.meta) == HistoryCap(opts, d.meta);
    if HistoryCap(opts, d.meta).Some? {
      TrimForestIdempotent(d.groups, HistoryCap(opts, d.meta).value);
    }
    RestrictIdempotent(d.meta.customIcons, ForestIcons(once.groups));
    RestrictIdempotent(d.meta.binaries, ForestRefs(once.groups));
  }

  /** `cleanup` never removes a group or an entry: the same uuids resolve to
      the same groups and entries, with their histories cut when the cap
      applies. */
  lemma CleanupKeepsNodes(d: Doc, opts: CleanupOptions, id: Uuid)
    ensures Ids(Cleanup(d, opts).groups) == Ids(d.groups)
    ensures FindGroup(Cleanup(d, opts).groups, id).Some? == FindGroup(d.groups, id).Some?
    ensures FindEntry(Cleanup(d, opts).groups, id) ==
      match HistoryCap(opts, d.meta)
      case Some(max) => if FindEntry(d.groups, id).Some? then Some(TrimEntry(FindEntry(d.groups, id).value, max)) else None
      case None => FindEntry(d.groups, id)
  {
    if HistoryCap(opts, d.meta).Some? {
      var max := HistoryCap(opts, d.meta).value;
      TrimForestIds(d.groups, max);
      TrimForestFindGroup(d.groups, max, id);
      TrimForestFindEntry(d.groups, max, id);
    }
  }

  /** With the icon rule on, `cleanup` keeps exactly the icons in use after
      the history rule, each with its old data, and with the binary rule on,
      exactly the binaries in use. */
  lemma CleanupPools(d: Doc, opts: CleanupOptions, icon: IconId, bin: BinaryRef)
    ensures var r := Cleanup(d, opts);
      opts.customIcons ==>
        (icon in r.meta.customIcons <==> icon in d.meta.customIcons && icon in ForestIcons(r.groups)) &&
        (icon in r.meta.customIcons ==> r.meta.customIcons[icon] == d.meta.customIcons[icon])
    ensures var r := Cleanup(d, opts);
      opts.binaries ==>
        (bin in r.meta.binaries <==> bin in d.meta.binaries && bin in ForestRefs(r.groups)) &&
        (bin in r.meta.binaries ==> r.meta.binaries[bin] == d.meta.binaries[bin])
  {
  }
}
