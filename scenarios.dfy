/** The cleanup scenarios of the test suite, replayed on the model: an entry
    whose title is set to `i` before each `pushHistory`, cleaned with the
    history rule under several caps; and the icon and binary pools of a new
    database with one group and one entry. */
module KdbxScenarios {
  import opened KdbxTypes
  import opened KdbxTree
  import opened KdbxEntries
  import opened KdbxDocument
  import opened KdbxRetention

  /** `n.toString()` for a natural number. */
  function Decimal(n: nat): string
    decreases n
  {
    var digit := "0123456789"[n % 10];
    if n < 10 then [digit] else Decimal(n / 10) + [digit]
  }

  /** The title field of a snapshot, or the empty string when it has none. */
  function TitleOf(s: Snapshot): string {
    if "Title" in s.fields && s.fields["Title"].Plain? then s.fields["Title"].text else ""
  }

  /** `for (i = lo; i < hi; i++) { entry.fields.Title = i.toString(); entry.pushHistory(); }` */
  function PushTitled(e: Entry, lo: nat, hi: nat): Entry
    decreases hi - lo
  {
    if lo >= hi then e
    else PushTitled(PushSnapshot(SetField(e, "Title", Plain(Decimal(lo)))), lo + 1, hi)
  }

  /** The titles of a history read `first`, `first + 1`, ... in order. */
  ghost predicate TitledFrom(h: seq<Snapshot>, first: nat) {
    forall k :: 0 <= k < |h| ==> TitleOf(h[k]) == Decimal(first + k)
  }

  /** The loop appends `hi - lo` snapshots after the old ones; when the old
      titles run from `first` up to `lo - 1`, the new ones carry on up to
      `hi - 1`. */
  lemma {:induction false} PushTitledTitles(e: Entry, lo: nat, hi: nat, first: nat)
    requires lo <= hi && first + |e.history| == lo && TitledFrom(e.history, first)
    ensures |PushTitled(e, lo, hi).history| == |e.history| + (hi - lo)
    ensures TitledFrom(PushTitled(e, lo, hi).history, first)
    decreases hi - lo
  {
    if lo < hi {
      var e' := PushSnapshot(SetField(e, "Title", Plain(Decimal(lo))));
      assert TitleOf(e'.history[|e.history|]) == Decimal(lo);
      assert TitledFrom(e'.history, first) by {
        forall k | 0 <= k < |e'.history|
          ensures TitleOf(e'.history[k]) == Decimal(first + k)
        {
          if k < |e.history| {
            assert e'.history[k] == e.history[k];
          }
        }
      }
      PushTitledTitles(e', lo + 1, hi, first);
    }
  }

  /** The loop keeps the entry's uuid, icon and attachments, keeps its old
      snapshots, and every new snapshot carries that icon and those
      attachments. */
  lemma {:induction false} PushTitledKeeps(e: Entry, lo: nat, hi: nat)
    requires lo <= hi
    ensures var r := PushTitled(e, lo, hi);
      r.uuid == e.uuid && r.customIcon == e.customIcon && r.binaries == e.binaries &&
      |r.history| == |e.history| + (hi - lo) && r.history[..|e.history|] == e.history
    ensures var r := PushTitled(e, lo, hi);
      forall i :: |e.history| <= i < |r.history| ==>
        r.history[i].customIcon == e.customIcon && r.history[i].binaries == e.binaries
    decreases hi - lo
  {
    if lo < hi {
      var e' := PushSnapshot(SetField(e, "Title", Plain(Decimal(lo))));
      PushTitledKeeps(e', lo + 1, hi);
      var r := PushTitled(e', lo + 1, hi);
      assert r.history[..|e.history|] == r.history[..|e'.history|][..|e.history|];
    }
  }

  /** Cutting a titled history keeps the titles in order, from the first
      one kept. */
  lemma TrimTitles(h: seq<Snapshot>, max: nat, first: nat)
    requires TitledFrom(h, first) && |h| > max
    ensures TitledFrom(Trim(h, max), first + |h| - max)
  {
    forall k | 0 <= k < |Trim(h, max)|
      ensures TitleOf(Trim(h, max)[k]) == Decimal(first + |h| - max + k)
    {
      assert Trim(h, max)[k] == h[|h| - max + k];
    }
  }

  /** The history rule with `historyMaxItems = 10`. */
  const TenItems := Meta(true, EmptyUuid, Some(10), map[], map[])
  const HistoryRules := CleanupOptions(true, false, false)

  /** Test lines 284-295: three pushes, then a cleanup that keeps all three. */
  lemma ThreePushes(u: Uuid)
    ensures HistoryCap(HistoryRules, TenItems) == Some(10)
    ensures var e := PushTitled(NewEntry(u), 0, 3);
      |e.history| == 3 && TitledFrom(e.history, 0) && TitleOf(e.history[0]) == "0" && TrimEntry(e, 10) == e
  {
    PushTitledTitles(NewEntry(u), 0, 3, 0);
  }

  /** Test lines 296-305: seven more pushes make ten, and cleanup keeps all
      ten. */
  lemma TenPushes(e: Entry)
    requires |e.history| == 3 && TitledFrom(e.history, 0)
    ensures var r := PushTitled(e, 3, 10);
      |r.history| == 10 && TitledFrom(r.history, 0) && TitleOf(r.history[0]) == "0" && TrimEntry(r, 10) == r
  {
    PushTitledTitles(e, 3, 10, 0);
  }

  /** Test lines 306-313: an eleventh push, and cleanup drops the oldest,
      leaving ten from title "1". */
  lemma ElevenPushes(e: Entry)
    requires |e.history| == 10 && TitledFrom(e.history, 0)
    ensures var r := TrimEntry(PushTitled(e, 10, 11), 10);
      |PushTitled(e, 10, 11).history| == 11 &&
      |r.history| == 10 && TitledFrom(r.history, 1) && TitleOf(r.history[0]) == "1"
  {
    PushTitledTitles(e, 10, 11, 0);
    TrimTitles(PushTitled(e, 10, 11).history, 10, 0);
  }

  /** Nineteen snapshots titled from "1", cut to ten, start at title "10". */
  lemma TrimNineteen(h: seq<Snapshot>)
    requires |h| == 19 && TitledFrom(h, 1)
    ensures |Trim(h, 10)| == 10 && TitledFrom(Trim(h, 10), 10) && TitleOf(Trim(h, 10)[0]) == "10"
  {
    TrimTitles(h, 10, 1);
    DecimalTen();
  }

  /** Test lines 314-320: nine more pushes make nineteen, and cleanup keeps
      the ten newest, from title "10". */
  lemma NineteenPushes(e: Entry)
    requires |e.history| == 10 && TitledFrom(e.history, 1)
    ensures var r := TrimEntry(PushTitled(e, 11, 20), 10);
      |PushTitled(e, 11, 20).history| == 19 &&
      |r.history| == 10 && TitledFrom(r.history, 10) && TitleOf(r.history[0]) == "10"
  {
    var p := PushTitled(e, 11, 20);
    assert |p.history| == 19 && TitledFrom(p.history, 1) by {
      PushTitledTitles(e, 11, 20, 1);
    }
    TrimNineteen(p.history);
  }

  /** Test lines 321-335: ten more pushes make twenty, and cleanup without
      a cap keeps all twenty, from title "10". */
  lemma UncappedPushes(e: Entry)
    requires |e.history| == 10 && TitledFrom(e.history, 10)
    ensures var r := PushTitled(e, 20, 30);
      |r.history| == 20 && TitleOf(r.history[0]) == "10"
  {
    var r := PushTitled(e, 20, 30);
    assert |r.history| == 20 && TitledFrom(r.history, 10) by {
      PushTitledTitles(e, 20, 30, 10);
    }
    DecimalTen();
  }

  /** Test lines 321-335: with the cap -1 or unset, or without the history
      rules, cleanup applies no cap; a cap of 0 is no cap either. */
  lemma NoCap()
    ensures HistoryCap(HistoryRules, TenItems.(historyMaxItems := Some(-1))).None?
    ensures HistoryCap(HistoryRules, TenItems.(historyMaxItems := Some(0))).None?
    ensures HistoryCap(HistoryRules, TenItems.(historyMaxItems := None)).None?
    ensures HistoryCap(CleanupOptions(false, false, false), TenItems).None?
  {
  }

  lemma DecimalTen()
    ensures Decimal(10) == "10"
  {
  }

  // ----- the pool rules -----

  /** Uuids for the example database. */
  function U(k: bv8): Uuid {
    [k, 0, 0, 0, 0, 0, 0, 0, 0, 0, 0, 0, 0, 0, 0, 0]
  }

  /** `Kdbx.create(cred, 'example')` with a group `subgroup` under the
      default group and `entry` in it. */
  function Example(entry: Entry, subIcon: Option<IconId>, meta: Meta): Doc {
    Doc([Group(U(1), "example", None, [NewGroup(U(2), RecycleBinName), Group(U(3), "subgroup", subIcon, [], [entry])], [])],
        meta, [])
  }

  lemma {:induction false} HistoryIconsAll(h: seq<Snapshot>, x: IconId)
    requires h != [] && forall i :: 0 <= i < |h| ==> h[i].customIcon == Some(x)
    ensures HistoryIcons(h) == {x}
  {
    if |h| > 1 {
      HistoryIconsAll(h[1..], x);
    }
  }

  lemma {:induction false} HistoryRefsAll(h: seq<Snapshot>, m: map<string, Attachment>)
    requires h != [] && forall i :: 0 <= i < |h| ==> h[i].binaries == m
    ensures HistoryRefs(h) == AttachmentRefs(m)
  {
    if |h| > 1 {
      HistoryRefsAll(h[1..], m);
    }
  }

  /** The icons and binaries used by the example database are those of the
      subgroup and of the entry. */
  lemma ExampleUse(entry: Entry, subIcon: Option<IconId>, meta: Meta)
    ensures ForestIcons(Example(entry, subIcon, meta).groups) == OptSet(subIcon) + EntryIcons(entry)
    ensures ForestRefs(Example(entry, subIcon, meta).groups) == EntryRefs(entry)
  {
    var d := Example(entry, subIcon, meta);
    var root := d.groups[0];
    var bin := root.groups[0];
    var sub := root.groups[1];
    assert root.groups[1..] == [sub] && [sub][1..] == [] && d.groups[1..] == [] && sub.entries[1..] == [];
    assert EntriesIcons(sub.entries) == EntryIcons(entry);
    assert EntriesRefs(sub.entries) == EntryRefs(entry);
    assert ForestIcons([sub]) == GroupIcons(sub) == OptSet(subIcon) + EntryIcons(entry);
    assert ForestRefs([sub]) == GroupRefs(sub) == EntryRefs(entry);
    assert GroupIcons(bin) == {} && GroupRefs(bin) == {};
    assert ForestIcons(root.groups) == OptSet(subIcon) + EntryIcons(entry);
    assert ForestRefs(root.groups) == EntryRefs(entry);
  }

  /** An attachment map with one attachment pointing into the pool. */
  lemma SingleRef(name: string, b: BinaryRef)
    ensures AttachmentRefs(map[name := Ref(b)]) == {b}
  {
    var m := map[name := Ref(b)];
    forall x | x in AttachmentRefs(m)
      ensures x == b
    {
      var k :| k in m && m[k] == Ref(x);
    }
    assert m[name].Ref? && m[name].ref == b;
    assert b in AttachmentRefs(m);
  }

  /** The entry of "cleanups custom icons": three pushes with icon `i1`,
      then icon `i2`. */
  function IconEntry(): Entry {
    PushTitled(NewEntry(U(4)).(customIcon := Some("i1")), 0, 3).(customIcon := Some("i2"))
  }

  lemma IconEntryIcons()
    ensures EntryIcons(IconEntry()) == {"i2", "i1"}
  {
    var e0 := NewEntry(U(4)).(customIcon := Some("i1"));
    PushTitledKeeps(e0, 0, 3);
    HistoryIconsAll(PushTitled(e0, 0, 3).history, "i1");
  }

  /** Test lines 338-360: with six icons in the pool, of which the subgroup
      uses `i3`, the entry `i2` and its snapshots `i1`, the icon rule keeps
      exactly `i1`, `i2` and `i3`, with their data. */
  lemma IconCleanupScenario(i1: seq<bv8>, i2: seq<bv8>, i3: seq<bv8>, r1: seq<bv8>, r2: seq<bv8>, r3: seq<bv8>)
    ensures var pool := map["i1" := i1, "i2" := i2, "i3" := i3, "r1" := r1, "r2" := r2, "r3" := r3];
      var d := Example(IconEntry(), Some("i3"), TenItems.(customIcons := pool));
      Cleanup(d, CleanupOptions(false, true, false)).meta.customIcons == map["i1" := i1, "i2" := i2, "i3" := i3]
  {
    var pool := map["i1" := i1, "i2" := i2, "i3" := i3, "r1" := r1, "r2" := r2, "r3" := r3];
    var d := Example(IconEntry(), Some("i3"), TenItems.(customIcons := pool));
    ExampleUse(IconEntry(), Some("i3"), d.meta);
    IconEntryIcons();
    var kept := Cleanup(d, CleanupOptions(false, true, false)).meta.customIcons;
    assert kept.Keys == {"i1", "i2", "i3"};
  }

  /** The entry of "cleanups binaries": three pushes with attachment `bin`
      pointing to `b1`, then to `b2`. */
  function BinaryEntry(): Entry {
    PushTitled(NewEntry(U(4)).(binaries := map["bin" := Ref("b1")]), 0, 3).(binaries := map["bin" := Ref("b2")])
  }

  lemma BinaryEntryRefs()
    ensures EntryRefs(BinaryEntry()) == {"b2", "b1"}
  {
    var e0 := NewEntry(U(4)).(binaries := map["bin" := Ref("b1")]);
    PushTitledKeeps(e0, 0, 3);
    HistoryRefsAll(PushTitled(e0, 0, 3).history, e0.binaries);
    SingleRef("bin", "b1");
    SingleRef("bin", "b2");
  }

  /** Test lines 362-383: with three binaries in the pool, of which the
      entry uses `b2` and its snapshots `b1`, the binary rule keeps exactly
      `b1` and `b2`, with their data. */
  lemma BinaryCleanupScenario(b1: seq<bv8>, b2: seq<bv8>, b3: seq<bv8>)
    ensures var pool := map["b1" := b1, "b2" := b2, "b3" := b3];
      var d := Example(BinaryEntry(), None, TenItems.(binaries := pool));
      Cleanup(d, CleanupOptions(false, false, true)).meta.binaries == map["b1" := b1, "b2" := b2]
  {
    var pool := map["b1" := b1, "b2" := b2, "b3" := b3];
    var d := Example(BinaryEntry(), None, TenItems.(binaries := pool));
    ExampleUse(BinaryEntry(), None, d.meta);
    BinaryEntryRefs();
    var kept := Cleanup(d, CleanupOptions(false, false, true)).meta.binaries;
    assert kept.Keys == {"b1", "b2"};
  }
}
