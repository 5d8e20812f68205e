/** A concrete database on which the length check of "deletes and restores
    an entry" (and of "creates a recycle bin if it is enabled but not
    created") fails as written: the check reads the removed group's own
    child count where the parent's is meant. */
module KdbxFindings {
  import opened KdbxTypes
  import opened KdbxTree
  import opened KdbxUnique
  import opened KdbxDocument
  import opened KdbxDocumentFacts
  import opened KdbxScenarios

  /** The group that is removed: a leaf. */
  function Leaf(): Group {
    NewGroup(U(5), "leaf")
  }

  /** Its parent, holding a sibling group before it. */
  function Parent(): Group {
    Group(U(3), "parent", None, [NewGroup(U(4), "sibling"), Leaf()], [])
  }

  /** root [ Recycle Bin, parent [ sibling, leaf ] ], bin enabled. */
  function Sample(): Doc {
    Doc([Group(U(1), "root", None, [NewGroup(U(2), RecycleBinName), Parent()], [])],
        Meta(true, U(2), Some(DefaultHistoryMaxItems), map[], map[]), [])
  }

  lemma UInjective(a: bv8, b: bv8)
    requires a != b
    ensures U(a) != U(b)
  {
    assert U(a)[0] != U(b)[0];
  }

  lemma FiveDistinct<T>(a: T, b: T, c: T, d: T, e: T)
    requires a != b && a != c && a != d && a != e && b != c && b != d && b != e
    requires c != d && c != e && d != e
    ensures forall u :: (multiset{a} + multiset{b} + multiset{c} + multiset{d} + multiset{e})[u] <= 1
  {
  }

  lemma PairIds(a: Group, b: Group)
    ensures Ids([a, b]) == SubIds(a) + SubIds(b)
  {
    IdsCons(a, [b]);
    IdsCons(b, []);
  }

  lemma ParentIds()
    ensures SubIds(Parent()) == multiset{U(3)} + multiset{U(4)} + multiset{U(5)}
  {
    var sibling := NewGroup(U(4), "sibling");
    PairIds(sibling, Leaf());
    LeafIds(sibling);
    LeafIds(Leaf());
    IdsCons(sibling, []);
    IdsCons(Leaf(), []);
  }

  lemma SampleIds()
    ensures Ids(Sample().groups) ==
      multiset{U(1)} + multiset{U(2)} + multiset{U(3)} + multiset{U(4)} + multiset{U(5)}
  {
    var root := Sample().groups[0];
    var bin := NewGroup(U(2), RecycleBinName);
    ParentIds();
    assert SubIds(root) == multiset{U(1)} + SubIds(bin) + SubIds(Parent()) by {
      assert root.groups == [bin, Parent()] && root.entries == [];
      PairIds(bin, Parent());
    }
    assert SubIds(bin) == multiset{U(2)} by {
      LeafIds(bin);
      IdsCons(bin, []);
    }
    IdsCons(root, []);
  }

  lemma SampleWellFormed()
    ensures WellFormed(Sample().groups)
    ensures GetGroupIn(Sample().groups, U(2)) == Some(NewGroup(U(2), RecycleBinName))
    ensures Occurs(Sample().groups, Parent())
  {
    var gs := Sample().groups;
    SampleIds();
    UInjective(1, 2); UInjective(1, 3); UInjective(1, 4); UInjective(1, 5);
    UInjective(2, 3); UInjective(2, 4); UInjective(2, 5);
    UInjective(3, 4); UInjective(3, 5); UInjective(4, 5);
    FiveDistinct(U(1), U(2), U(3), U(4), U(5));
    assert U(0) == EmptyUuid;
    UInjective(0, 1); UInjective(0, 2); UInjective(0, 3); UInjective(0, 4); UInjective(0, 5);
    assert gs[0].groups[1..][0] == Parent();
    assert Occurs(gs[0].groups[1..], Parent());
  }

  /** Removing `leaf` from the sample: the group the test holds is the
      removed leaf itself, still in the tree with no child groups, while
      the parent had two; so the check as written (child count of the
      removed group equals the parent's count before, minus one) fails,
      and the intended check (the parent's count drops by one) holds. */
  lemma RestoreLengthCheck(now: Time, newBin: Uuid)
    ensures var r := Remove(Sample(), U(5), now, newBin);
      FindGroup(r.0.groups, U(5)) == Some(Leaf()) &&
      |FindGroup(r.0.groups, U(5)).value.groups| != |Parent().groups| - 1
    ensures var r := Remove(Sample(), U(5), now, newBin);
      GetGroupIn(r.0.groups, U(3)).Some? &&
      |Kids(GetGroupIn(r.0.groups, U(3)).value)| == |Parent().groups| - 1
  {
    var d := Sample();
    SampleWellFormed();
    assert Parent().groups[1] == Leaf();
    assert U(5) !in SubIds(NewGroup(U(2), RecycleBinName)) by {
      LeafIds(NewGroup(U(2), RecycleBinName));
      IdsCons(NewGroup(U(2), RecycleBinName), []);
      UInjective(2, 5);
    }
    assert U(2) !in SubIds(Leaf()) by {
      LeafIds(Leaf());
      IdsCons(Leaf(), []);
      UInjective(2, 5);
    }
    RecycledNodeKept(d, Parent(), 1, now, newBin);
    RemoveThenMoveBack(d, Parent(), 1, now, newBin);
  }
}
