/** A run of a new database after which a deleted value is visible again. */
module LostDeletionExample {
  import opened InternalKeys
  import opened Versions
  import opened InputSelection
  import opened CompactionSetup
  import opened CompactionWork
  import opened VersionEdits
  import opened ManifestReplay
  import opened History
  import opened LsmState
  import opened LsmVersions
  import opened LsmOrder
  import opened LsmSteps
  import opened LsmCompaction
  import opened LsmRuns
  import opened LostDeletion
  import opened LsmReach

  /** b is written, deleted, and a is written twice. */
  function Ops(a: UserKey, b: UserKey): seq<Op> {
    [Op(b, TypeValue, "old"), Op(a, TypeValue, "x"), Op(b, TypeDeletion, ""), Op(a, TypeValue, "y")]
  }

  function Old(b: UserKey): Entry { Entry(InternalKey(b, 1, TypeValue), "old") }
  function X(a: UserKey): Entry { Entry(InternalKey(a, 2, TypeValue), "x") }
  function Gone(b: UserKey): Entry { Entry(InternalKey(b, 3, TypeDeletion), "") }
  function Y(a: UserKey): Entry { Entry(InternalKey(a, 4, TypeValue), "y") }

  function OldFile(number: nat, b: UserKey): File { FileMeta(number, 1, [Old(b)]) }

  function BothFile(number: nat, a: UserKey, b: UserKey): File
    requires a < b
  {
    FileMeta(number, 1, [X(a), Gone(b)])
  }

  function YFile(number: nat, a: UserKey): File { FileMeta(number, 1, [Y(a)]) }

  function V1(b: UserKey): Version { TwoLevels([], [OldFile(2, b)]) }

  function V2(a: UserKey, b: UserKey): Version
    requires a < b
  {
    TwoLevels([BothFile(3, a, b)], [OldFile(2, b)])
  }

  function V3(a: UserKey, b: UserKey): Version
    requires a < b
  {
    TwoLevels([], [BothFile(4, a, b), OldFile(5, b)])
  }

  function V4(a: UserKey, b: UserKey): Version
    requires a < b
  {
    TwoLevels([YFile(6, a)], [BothFile(4, a, b), OldFile(5, b)])
  }

  // ---- b written and flushed; a snapshot taken; a written, b deleted, both flushed ----

  lemma FirstFlush(b: UserKey)
    ensures Reachable(Quiet(V1(b), 3, [], [Op(b, TypeValue, "old")], 0))
  {
    hide FilesSorted, TwoLevels;
    var op, f := Op(b, TypeValue, "old"), OldFile(2, b);
    var d := EMPTY.(ops := [op], mem := [Old(b)]);
    EmptyIsReachable();
    assert EMPTY.ops + [op] == [op];
    assert AddToMem([], Old(b)) == [Old(b)];
    Put(EMPTY, op, d);
    SmallLevels(f, f);
    TwoLevelsWithFile([], [], 2, f, [], [f]);
    assert EMPTY.current == TwoLevels([], []) && forall l ::
        0 <= l <= 2 ==> ClearOf(EMPTY.current.files[l], f) by { NoFiles(f); }
    StoreFile(d, 2, f, V1(b), Quiet(V1(b), 3, [], [op], 0));
  }

  lemma SecondWrites(a: UserKey, b: UserKey)
    requires a < b
    ensures Reachable(Quiet(V1(b), 3, [1], Ops(a, b)[..3], 0).(mem := [X(a), Gone(b)]))
  {
    hide V1, Reachable;
    var op1, op2, op3 := Op(b, TypeValue, "old"), Op(a, TypeValue, "x"), Op(b, TypeDeletion, "");
    FirstFlush(b);
    var d0 := Quiet(V1(b), 3, [], [op1], 0);
    var d1 := d0.(snapshots := [1]);
    Snapshot(d0);
    assert TakeSnapshot(d0) == d1 by { assert d0.snapshots + [1] == [1]; }
    var d2 := d1.(ops := [op1, op2], mem := [X(a)]);
    assert [op1] + [op2] == [op1, op2];
    assert AddToMem([], X(a)) == [X(a)];
    Put(d1, op2, d2);
    assert [op1, op2] + [op3] == Ops(a, b)[..3];
    assert AddToMem([X(a)], Gone(b)) == [X(a), Gone(b)] by { assert [X(a)][1..] == []; }
    Put(d2, op3, d2.(ops := Ops(a, b)[..3], mem := [X(a), Gone(b)]));
  }

  lemma SecondFlush(a: UserKey, b: UserKey)
    requires a < b
    ensures Reachable(Quiet(V2(a, b), 4, [1], Ops(a, b)[..3], 0))
  {
    hide FilesSorted, TwoLevels, MaySkipTo, WithFile, Reachable;
    SecondWrites(a, b);
    var f, l := BothFile(3, a, b), [OldFile(2, b)];
    SmallLevels(f, OldFile(2, b));
    SmallLevels(OldFile(2, b), f);
    TwoLevelsWithFile([], l, 1, f, [f], l);
    ClearAbove(l, f);
    var d := Quiet(V1(b), 3, [1], Ops(a, b)[..3], 0).(mem := f.entries);
    StoreFile(d, 1, f, V2(a, b), Quiet(V2(a, b), 4, [1], Ops(a, b)[..3], 0));
  }

  // ---- the snapshot keeps the deletion and what it hides, in two files ----

  function C1(a: UserKey, b: UserKey): Compaction
    requires a < b
  {
    Compaction(1, [BothFile(3, a, b)], [OldFile(2, b)], [])
  }

  lemma SelectedOne(u: File, lower: seq<File>, parents: seq<File>)
    requires parents == OverlappingFiles(lower, Some(Smallest(u).user), Some(Largest(u).user))
    ensures Selected(TwoLevels([u], lower), Compaction(1, [u], parents, []))
  {
    var v, c := TwoLevels([u], lower), Compaction(1, [u], parents, []);
    assert v.files[1] == [u] && v.files[2] == lower;
    forall lo, hi | IsSmallestKey(c.inputs0, lo) && IsLargestKey(c.inputs0, hi)
      ensures c.inputs1 == OverlappingFiles(v.files[2], Some(lo.user), Some(hi.user))
    {
      assert c.inputs0[0] == u;
    }
  }

  lemma Inputs1(a: UserKey, b: UserKey, e: Entry)
    requires a < b
    ensures InInputs(C1(a, b), e) <==> e == X(a) || e == Gone(b) || e == Old(b)
  {
    var c := C1(a, b);
    assert BothFile(3, a, b) in c.inputs0 && OldFile(2, b) in c.inputs1;
  }

  lemma Outputs1(a: UserKey, b: UserKey)
    requires a < b
    ensures OutputsOf(Running(C1(a, b), V2(a, b), 1), [BothFile(4, a, b), OldFile(5, b)])
  {
    hide BaseLevel;
    var r, outputs := Running(C1(a, b), V2(a, b), 1), [BothFile(4, a, b), OldFile(5, b)];
    forall e ensures InFiles(outputs, e) <==> Survivor(r, e) {
      Inputs1(a, b, e);
      assert outputs[0] in outputs && outputs[1] in outputs;
      forall p | InInputs(r.c, p) ensures p.key.sqn >= 1 {
        Inputs1(a, b, p);
      }
    }
  }

  lemma FirstCompacts(a: UserKey, b: UserKey)
    requires a < b
    ensures Compacts(V2(a, b), C1(a, b), 1, [BothFile(4, a, b), OldFile(5, b)], 6, V3(a, b))
  {
    hide FilesSorted, TwoLevels, LevelSorted, DistinctNumbers, OutputsOf, FreshOutputs, Selected, WithReplaced,
        LowerInputsClosed;
    var u, l, o1, o2 := BothFile(3, a, b), OldFile(2, b), BothFile(4, a, b), OldFile(5, b);
    assert OverlappingFiles([l], Some(a), Some(b)) == [l] by { assert [l][1..] == []; }
    SelectedOne(u, [l], [l]);
    SmallLevels(o1, o2);
    Replaced([u], [l], [l], [o1, o2], [o1, o2]);
    TwoNumbers(o1, o2);
    Fresh([u], [l], [l], [o1, o2], 6);
    Outputs1(a, b);
    AllLowerClosed(u, l);
  }

  lemma FirstCompaction(a: UserKey, b: UserKey)
    requires a < b
    ensures Reachable(Quiet(V3(a, b), 6, [], Ops(a, b)[..3], 1))
  {
    hide TwoLevels, Compacts, Reachable, V2, V3, C1, BothFile, OldFile;
    SecondFlush(a, b);
    FirstCompacts(a, b);
    var n := Quiet(V3(a, b), 6, [1], Ops(a, b)[..3], 1);
    Compact(Quiet(V2(a, b), 4, [1], Ops(a, b)[..3], 0), C1(a, b), 1, [BothFile(4, a, b), OldFile(5, b)], 6, V3(a, b),
        n);
    assert [1][..0] + [1][1..] == [];
    Release(n, 0);
  }

  lemma AllLowerClosed(u: File, l: File)
    ensures LowerInputsClosed(TwoLevels([u], [l]), Compaction(1, [u], [l], []))
  {
    assert TwoLevels([u], [l]).files[2] == [l];
    assert [l][0] == l;
    EntriesInRange(l, l.entries[0]);
  }

  // ---- a written again; the deletion dropped ----

  lemma ThirdFlush(a: UserKey, b: UserKey)
    requires a < b
    ensures Reachable(Quiet(V4(a, b), 7, [], Ops(a, b), 1))
  {
    hide FilesSorted, TwoLevels, MaySkipTo, WithFile, Reachable, BothFile, OldFile;
    FirstCompaction(a, b);
    var op, f, l := Op(a, TypeValue, "y"), YFile(6, a), [BothFile(4, a, b), OldFile(5, b)];
    var d0 := Quiet(V3(a, b), 6, [], Ops(a, b)[..3], 1);
    var d1 := d0.(ops := Ops(a, b), mem := [Y(a)]);
    assert d0.ops + [op] == Ops(a, b);
    assert AddToMem([], Y(a)) == [Y(a)];
    Put(d0, op, d1);
    assert WithFile(TwoLevels([], l), 1, f, TwoLevels([f], l)) by { ThirdFile(a, b); }
    ClearAbove(l, f);
    StoreFile(d1, 1, f, V4(a, b), Quiet(V4(a, b), 7, [], Ops(a, b), 1));
  }

  lemma ThirdFile(a: UserKey, b: UserKey)
    requires a < b
    ensures WithFile(V3(a, b), 1, YFile(6, a), V4(a, b))
  {
    hide FilesSorted, TwoLevels, WithFile;
    SmallLevels(BothFile(4, a, b), OldFile(5, b));
    SmallLevels(YFile(6, a), OldFile(5, b));
    TwoLevelsWithFile([], [BothFile(4, a, b), OldFile(5, b)], 1, YFile(6, a), [YFile(6, a)],
        [BothFile(4, a, b), OldFile(5, b)]);
  }

  function C2(a: UserKey, b: UserKey): Compaction
    requires a < b
  {
    Compaction(1, [YFile(6, a)], [BothFile(4, a, b)], [])
  }

  /** The second compaction under way. */
  function SplitDb(a: UserKey, b: UserKey): Db
    requires a < b
  {
    Quiet(V4(a, b), 7, [], Ops(a, b), 1).(running := Some(Running(C2(a, b), V4(a, b), 4)))
  }

  function SplitOutputs(a: UserKey): seq<File> { [YFile(7, a)] }

  lemma SplitIsSelected(a: UserKey, b: UserKey)
    requires a < b
    ensures Selected(V4(a, b), C2(a, b))
  {
    hide TwoLevels, Selected;
    var l := [BothFile(4, a, b), OldFile(5, b)];
    assert l[1..] == [OldFile(5, b)];
    assert OverlappingFiles([OldFile(5, b)], Some(a), Some(a)) == [];
    assert OverlappingFiles(l, Some(a), Some(a)) == [BothFile(4, a, b)];
    SelectedOne(YFile(6, a), l, [BothFile(4, a, b)]);
  }

  lemma SplitIsReachable(a: UserKey, b: UserKey)
    requires a < b
    ensures Reachable(SplitDb(a, b))
  {
    hide Selected, V4, C2;
    ThirdFlush(a, b);
    SplitIsSelected(a, b);
    Started(Quiet(V4(a, b), 7, [], Ops(a, b), 1), C2(a, b), 4);
  }

  lemma SplitInputs(a: UserKey, b: UserKey, e: Entry)
    requires a < b
    ensures InInputs(C2(a, b), e) <==> e == Y(a) || e == X(a) || e == Gone(b)
  {
    var c := C2(a, b);
    assert YFile(6, a) in c.inputs0 && BothFile(4, a, b) in c.inputs1;
  }

  lemma DeepLevelsEmpty(a: UserKey, b: UserKey)
    requires a < b
    ensures BaseLevel(V4(a, b), 1, b)
  {
    forall l | 3 <= l < NUM_LEVELS ensures NoneCovers(V4(a, b).files[l], b) {
      assert V4(a, b).files[l] == [];
    }
  }

  lemma SplitOutputsAreRight(a: UserKey, b: UserKey)
    requires a < b
    ensures OutputsOf(Running(C2(a, b), V4(a, b), 4), SplitOutputs(a))
    ensures ObsoleteTombstone(V4(a, b), C2(a, b), Gone(b), 4)
  {
    hide V4, BaseLevel;
    var r, outputs := Running(C2(a, b), V4(a, b), 4), SplitOutputs(a);
    DeepLevelsEmpty(a, b);
    SplitInputs(a, b, Y(a));
    assert Superseded(r.c, X(a), 4);
    forall p | InInputs(r.c, p) && p.key.user == a ensures p.key.sqn <= 4 {
      SplitInputs(a, b, p);
    }
    assert !Superseded(r.c, Y(a), 4);
    forall e ensures InFiles(outputs, e) <==> Survivor(r, e) {
      SplitInputs(a, b, e);
      assert outputs[0] in outputs;
    }
  }

  lemma SplitCanInstall(a: UserKey, b: UserKey)
    requires a < b
    ensures CanInstall(SplitDb(a, b), SplitOutputs(a), 8)
  {
    hide OutputsOf, FreshOutputs, DistinctNumbers, LevelSorted, FilesSorted;
    SplitOutputsAreRight(a, b);
    SmallLevels(YFile(7, a), YFile(7, a));
    assert DistinctNumbers([YFile(7, a)]) by { OneNumber(YFile(7, a)); }
    Fresh([YFile(6, a)], [BothFile(4, a, b), OldFile(5, b)], [BothFile(4, a, b)], [YFile(7, a)], 8);
  }

  lemma SplitLeftOut(a: UserKey, b: UserKey)
    requires a < b
    ensures LeftOut(V4(a, b), C2(a, b), Old(b))
    ensures forall f :: LeftOut(V4(a, b), C2(a, b), f) ==> f == Old(b)
  {
    var v, c := V4(a, b), C2(a, b);
    assert v.files[2] == [BothFile(4, a, b), OldFile(5, b)];
    assert OldFile(5, b) in v.files[2] && OldFile(5, b) !in c.inputs1;
    assert BothFile(4, a, b) in c.inputs1;
  }

  lemma GoneIsNewest(a: UserKey, b: UserKey)
    requires a < b
    ensures NewestHeld(SplitDb(a, b), b, 4, Gone(b))
  {
    hide Reachable, V4, C2, InInputs, AllFromHistory;
    var db := SplitDb(a, b);
    SplitIsReachable(a, b);
    ReachableIsValid(db);
    SplitInputs(a, b, Gone(b));
    assert Holds(db, Gone(b)) by { InputsAreHeld(db, Gone(b)); }
    forall f | Holds(db, f) && Visible(f, b, 4) ensures f.key.sqn <= 3 {
      assert FromHistory(db.ops, f) by { HeldIsFromHistory(db, f); }
    }
  }

  lemma HeldIsFromHistory(db: Db, f: Entry)
    requires Shape(db) && Holds(db, f)
    ensures FromHistory(db.ops, f)
  {
    hide FromHistory, Holds;
  }

  /** A new database can come to a state in which a compaction that the code
      chooses, with the outputs its loop produces, makes the deleted value of b
      visible again. */
  lemma DeletedValueComesBack(a: UserKey, b: UserKey)
    requires a < b
    ensures Reachable(SplitDb(a, b)) && Selected(V4(a, b), C2(a, b)) && CanInstall(SplitDb(a, b), SplitOutputs(a), 8)
    ensures ReadAt(Ops(a, b), 4, b) == NotFound
    ensures Reads(Install(SplitDb(a, b), SplitOutputs(a), 8), b, 4, Found("old"))
  {
    hide Reachable, Selected, CanInstall, InInputs, ObsoleteTombstone, Reads, Install, V4, C2, Shape, Complete,
        NewestHeld, LeftOut;
    var db := SplitDb(a, b);
    SplitIsReachable(a, b);
    ReachableIsValid(db);
    SplitIsSelected(a, b);
    SplitCanInstall(a, b);
    SplitOutputsAreRight(a, b);
    SplitInputs(a, b, Gone(b));
    SplitLeftOut(a, b);
    GoneIsNewest(a, b);
    assert C2(a, b).level == 1 by { LevelOne(a, b); }
    assert Resurrects(db, b, Gone(b), Old(b));
    ResurrectedIsRead(db, SplitOutputs(a), 8, b, Gone(b), Old(b));
    ReadsFollowHistory(db, b, 4);
    AnswersAgree(db, b, 4, ReadAt(Ops(a, b), 4, b), NotFound);
  }

  lemma LevelOne(a: UserKey, b: UserKey)
    requires a < b
    ensures C2(a, b).level == 1
  {
  }
}
