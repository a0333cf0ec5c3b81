/** A run of a new database with a manual compaction, after which a key that was
    just written is not found. */
module GapFlushExample {
  import opened InternalKeys
  import opened Versions
  import opened InputSelection
  import opened CompactionSetup
  import opened CompactionWork
  import opened VersionEdits
  import opened ManifestReplay
  import opened History
  import opened LsmState
  import opened LsmVersions
  import opened LsmOrder
  import opened LsmSteps
  import opened LsmCompaction
  import opened LsmRuns
  import opened LsmReach

  function PutV(user: UserKey): Op { Op(user, TypeValue, "v") }

  function V(user: UserKey, sqn: SequenceNumber): Entry { Entry(InternalKey(user, sqn, TypeValue), "v") }

  function One(number: nat, user: UserKey, sqn: SequenceNumber): File { FileMeta(number, 1, [V(user, sqn)]) }

  function Ops(a: UserKey, m: UserKey, z: UserKey): seq<Op> { [PutV(a), PutV(z), PutV(a), PutV(z), PutV(m)] }

  // ---- one write and one flush ----

  /** op is written to an empty memtable and stored in `level` at once. */
  lemma PutAndStore(v: Version, next: nat, ops: seq<Op>, user: UserKey, level: nat, w: Version)
    requires |ops| + 1 < MAX_SEQUENCE_NUMBER && Reachable(Quiet(v, next, [], ops, 0))
    requires MaySkipTo(v, level, One(next, user, |ops| + 1)) && WithFile(v, level, One(next, user, |ops| + 1), w)
    ensures Reachable(Quiet(w, next + 1, [], ops + [PutV(user)], 0))
  {
    hide Reachable, MaySkipTo, WithFile;
    var d := Quiet(v, next, [], ops, 0);
    var e := V(user, |ops| + 1);
    assert AddToMem([], e) == [e];
    var n := d.(ops := ops + [PutV(user)], mem := [e]);
    Put(d, PutV(user), n);
    StoreFile(n, level, One(next, user, |ops| + 1), w, Quiet(w, next + 1, [], ops + [PutV(user)], 0));
  }

  function Lower(a: UserKey, z: UserKey): seq<File> { [One(2, a, 1), One(3, z, 2)] }

  function Upper(a: UserKey, z: UserKey): seq<File> { [One(4, a, 3), One(5, z, 4)] }

  lemma LowerStored(a: UserKey, z: UserKey)
    requires a < z
    ensures Reachable(Quiet(TwoLevels([], Lower(a, z)), 4, [], [PutV(a), PutV(z)], 0))
  {
    hide Reachable, WithFile, TwoLevels, FilesSorted, MaySkipTo;
    var f, g := One(2, a, 1), One(3, z, 2);
    EmptyIsReachable();
    NoFiles(f);
    SmallLevels(f, g);
    TwoLevelsWithFile([], [], 2, f, [], [f]);
    assert MaySkipTo(EMPTY.current, 2, f) by { EmptyIsClear(f); }
    PutAndStore(EMPTY.current, 2, [], a, 2, TwoLevels([], [f]));
    assert [] + [PutV(a)] == [PutV(a)];
    TwoLevelsWithFile([], [f], 2, g, [], [f, g]);
    ApartFiles([], [f], g);
    PutAndStore(TwoLevels([], [f]), 3, [PutV(a)], z, 2, TwoLevels([], [f, g]));
    assert [PutV(a)] + [PutV(z)] == [PutV(a), PutV(z)];
  }

  lemma EmptyIsClear(f: File)
    ensures MaySkipTo(EMPTY.current, 2, f)
  {
    NoFiles(f);
  }

  /** Files clear of f leave it any of the first levels. */
  lemma ApartFiles(upper: seq<File>, lower: seq<File>, f: File)
    ensures ClearOf(upper, f) ==> MaySkipTo(TwoLevels(upper, lower), 1, f)
    ensures ClearOf(upper, f) && ClearOf(lower, f) ==> MaySkipTo(TwoLevels(upper, lower), 2, f)
  {
    var v := TwoLevels(upper, lower);
    assert v.files[0] == [] && v.files[1] == upper && v.files[2] == lower;
  }

  lemma BothStored(a: UserKey, z: UserKey)
    requires a < z
    ensures Reachable(Quiet(TwoLevels(Upper(a, z), Lower(a, z)), 6, [], [PutV(a), PutV(z), PutV(a), PutV(z)], 0))
  {
    hide Reachable, WithFile, TwoLevels, FilesSorted, MaySkipTo;
    var l, f, g := Lower(a, z), One(4, a, 3), One(5, z, 4);
    LowerStored(a, z);
    SmallLevels(l[0], l[1]);
    SmallLevels(f, g);
    TwoLevelsWithFile([], l, 1, f, [f], l);
    ApartFiles([], l, f);
    PutAndStore(TwoLevels([], l), 4, [PutV(a), PutV(z)], a, 1, TwoLevels([f], l));
    assert [PutV(a), PutV(z)] + [PutV(a)] == [PutV(a), PutV(z), PutV(a)];
    TwoLevelsWithFile([f], l, 1, g, [f, g], l);
    ApartFiles([f], l, g);
    PutAndStore(TwoLevels([f], l), 5, [PutV(a), PutV(z), PutV(a)], z, 1, TwoLevels([f, g], l));
    assert [PutV(a), PutV(z), PutV(a)] + [PutV(z)] == [PutV(a), PutV(z), PutV(a), PutV(z)];
  }

  // ---- the compaction begins; m is written and switched ----

  function C(a: UserKey, z: UserKey): Compaction { Compaction(1, Upper(a, z), Lower(a, z), []) }

  lemma GapIsSelected(a: UserKey, z: UserKey)
    requires a < z
    ensures Selected(TwoLevels(Upper(a, z), Lower(a, z)), C(a, z))
  {
    var v, c := TwoLevels(Upper(a, z), Lower(a, z)), C(a, z);
    assert v.files[1] == Upper(a, z) && v.files[2] == Lower(a, z);
    forall lo, hi | IsSmallestKey(c.inputs0, lo) && IsLargestKey(c.inputs0, hi)
      ensures c.inputs1 == OverlappingFiles(v.files[2], Some(lo.user), Some(hi.user))
    {
      assert c.inputs0[0] == One(4, a, 3) && c.inputs0[1] == One(5, z, 4);
      assert lo.user == a && hi.user == z;
      assert v.files[2][1..] == [One(3, z, 2)];
      assert OverlappingFiles([One(3, z, 2)], Some(a), Some(z)) == [One(3, z, 2)];
    }
  }

  function GapRunning(a: UserKey, z: UserKey): Running {
    Running(C(a, z), TwoLevels(Upper(a, z), Lower(a, z)), 4)
  }

  /** The compaction of [a, z] under way, and m waiting to be flushed. */
  function GapDb(a: UserKey, m: UserKey, z: UserKey): Db {
    Db([], Some([V(m, 5)]), TwoLevels(Upper(a, z), Lower(a, z)), 6, [], Some(GapRunning(a, z)), Ops(a, m, z), 0)
  }

  lemma GapIsReachable(a: UserKey, m: UserKey, z: UserKey)
    requires a < m < z
    ensures Reachable(GapDb(a, m, z))
  {
    hide Reachable, TwoLevels, Selected, Upper, Lower;
    var v, ops := TwoLevels(Upper(a, z), Lower(a, z)), [PutV(a), PutV(z), PutV(a), PutV(z)];
    BothStored(a, z);
    GapIsSelected(a, z);
    var d0 := Quiet(v, 6, [], ops, 0);
    Started(d0, C(a, z), 4);
    var d1 := d0.(running := Some(GapRunning(a, z)));
    assert ops + [PutV(m)] == Ops(a, m, z);
    assert AddToMem([], V(m, 5)) == [V(m, 5)];
    var d2 := d1.(ops := Ops(a, m, z), mem := [V(m, 5)]);
    Put(d1, PutV(m), d2);
    Switched(d2);
    assert Switch(d2) == GapDb(a, m, z);
  }

  // ---- the flush goes between the inputs, and the compaction is installed ----

  function Flushed(m: UserKey): File { One(6, m, 5) }

  function Output(a: UserKey, z: UserKey): File
    requires a < z
  {
    FileMeta(7, 1, [V(a, 3), V(z, 4)])
  }

  function Between(a: UserKey, m: UserKey, z: UserKey): seq<File> { [One(2, a, 1), Flushed(m), One(3, z, 2)] }

  lemma GapInputs(a: UserKey, z: UserKey, e: Entry)
    ensures InInputs(C(a, z), e) <==> e == V(a, 3) || e == V(z, 4) || e == V(a, 1) || e == V(z, 2)
  {
    var c := C(a, z);
    assert c.inputs0[0] in c.inputs0 && c.inputs0[1] in c.inputs0 && c.inputs1[0] in c.inputs1
        && c.inputs1[1] in c.inputs1;
  }

  lemma GapSurvivors(a: UserKey, z: UserKey, e: Entry)
    requires a < z
    ensures Survivor(GapRunning(a, z), e) <==> e == V(a, 3) || e == V(z, 4)
  {
    hide BaseLevel;
    var r := GapRunning(a, z);
    GapInputs(a, z, e);
    GapInputs(a, z, V(a, 3));
    GapInputs(a, z, V(z, 4));
    forall p | InInputs(r.c, p) ensures p.key.sqn <= (if p.key.user == a then 3 else 4) {
      GapInputs(a, z, p);
    }
  }

  lemma GapOutputs(a: UserKey, z: UserKey)
    requires a < z
    ensures OutputsOf(GapRunning(a, z), [Output(a, z)])
  {
    hide Survivor;
    forall e ensures InFiles([Output(a, z)], e) <==> Survivor(GapRunning(a, z), e) {
      GapSurvivors(a, z, e);
      assert [Output(a, z)][0] in [Output(a, z)];
    }
  }

  lemma GapIsStraddled(a: UserKey, m: UserKey, z: UserKey)
    requires a < m < z
    ensures CanFlush(GapDb(a, m, z), 2, Flushed(m)) && !FlushApart(GapDb(a, m, z), 2, Flushed(m))
  {
    hide TwoLevels, Survivor, MaySkipTo;
    ApartFiles(Upper(a, z), Lower(a, z), Flushed(m));
    GapSurvivors(a, z, V(a, 3));
    GapSurvivors(a, z, V(z, 4));
  }

  lemma SortedBetween(a: UserKey, m: UserKey, z: UserKey)
    requires a < m < z
    ensures FilesSorted(Between(a, m, z)) && FilesSorted([Output(a, z), Flushed(m)])
  {
  }

  lemma GapFlushed(a: UserKey, m: UserKey, z: UserKey)
    requires a < m < z
    ensures Flush(GapDb(a, m, z), 2, Flushed(m)).current == TwoLevels(Upper(a, z), Between(a, m, z))
    ensures VersionOk(TwoLevels(Upper(a, z), Between(a, m, z)), 7)
  {
    hide Reachable, TwoLevels, FilesSorted, WithFile, ApplyEdit, VersionOk, Ordered, AllFromHistory, RunningOk,
        Complete, MaySkipTo;
    var db := GapDb(a, m, z);
    GapIsReachable(a, m, z);
    ReachableIsValid(db);
    SmallLevels(Upper(a, z)[0], Upper(a, z)[1]);
    SortedBetween(a, m, z);
    TwoLevelsWithFile(Upper(a, z), Lower(a, z), 2, Flushed(m), Upper(a, z), Between(a, m, z));
    FlushGives(db, 2, Flushed(m), TwoLevels(Upper(a, z), Between(a, m, z)));
    GapIsStraddled(a, m, z);
    SkipLevel(db.current, 2, Flushed(m));
    FlushKeepsVersionOk(db.current, 2, Flushed(m), 6);
  }

  lemma GapInstalled(a: UserKey, m: UserKey, z: UserKey)
    requires a < m < z
    ensures CanInstall(Flush(GapDb(a, m, z), 2, Flushed(m)), [Output(a, z)], 8)
    ensures ApplyEdit(TwoLevels(Upper(a, z), Between(a, m, z)), CompactionEdit(C(a, z), [Output(a, z)]))
        == TwoLevels([], [Output(a, z), Flushed(m)])
  {
    hide TwoLevels, FilesSorted, WithReplaced, ApplyEdit, VersionOk, OutputsOf, LevelSorted, FreshOutputs,
        DistinctNumbers;
    var u, l, o, f := Upper(a, z), Between(a, m, z), Output(a, z), Flushed(m);
    GapFlushed(a, m, z);
    GapOutputs(a, z);
    SmallLevels(o, o);
    OneNumber(o);
    Fresh(u, l, Lower(a, z), [o], 8);
    SortedBetween(a, m, z);
    Replaced(u, l, Lower(a, z), [o], [o, f]);
    assert InputsPresent(TwoLevels(u, l), C(a, z)) by { GapInputsPresent(a, m, z); }
    InstallGives(TwoLevels(u, l), C(a, z), [o], 7, 8, TwoLevels([], [o, f]));
  }

  lemma GapInputsPresent(a: UserKey, m: UserKey, z: UserKey)
    ensures InputsPresent(TwoLevels(Upper(a, z), Between(a, m, z)), C(a, z))
  {
    var v := TwoLevels(Upper(a, z), Between(a, m, z));
    assert v.files[1] == Upper(a, z) && v.files[2] == Between(a, m, z);
    assert v.files[2][0] == One(2, a, 1) && v.files[2][2] == One(3, z, 2);
  }

  // ---- what a reader of m sees ----

  lemma NothingAt(v: Version, level: nat, user: UserKey, s: SequenceNumber)
    requires level < NUM_LEVELS && v.files[level] == []
    ensures GetFrom(v, level, user, s) == GetFrom(v, level + 1, user, s)
  {
    assert CandidatesAt(v, level, user, s) == [];
  }

  /** The search meets the output file, which covers m, and looks no further. */
  lemma OverlappedIsNotFound(a: UserKey, m: UserKey, z: UserKey)
    requires a < m < z
    ensures GetFrom(TwoLevels([], [Output(a, z), Flushed(m)]), 0, m, 5) == NotFound
  {
    hide GetFrom;
    var v := TwoLevels([], [Output(a, z), Flushed(m)]);
    assert forall l :: 0 <= l < NUM_LEVELS && l != 2 ==> v.files[l] == [];
    NothingAt(v, 0, m, 5);
    NothingAt(v, 1, m, 5);
    NothingFoundInLevel2(a, m, z);
    NothingAt(v, 3, m, 5);
    NothingAt(v, 4, m, 5);
    NothingAt(v, 5, m, 5);
    NothingAt(v, 6, m, 5);
    assert GetFrom(v, 7, m, 5) == NotFound by { EndOfLevels(v, m); }
  }

  lemma EndOfLevels(v: Version, m: UserKey)
    ensures GetFrom(v, 7, m, 5) == NotFound
  {
  }

  lemma FileFound(a: UserKey, m: UserKey, z: UserKey)
    requires a < m < z
    ensures DeepCandidates([Output(a, z), Flushed(m)], m, 5) == [Output(a, z)]
  {
    var files, key := [Output(a, z), Flushed(m)], LookupKey(m, 5);
    CompareIsLexicographic(Largest(files[1]), key);
    CompareIsLexicographic(Largest(files[0]), key);
    assert SearchFile(files, key, 0, 0) == 0;
    assert SearchFile(files, key, 0, 1) == 0;
    assert SearchFile(files, key, 0, 2) == 0;
  }

  lemma NothingFoundInLevel2(a: UserKey, m: UserKey, z: UserKey)
    requires a < m < z
    ensures var v := TwoLevels([], [Output(a, z), Flushed(m)]); GetFrom(v, 2, m, 5) == GetFrom(v, 3, m, 5)
  {
    hide DeepCandidates, SeekIndex;
    var v, es := TwoLevels([], [Output(a, z), Flushed(m)]), Output(a, z).entries;
    FileFound(a, m, z);
    assert v.files[2] == [Output(a, z), Flushed(m)];
    assert CandidatesAt(v, 2, m, 5) == [Output(a, z)];
    var i := SeekIndex(es, LookupKey(m, 5));
    assert HitIn(es, m, 5) == None;
    assert [Output(a, z)][1..] == [];
    assert FirstHit([], m, 5) == None;
    assert FirstHit([Output(a, z)], m, 5) == None;
  }

  /** A new database can come to a state in which the memtable that holds only m
      is stored between the inputs of a manual compaction of [a, z]; when that
      compaction is installed, m is not found. */
  lemma FlushedKeyIsNotFound(a: UserKey, m: UserKey, z: UserKey)
    requires a < m < z
    ensures Reachable(GapDb(a, m, z))
    ensures CanFlush(GapDb(a, m, z), 2, Flushed(m)) && !FlushApart(GapDb(a, m, z), 2, Flushed(m))
    ensures var n := Flush(GapDb(a, m, z), 2, Flushed(m));
      CanInstall(n, [Output(a, z)], 8) && DbGet(Install(n, [Output(a, z)], 8), m, 5) == NotFound
    ensures ReadAt(Ops(a, m, z), 5, m) == Found("v")
  {
    hide Reachable, CanFlush, FlushApart, CanInstall, ApplyEdit, TwoLevels, Upper, Lower, GetFrom;
    GapIsReachable(a, m, z);
    GapIsStraddled(a, m, z);
    GapFlushed(a, m, z);
    GapInstalled(a, m, z);
    OverlappedIsNotFound(a, m, z);
    assert LastWrite(Ops(a, m, z), m, 5) == 5;
    LastWriteDecides(Ops(a, m, z), m, 5);
  }
}
