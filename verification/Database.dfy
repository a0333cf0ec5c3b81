/** class DBImpl: the operations as they run, against the steps of LsmSteps and
    LsmCompaction. */
module Database {
  import opened InternalKeys
  import opened Versions
  import opened InputSelection
  import opened InputGrowth
  import opened CompactionSetup
  import opened CompactionWork
  import opened VersionEdits
  import opened ManifestReplay
  import opened History
  import opened LsmState
  import opened LsmVersions
  import opened LsmOrder
  import opened LsmSteps
  import opened LsmCompaction
  import opened CompactionFiles
  import opened LsmRuns
  import opened LostDeletion

  const MAX_MEM_COMPACT_LEVEL := 2

  ghost predicate Meets(files: seq<File>, smallest: UserKey, largest: UserKey) {
    exists f :: f in files && Overlaps(f, Some(smallest), Some(largest))
  }

  /** A file of this range that may be stored in `level` may go to the next one:
      nothing there overlaps it, and not too much below that. */
  ghost predicate MayGoDown(v: Version, level: nat, smallest: UserKey, largest: UserKey, maxGrandParentOverlap: nat)
    requires level + 1 < NUM_LEVELS
  {
    && !Meets(v.files[level + 1], smallest, largest)
    && (level + 2 < NUM_LEVELS ==>
          TotalFileSize(OverlappingFiles(v.files[level + 2], Some(smallest), Some(largest))) <= maxGrandParentOverlap)
  }

  /** As far down as it may go, from level 0 on. */
  ghost predicate IsChosenLevel(v: Version, smallest: UserKey, largest: UserKey, maxGrandParentOverlap: nat,
      level: nat)
  {
    && level <= 2
    && (level > 0 ==> !Meets(v.files[0], smallest, largest))
    && (forall l :: 0 <= l < level ==> MayGoDown(v, l, smallest, largest, maxGrandParentOverlap))
    && (level < 2 ==>
          Meets(v.files[0], smallest, largest) || !MayGoDown(v, level, smallest, largest, maxGrandParentOverlap))
  }

  /** Version::PickLevelForMemTableOutput. */
  method PickLevelForMemTableOutput(v: Version, smallest: UserKey, largest: UserKey, maxGrandParentOverlap: nat)
      returns (level: nat)
    requires WellShaped(v)
    ensures IsChosenLevel(v, smallest, largest, maxGrandParentOverlap, level)
    ensures level > 0 ==> forall l, f ::
        0 <= l <= level && f in v.files[l] ==> !Overlaps(f, Some(smallest), Some(largest))
  {
    level := 0;
    var overlap := SomeFileOverlapsRange(false, v.files[0], Some(smallest), Some(largest));
    if !overlap {
      while level < MAX_MEM_COMPACT_LEVEL
        invariant level <= MAX_MEM_COMPACT_LEVEL && !Meets(v.files[0], smallest, largest)
        invariant forall l :: 0 <= l < level ==> MayGoDown(v, l, smallest, largest, maxGrandParentOverlap)
        invariant forall l, f :: 0 <= l <= level && f in v.files[l] ==> !Overlaps(f, Some(smallest), Some(largest))
      {
        overlap := SomeFileOverlapsRange(true, v.files[level + 1], Some(smallest), Some(largest));
        if overlap {
          break;
        }
        if level + 2 < NUM_LEVELS {
          var overlaps, _, _ := GetOverlappingInputs(v.files[level + 2], level + 2, Some(smallest), Some(largest));
          if TotalFileSize(overlaps) > maxGrandParentOverlap {
            break;
          }
        }
        level := level + 1;
      }
    }
  }

  lemma ChosenLevelIsClear(v: Version, level: nat, f: File)
    requires level <= MAX_MEM_COMPACT_LEVEL
    requires level > 0 ==>
      forall l, g :: 0 <= l <= level && g in v.files[l] ==> !Overlaps(g, Some(Smallest(f).user), Some(Largest(f).user))
    ensures MaySkipTo(v, level, f)
  {
    if level > 0 {
      forall l | 0 <= l <= level ensures ClearOf(v.files[l], f) {
      }
    }
  }

  lemma InputKeysDiffer(db: Db)
    requires Shape(db) && db.running.Some?
    ensures var c := db.running.value.c; NoSharedKeys(c.inputs0 + c.inputs1)
  {
    hide VersionOk, NewestFirst, InVersion, LevelSorted, Replaceable, DeepEnough, FromHistory;
    var c := db.running.value.c;
    var all := c.inputs0 + c.inputs1;
    InputsOfRunning(db);
    DistinctInHistory(db);
    SortedHasNoDuplicates(c.inputs1);
    forall i, j | 0 <= i < j < |all| ensures DifferentKeys(all[i].entries, all[j].entries) {
      if j < |c.inputs0| {
        SameLevelKeysDiffer(db.current, db.nextFileNumber, c.level, all[i], all[j]);
      } else if i >= |c.inputs0| {
        assert all[i] == c.inputs1[i - |c.inputs0|] && all[j] == c.inputs1[j - |c.inputs0|];
        assert all[i] in c.inputs1 && all[j] in c.inputs1;
        SameLevelKeysDiffer(db.current, db.nextFileNumber, c.level + 1, all[i], all[j]);
      } else {
        assert all[j] == c.inputs1[j - |c.inputs0|];
        assert all[j] in c.inputs1;
        CrossLevelKeysDiffer(db.current, c.level, all[i], all[j]);
      }
    }
  }

  lemma SameLevelKeysDiffer(v: Version, next: nat, level: nat, a: File, b: File)
    requires VersionOk(v, next) && NewestFirst(v) && DistinctVersions(v)
    requires level < NUM_LEVELS && a in v.files[level] && b in v.files[level] && a != b
    ensures DifferentKeys(a.entries, b.entries)
  {
    hide VersionOk, NewestFirst, DistinctVersions;
    forall e, f | e in a.entries && f in b.entries ensures e.key != f.key {
      if e.key.user == f.key.user {
        NoEntryTwice(v, next, level, a, b, e, f);
      }
    }
  }

  lemma CrossLevelKeysDiffer(v: Version, level: nat, a: File, b: File)
    requires NewestFirst(v) && level + 1 < NUM_LEVELS && a in v.files[level] && b in v.files[level + 1]
    ensures DifferentKeys(a.entries, b.entries)
  {
    forall e, f | e in a.entries && f in b.entries ensures e.key != f.key {
      FilePlace(v, level, a, e);
      FilePlace(v, level + 1, b, f);
      assert Newer(PlaceOf(level, a), PlaceOf(level + 1, b));
    }
  }

  lemma MergedInputs(db: Db)
    requires Shape(db) && db.running.Some?
    ensures var r := db.running.value; var input := MergeAll(r.c.inputs0 + r.c.inputs1);
      OneVersionEach(input) && forall e :: e in input <==> InInputs(r.c, e)
  {
    hide VersionOk, NewestFirst, InVersion, LevelSorted, Replaceable, DeepEnough, FromHistory, MergeAll, NoSharedKeys;
    var c := db.running.value.c;
    var input := MergeAll(c.inputs0 + c.inputs1);
    InputKeysDiffer(db);
    MergeAllSorted(c.inputs0 + c.inputs1);
    InputsOfRunning(db);
    forall e ensures e in input <==> InInputs(c, e) {
      assert forall f :: f in c.inputs0 + c.inputs1 <==> f in c.inputs0 || f in c.inputs1;
    }
    forall i, j | 0 <= i < j < |input|
      ensures input[i].key.user < input[j].key.user
          || (input[i].key.user == input[j].key.user && input[i].key.sqn > input[j].key.sqn)
    {
      assert input[i] in input && input[j] in input;
      InputIsStored(db.current, c, input[i]);
      InputIsStored(db.current, c, input[j]);
      assert Holds(db, input[i]) && Holds(db, input[j]);
      if input[i].key.sqn == input[j].key.sqn {
        SameNumberSameEntry(db.ops, input[i], input[j]);
      }
    }
  }

  lemma SurvivorsAreOutputs(r: Running, input: seq<Entry>, outputs: seq<File>, kept: seq<Entry>,
      smallestSnapshot: SequenceNumber)
    requires smallestSnapshot == r.smallestSnapshot
    requires forall e :: e in input <==> InInputs(r.c, e)
    requires forall e :: e in kept <==> Survives(r.base, r.c.level, input, smallestSnapshot, e)
    requires forall e :: InFiles(outputs, e) <==> e in kept
    ensures OutputsOf(r, outputs)
  {
    hide BaseLevel, InFiles;
    forall e ensures Hidden(input, e, smallestSnapshot) <==> Superseded(r.c, e, r.smallestSnapshot) {
      if Superseded(r.c, e, r.smallestSnapshot) {
        var p :| InInputs(r.c, p) && p.key.user == e.key.user && e.key.sqn < p.key.sqn <= r.smallestSnapshot;
        assert p in input;
      }
    }
  }

  lemma NewNumbersAreFresh(db: Db, outputs: seq<File>)
    requires Shape(db) && db.running.Some?
    requires forall i :: 0 <= i < |outputs| ==> outputs[i].number == db.nextFileNumber + i
    ensures FreshOutputs(db.current, db.running.value.c, outputs, db.nextFileNumber + |outputs|)
  {
    hide Ordered, AllFromHistory, SnapshotsOk, RunningOk, WellShaped, FilesSorted;
  }

  // ---- Get ----

  lemma MemHitIsNewest(db: Db, user: UserKey, s: SequenceNumber, hit: Entry)
    requires Ordered(db) && hit in db.mem && Visible(hit, user, s)
    requires forall e :: e in db.mem && Visible(e, user, s) ==> e.key.sqn <= hit.key.sqn
    ensures NewestHeld(db, user, s, hit)
  {
    hide InVersion, NewestFirst;
    forall f | Holds(db, f) && Visible(f, user, s) ensures f.key.sqn <= hit.key.sqn {
      assert hit in Mem(db);
      assert f !in db.mem ==> f in Imm(db) || f in Stored(db.current);
    }
  }

  lemma ImmHitIsNewest(db: Db, user: UserKey, s: SequenceNumber, hit: Entry)
    requires Ordered(db) && InImm(db, hit) && Visible(hit, user, s)
    requires forall e :: e in db.mem ==> !Visible(e, user, s)
    requires forall e :: InImm(db, e) && Visible(e, user, s) ==> e.key.sqn <= hit.key.sqn
    ensures NewestHeld(db, user, s, hit)
  {
    hide InVersion, NewestFirst;
    forall f | Holds(db, f) && Visible(f, user, s) ensures f.key.sqn <= hit.key.sqn {
      assert hit in Imm(db);
      assert InVersion(db.current, f) ==> f in Stored(db.current);
    }
  }

  /** The memtable's hit, if there is one, is the newest version held. */
  lemma MemAnswers(db: Db, user: UserKey, s: SequenceNumber)
    requires Shape(db)
    ensures var hit := HitIn(db.mem, user, s);
      if hit.Some? then NewestHeld(db, user, s, hit.value) else forall e :: e in db.mem ==> !Visible(e, user, s)
  {
    hide VersionOk, NewestFirst, RunningOk, AllFromHistory, NewestHeld, InVersion, SeekIndex;
    SeekFindsNewest(db.mem, user, s);
    var hit := HitIn(db.mem, user, s);
    if hit.Some? { MemHitIsNewest(db, user, s, hit.value); }
  }

  lemma ImmAnswers(db: Db, user: UserKey, s: SequenceNumber)
    requires Shape(db) && db.imm.Some? && forall e :: e in db.mem ==> !Visible(e, user, s)
    ensures var hit := HitIn(db.imm.value, user, s);
      if hit.Some? then NewestHeld(db, user, s, hit.value) else forall e :: InImm(db, e) ==> !Visible(e, user, s)
  {
    hide VersionOk, NewestFirst, RunningOk, AllFromHistory, NewestHeld, InVersion, SeekIndex;
    SeekFindsNewest(db.imm.value, user, s);
    var hit := HitIn(db.imm.value, user, s);
    if hit.Some? { ImmHitIsNewest(db, user, s, hit.value); }
  }

  lemma NoImm(db: Db)
    ensures db.imm.None? ==> forall e :: !InImm(db, e)
  {
  }

  lemma CurrentIsSearchable(db: Db)
    requires Shape(db)
    ensures Searchable(db.current) && |db.ops| <= MAX_SEQUENCE_NUMBER && AllFromHistory(db)
  {
    hide NewestFirst, AllFromHistory, RunningOk;
    DistinctInHistory(db);
  }

  lemma VersionDecides(db: Db, user: UserKey, s: SequenceNumber, r: GetResult)
    requires forall e :: e in db.mem || InImm(db, e) ==> !Visible(e, user, s)
    requires forall e :: NewestIn(db.current, user, s, e) ==> r == Answer(e)
    requires NoneVisibleIn(db.current, user, s) ==> r == NotFound
    requires |db.ops| <= MAX_SEQUENCE_NUMBER && AllFromHistory(db)
    ensures Reads(db, user, s, r)
  {
    hide InVersion, FromHistory;
    if NoneVisibleIn(db.current, user, s) {
      assert NoneHeld(db, user, s);
    } else {
      NewestExists(db, user, s, s);
      var e :| NewestHeld(db, user, s, e);
      assert NewestIn(db.current, user, s, e);
    }
  }

  lemma BeginHoldsSame(db: Db, c: Compaction)
    requires Shape(db)
    ensures SnapshotsOk(db)
    ensures forall e :: Holds(db, e) <==> Holds(Begin(db, c), e)
  {
  }

  lemma NewestEntry(ops: seq<Op>, op: Op)
    requires |ops| + 1 <= MAX_SEQUENCE_NUMBER
    ensures EntryOf(ops + [op], |ops| + 1) == Entry(InternalKey(op.user, |ops| + 1, op.kind), op.value)
  {
  }

  /** Compaction::IsTrivialMove: one file, nothing to merge it with, and not too
      much below where it goes. */
  predicate IsTrivialMove(c: Compaction, maxGrandParentOverlap: nat) {
    |c.inputs0| == 1 && |c.inputs1| == 0 && TotalFileSize(c.grandparents) <= maxGrandParentOverlap
  }

  class DBImpl {
    var mem: seq<Entry>
    var imm: Option<seq<Entry>>
    var current: Version
    var nextFileNumber: nat
    var lastSequence: nat
    var snapshots: seq<nat>
    var running: Option<Running>

    ghost var ops: seq<Op>
    ghost var floor: nat

    ghost function State(): Db
      reads this
    {
      Db(mem, imm, current, nextFileNumber, snapshots, running, ops, floor)
    }

    ghost predicate Valid()
      reads this
    {
      Shape(State()) && lastSequence == |ops|
    }

    /** Every read that may still be asked for is answered from the history. */
    ghost predicate Faithful()
      reads this
    {
      |ops| <= MAX_SEQUENCE_NUMBER && ReadsRight(State())
    }

    constructor ()
      ensures Valid() && State() == EMPTY && Faithful()
    {
      hide Shape, Complete, ReadsRight;
      mem, imm, current, nextFileNumber := [], None, VersionRep([[], [], [], [], [], [], []]), 2;
      lastSequence, snapshots, running, ops, floor := 0, [], None, [], 0;
      new;
      EmptyIsValid();
      CompleteReadsRight(EMPTY);
    }

    /** DBImpl::Write for the batch of one group: consecutive sequence numbers,
        published together at the end. */
    method Write(batch: seq<Op>)
      requires Valid() && |ops| + |batch| < MAX_SEQUENCE_NUMBER
      modifies this`mem, this`lastSequence, this`ops
      ensures Valid() && ops == old(ops) + batch
      ensures old(Faithful()) ==> Faithful()
    {
      hide Shape, ReadsRight;
      var sequence := lastSequence;
      for i := 0 to |batch|
        invariant Shape(State()) && ops == old(ops) + batch[..i] && sequence == |ops|
        invariant old(Faithful()) ==> Faithful()
      {
        Insert(batch[i], sequence + 1);
        sequence := sequence + 1;
        assert batch[..i + 1] == batch[..i] + [batch[i]];
      }
      lastSequence := sequence;
      assert batch[..|batch|] == batch;
    }

    /** MemTableInserter: one operation of a batch. */
    method Insert(op: Op, sequence: nat)
      requires Shape(State()) && sequence == |ops| + 1 < MAX_SEQUENCE_NUMBER
      modifies this`mem, this`ops
      ensures Shape(State()) && State() == LsmSteps.Write(old(State()), op)
      ensures old(Faithful()) ==> Faithful()
    {
      ghost var before := State();
      WriteKeepsShape(before, op);
      if Faithful() { WriteKeepsReads(before, op); }
      NewestEntry(ops, op);
      hide Shape, ReadsRight, AddToMem, EntryOf;
      mem := AddToMem(mem, Entry(InternalKey(op.user, sequence, op.kind), op.value));
      ops := ops + [op];
      assert State() == LsmSteps.Write(before, op);
    }

    /** The last branch of MakeRoomForWrite. */
    method SwitchMemTable()
      requires Valid() && imm.None?
      modifies this`mem, this`imm
      ensures Valid() && State() == Switch(old(State()))
      ensures old(Faithful()) ==> Faithful()
    {
      hide Shape, ReadsRight;
      ghost var before := State();
      SwitchKeepsShape(before);
      KeepsReads(before, Action.SwitchMemTable);
      imm := Some(mem);
      mem := [];
      assert State() == Switch(before);
    }

    method GetSnapshot() returns (snapshot: nat)
      requires Valid()
      modifies this`snapshots
      ensures Valid() && State() == TakeSnapshot(old(State())) && snapshot == |ops|
      ensures old(Faithful()) ==> Faithful()
    {
      hide Shape, ReadsRight;
      ghost var before := State();
      SnapshotsKeepShape(before);
      KeepsReads(before, NewSnapshot);
      snapshot := lastSequence;
      snapshots := snapshots + [snapshot];
      assert State() == TakeSnapshot(before);
    }

    method ReleaseSnapshot(i: nat)
      requires Valid() && i < |snapshots|
      modifies this`snapshots
      ensures Valid() && State() == LsmSteps.ReleaseSnapshot(old(State()), i)
      ensures old(Faithful()) ==> Faithful()
    {
      hide Shape, ReadsRight;
      ghost var before := State();
      SnapshotsKeepShape(before);
      KeepsReads(before, DropSnapshot(i));
      snapshots := snapshots[..i] + snapshots[i + 1..];
      assert State() == LsmSteps.ReleaseSnapshot(before, i);
    }

    /** If the flush may choose the output level of the compaction in progress,
        that compaction must not keep entries on both sides of the new file. */
    ghost predicate FlushIsApart()
      reads this
    {
      running.Some? ==>
        forall f: File :: imm == Some(f.entries) && MaySkipTo(current, running.value.c.level + 1, f)
            ==> !Straddled(running.value, f)
    }

    /** Compactions that PickCompaction chose have no gap in their inputs, so
        flushing in the middle of one is always safe. */
    lemma AutomaticCompactionsAllowFlush()
      requires Valid() && running.Some? && Connected(running.value.c.inputs0 + running.value.c.inputs1)
      ensures FlushIsApart()
    {
      hide Connected, MaySkipTo, Straddled;
      InputsOfRunning(State());
      forall f: File | imm == Some(f.entries) && MaySkipTo(current, running.value.c.level + 1, f)
        ensures !Straddled(running.value, f)
      {
        ConnectedInputsKeepFlushApart(current, f, running.value);
      }
    }

    /** DBImpl::CompactMemTable and WriteLevel0Table. */
    method CompactMemTable(fileSize: seq<Entry> -> nat, maxGrandParentOverlap: nat)
      requires Valid() && imm.Some? && FlushIsApart()
      modifies this`imm, this`current, this`nextFileNumber
      ensures Valid() && imm == None
      ensures if old(imm.value) == [] then State() == FlushNothing(old(State()))
          else exists level, f: File ::
            && f.entries == old(imm.value) && f.number == old(nextFileNumber) && f.size == fileSize(f.entries)
            && IsChosenLevel(old(current), Smallest(f).user, Largest(f).user, maxGrandParentOverlap, level)
            && State() == Flush(old(State()), level, f)
      ensures forall e :: Holds(State(), e) <==> old(Holds(State(), e))
      ensures old(Faithful()) ==> Faithful()
    {
      hide Shape, ReadsRight, Holds, ApplyEdit, MaySkipTo, Straddled, IsChosenLevel;
      ghost var before := State();
      assert Sorted(imm.value) && WellShaped(current) by { FlushableParts(before); }
      if imm.value == [] {
        FlushNothingKeepsShape(before);
        KeepsReads(before, FlushEmpty);
        imm := None;
        assert State() == FlushNothing(before);
        EmptyImmHoldsSame(before, State());
      } else {
        var f: File := FileMeta(nextFileNumber, fileSize(imm.value), imm.value);
        var level := PickLevelForMemTableOutput(current, Smallest(f).user, Largest(f).user, maxGrandParentOverlap);
        ChosenLevelIsClear(current, level, f);
        FlushKeepsShape(before, level, f);
        KeepsReads(before, FlushTo(level, f));
        current := LogAndApply(current, FlushEdit(level, f));
        nextFileNumber := f.number + 1;
        imm := None;
        assert State() == Flush(before, level, f);
      }
    }

    lemma FlushableParts(db: Db)
      requires Shape(db) && db.imm.Some?
      ensures Sorted(db.imm.value) && WellShaped(db.current)
    {
    }

    lemma EmptyImmHoldsSame(a: Db, b: Db)
      requires a.mem == b.mem && a.imm == Some([]) && b.imm.None? && a.current == b.current
      ensures forall e :: Holds(a, e) <==> Holds(b, e)
    {
    }

    /** BackgroundCompaction: a trivial move is done at once, anything else is
        started. */
    method BackgroundCompaction(c: Compaction, isManual: bool, maxGrandParentOverlap: nat)
      requires Valid() && running.None? && Selected(current, c)
      modifies this`current, this`running
      ensures Valid()
      ensures State() == if !isManual && IsTrivialMove(c, maxGrandParentOverlap) then Move(old(State()), c)
          else Begin(old(State()), c)
      ensures var overlap := TotalFileSize(c.grandparents);
        running.None? <==> !isManual && |c.inputs0| == 1 && c.inputs1 == [] && overlap <= maxGrandParentOverlap
      ensures forall e :: Holds(State(), e) <==> old(Holds(State(), e))
      ensures old(Faithful()) ==> Faithful()
    {
      hide Shape, ReadsRight, Holds, Selected, ApplyEdit;
      ghost var before := State();
      HistoryFits(before);
      if !isManual && IsTrivialMove(c, maxGrandParentOverlap) {
        MoveKeepsShape(before, c);
        KeepsReads(before, MoveFile(c));
        current := LogAndApply(current, CompactionEdit(c, c.inputs0));
        assert State() == Move(before, c);
      } else {
        BeginKeepsShape(before, c);
        BeginHoldsSame(before, c);
        KeepsReads(before, BeginCompaction(c));
        var smallestSnapshot := if snapshots == [] then lastSequence else snapshots[0];
        running := Some(Running(c, current, smallestSnapshot));
        assert State() == Begin(before, c);
      }
    }

    /** What DoCompactionWork makes of the running compaction: the merged inputs
        less what is dropped, cut where an output is full or has met too much
        of the grandparents. */
    ghost predicate AreOutputs(db: Db, outputs: seq<File>, maxOverlap: nat, full: seq<Entry> -> bool) {
      db.running.Some? && exists at, stops, froms ::
        var r := db.running.value;
        var input := MergeAll(r.c.inputs0 + r.c.inputs1);
        && |stops| == |input| && StopsAt(input, r.c.grandparents, maxOverlap, stops, froms)
        && CutWell(EntriesOf(outputs), at, input, full, stops)
    }

    /** The rest of DoCompactionWork: drop what is obsolete, cut the survivors
        into files. */
    method BuildOutputs(maxOverlap: nat, full: seq<Entry> -> bool, fileSize: seq<Entry> -> nat)
      returns (outputs: seq<File>, next: nat)
      requires Valid() && running.Some?
      ensures CanInstall(State(), outputs, next) && next == nextFileNumber + |outputs|
      ensures AreOutputs(State(), outputs, maxOverlap, full)
    {
      hide VersionOk, Ordered, AllFromHistory, SnapshotsOk, Replaceable, DeepEnough, LevelSorted, NoDuplicates,
          InInputs, InFiles, Survives, OneVersionEach, OutputsOf, StopsAt, CutWell;
      ghost var db := State();
      var r := running.value;
      RunningBounds(db);
      MergedInputs(db);
      HistoryFits(db);
      var input := MergeAll(r.c.inputs0 + r.c.inputs1);
      var survivors;
      ghost var at, stops, froms;
      survivors, at, stops, froms := DropObsolete(r.base, r.c.level, input, r.smallestSnapshot, r.c.grandparents,
          maxOverlap, full);
      outputs := MakeOutputFiles(survivors, nextFileNumber, fileSize);
      next := nextFileNumber + |outputs|;
      SurvivorsAreOutputs(r, input, outputs, Flatten(survivors), r.smallestSnapshot);
      NewNumbersAreFresh(db, outputs);
      assert EntriesOf(outputs) == survivors;
    }

    /** InstallCompactionResults. */
    method FinishCompaction(maxOverlap: nat, full: seq<Entry> -> bool, fileSize: seq<Entry> -> nat)
      requires Valid() && running.Some?
      modifies this`current, this`running, this`nextFileNumber, this`floor
      ensures Valid() && running == None
      ensures exists outputs, next ::
          && CanInstall(old(State()), outputs, next) && AreOutputs(old(State()), outputs, maxOverlap, full)
          && State() == Install(old(State()), outputs, next)
      ensures floor == old(running.value.smallestSnapshot)
      ensures old(Faithful()) ==> (Faithful() <==> old(NothingComesBack()))
    {
      hide Shape, ReadsRight, NoneResurrects, CanInstall, AreOutputs;
      ghost var before := State();
      var r := running.value;
      var outputs, next := BuildOutputs(maxOverlap, full, fileSize);
      InstallKeepsShape(before, outputs, next);
      RunningIsBounded(before);
      if Faithful() { InstallKeepsReadsExactly(before, outputs, next); }
      current := LogAndApply(current, CompactionEdit(r.c, outputs));
      nextFileNumber, running, floor := next, None, r.smallestSnapshot;
      assert State() == Install(before, outputs, next);
    }

    /** The running compaction will not let a deleted value come back. */
    ghost predicate NothingComesBack()
      requires Valid() && running.Some?
      reads this
    {
      RunningIsBounded(State());
      NoneResurrects(State())
    }

    /** It is enough that its lower inputs are closed on the right. */
    lemma ClosedInputsAreEnough()
      requires Valid() && running.Some? && LowerClosed(State(), InstallOutputs([], 0))
      ensures NothingComesBack()
    {
      hide Shape, NoneResurrects, LowerInputsClosed;
      ClosedLosesNothing(State(), InstallOutputs([], 0));
    }

    /** DBImpl::Get: memtable, immutable memtable, then the version. */
    method Get(user: UserKey, snapshot: SequenceNumber) returns (r: GetResult)
      requires Valid()
      ensures Reads(State(), user, snapshot, r) && r == DbGet(State(), user, snapshot)
      ensures Faithful() && floor <= snapshot <= |ops| ==> r == ReadAt(ops, snapshot, user)
    {
      ghost var db := State();
      r := GetStored(user, snapshot);
      if Faithful() && floor <= snapshot <= |ops| {
        assert Reads(db, user, snapshot, ReadAt(ops, snapshot, user));
        ReadsIsFunctional(db, user, snapshot, r, ReadAt(ops, snapshot, user));
      }
    }

    method GetStored(user: UserKey, snapshot: SequenceNumber) returns (r: GetResult)
      requires Valid()
      ensures Reads(State(), user, snapshot, r) && r == DbGet(State(), user, snapshot)
    {
      hide Shape, SeekIndex, NewestHeld, Visible, GetFrom, Searchable, AllFromHistory, InImm;
      ghost var db := State();
      var ikey := LookupKey(user, snapshot);
      var i := SeekIndex(mem, ikey);
      MemAnswers(db, user, snapshot);
      if i < |mem| && mem[i].key.user == user {
        return Answer(mem[i]);
      }
      if imm.Some? {
        var j := SeekIndex(imm.value, ikey);
        ImmAnswers(db, user, snapshot);
        if j < |imm.value| && imm.value[j].key.user == user {
          return Answer(imm.value[j]);
        }
      }
      CurrentIsSearchable(db);
      r := Versions.Get(current, user, snapshot);
      assert imm.None? ==> forall e :: !InImm(db, e) by { NoImm(db); }
      VersionDecides(db, user, snapshot, r);
    }
  }
}
