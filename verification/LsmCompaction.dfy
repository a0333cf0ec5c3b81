/** The steps of a compaction: picking inputs, and installing outputs.  The one
    place where the code can lose a deletion is stated exactly. */
module LsmCompaction {
  import opened InternalKeys
  import opened Versions
  import opened InputSelection
  import opened InputGrowth
  import opened CompactionSetup
  import opened CompactionWork
  import opened VersionEdits
  import opened ManifestReplay
  import opened History
  import opened LsmState
  import opened LsmVersions
  import opened LsmOrder
  import opened LsmSteps

  // ---- begin ----

  lemma SelectedIsReplaceable(v: Version, c: Compaction)
    requires WellShaped(v) && Selected(v, c)
    ensures Replaceable(v, c) && LevelSorted(c.inputs1)
    ensures forall g :: g in v.files[c.level + 1] && g !in c.inputs1 ==> Outside(g, c)
  {
    hide LeavesNothingOlder, NewestFirst;
    var lo, hi := RangeExists(c.inputs0);
    var files := v.files[c.level + 1];
    assert c.inputs1 == OverlappingFiles(files, Some(lo.user), Some(hi.user));
    OverlapIsRun(files, Some(lo.user), Some(hi.user));
    RunIsSorted(files, c.inputs1);
    forall g | g in files && g !in c.inputs1 ensures Bystander(g, c) && Outside(g, c) {
      LeftOutIsBystander(files, c, g, lo, hi);
    }
  }

  lemma LeftOutIsBystander(files: seq<File>, c: Compaction, g: File, lo: InternalKey, hi: InternalKey)
    requires LevelSorted(files) && IsSmallestKey(c.inputs0, lo) && IsLargestKey(c.inputs0, hi)
    requires c.inputs1 == OverlappingFiles(files, Some(lo.user), Some(hi.user))
    requires g in files && g !in c.inputs1
    ensures Bystander(g, c) && Outside(g, c)
  {
    hide LevelSorted, IsSmallestKey, IsLargestKey;
    EntriesInRange(g, g.entries[0]);
    forall e | InFiles(c.inputs0, e) ensures lo.user <= e.key.user <= hi.user {
      InputInRange(c.inputs0, lo, hi, e);
    }
    forall e, h | e in g.entries && InFiles(c.inputs0, h) ensures e.key.user != h.key.user {
      EntriesInRange(g, e);
    }
    forall e | InFiles(c.inputs1, e)
      ensures Largest(g).user < lo.user ==> Less(Largest(g), e.key)
      ensures Smallest(g).user > hi.user ==> Less(e.key, Smallest(g))
    {
      var f :| f in c.inputs1 && e in f.entries;
      EntriesInRange(f, e);
      LevelIsSeparated(files, f, g);
    }
    assert Largest(g).user < lo.user || Smallest(g).user > hi.user;
  }

  lemma InputInRange(inputs: seq<File>, lo: InternalKey, hi: InternalKey, e: Entry)
    requires IsSmallestKey(inputs, lo) && IsLargestKey(inputs, hi) && InFiles(inputs, e)
    ensures lo.user <= e.key.user <= hi.user && AtMost(e.key, hi)
  {
    var f :| f in inputs && e in f.entries;
    EntriesInRange(f, e);
  }

  function SmallestSnapshot(db: Db): nat {
    if db.snapshots == [] then |db.ops| else db.snapshots[0]
  }

  /** That is the oldest reader there is or can still be. */
  lemma SmallestIsOldest(db: Db)
    requires SnapshotsOk(db)
    ensures forall s :: s in db.snapshots ==> SmallestSnapshot(db) <= s
    ensures SmallestSnapshot(db) in db.snapshots || (db.snapshots == [] && SmallestSnapshot(db) == |db.ops|)
  {
    forall s | s in db.snapshots
      ensures SmallestSnapshot(db) <= s
    {
      var i :| 0 <= i < |db.snapshots| && db.snapshots[i] == s;
      assert i > 0 ==> db.snapshots[0] <= db.snapshots[i];
    }
  }

  /** DoCompactionWork up to releasing the mutex. */
  function Begin(db: Db, c: Compaction): Db
    requires |db.ops| <= MAX_SEQUENCE_NUMBER && SnapshotsOk(db)
  {
    db.(running := Some(Running(c, db.current, SmallestSnapshot(db))))
  }

  lemma BeginKeepsShape(db: Db, c: Compaction)
    requires Shape(db) && Selected(db.current, c)
    ensures Shape(Begin(db, c))
    ensures Complete(db) ==> Complete(Begin(db, c))
  {
    hide Replaceable, Selected, WellShaped, FilesSorted, NumbersOk, Complete, AllFromHistory, NewestFirst, InVersion,
        LevelSorted, BaseLevel,
         DeepEnough;
    var n := Begin(db, c);
    SelectedIsReplaceable(db.current, c);
    SelectedBasics(db.current, c);
    ReplaceableHasInputs(db.current, c);
    OutsideIsNotStraddled(db.current, n.running.value);
    SameHoldings(db, n);
    SameOrder(db, n);
    NowDeepEnough(db.current, c);
  }

  lemma OutsideIsNotStraddled(v: Version, r: Running)
    requires r.c.level + 1 < NUM_LEVELS && forall g ::
        g in v.files[r.c.level + 1] && g !in r.c.inputs1 ==> Outside(g, r.c)
    ensures NoneStraddled(v, r)
  {
    hide InInputs, Superseded, ObsoleteTombstone;
    forall g | g in v.files[r.c.level + 1] && g !in r.c.inputs1 ensures !Straddled(r, g) {
      EntriesInRange(g, g.entries[0]);
    }
  }

  lemma SelectedBasics(v: Version, c: Compaction)
    requires Selected(v, c)
    ensures c.inputs0 != [] && NoDuplicates(c.inputs0)
  {
  }

  lemma NowDeepEnough(v: Version, c: Compaction)
    ensures DeepEnough(v, v, c)
  {
    hide BaseLevel, InInputs;
    forall h, e, l | InInputs(c, h) && BaseLevel(v, c.level, h.key.user) && c.level + 2 <= l < NUM_LEVELS
        && InFiles(v.files[l], e)
      ensures e.key.user != h.key.user
    {
      NoneDeeper(v, c.level, h.key.user, l, e);
    }
  }

  lemma NoneDeeper(v: Version, level: nat, user: UserKey, l: nat, e: Entry)
    requires BaseLevel(v, level, user) && level + 2 <= l < NUM_LEVELS && InFiles(v.files[l], e)
    ensures e.key.user != user
  {
    var g :| g in v.files[l] && e in g.entries;
    var i :| 0 <= i < |v.files[l]| && v.files[l][i] == g;
    EntriesInRange(g, e);
    assert NoneCovers(v.files[l], user);
  }

  // ---- install ----

  /** The outputs hold the inputs less what the drop loop leaves out. */
  ghost predicate OutputsOf(r: Running, outputs: seq<File>) {
    forall e :: InFiles(outputs, e) <==> Survivor(r, e)
  }

  ghost predicate CanInstall(db: Db, outputs: seq<File>, next: nat) {
    && db.running.Some?
    && db.nextFileNumber <= next && FreshOutputs(db.current, db.running.value.c, outputs, next)
    && LevelSorted(outputs)
    && OutputsOf(db.running.value, outputs)
  }

  /** InstallCompactionResults. */
  function Install(db: Db, outputs: seq<File>, next: nat): Db
    requires db.running.Some?
  {
    var r := db.running.value;
    db.(current := ApplyEdit(db.current, CompactionEdit(r.c, outputs)), nextFileNumber := next, running := None,
        floor := r.smallestSnapshot)
  }

  /** The hypothesis the code does not check: no file left in the output level
      goes on with the user key on which the lower inputs end. */
  ghost predicate LowerInputsClosed(v: Version, c: Compaction)
    requires c.level + 1 < NUM_LEVELS
  {
    NoBoundaryLeft(v.files[c.level + 1], c.inputs1)
  }

  lemma DistinctInHistory(db: Db)
    requires |db.ops| <= MAX_SEQUENCE_NUMBER && AllFromHistory(db)
    ensures DistinctVersions(db.current)
  {
    hide FromHistory, InVersion;
    forall e, f | InVersion(db.current, e) && InVersion(db.current, f) && e.key.user == f.key.user
        && e.key.sqn == f.key.sqn
      ensures e == f
    {
      assert Holds(db, e) && Holds(db, f);
      SameNumberSameEntry(db.ops, e, f);
    }
  }

  lemma SameNumberSameEntry(ops: seq<Op>, e: Entry, f: Entry)
    requires |ops| <= MAX_SEQUENCE_NUMBER && FromHistory(ops, e) && FromHistory(ops, f) && e.key.sqn == f.key.sqn
    ensures e == f
  {
  }

  lemma InputIsStored(v: Version, c: Compaction, e: Entry)
    requires InputsPresent(v, c) && InInputs(c, e)
    ensures InVersion(v, e)
  {
    if InFiles(c.inputs0, e) {
      var f :| f in c.inputs0 && e in f.entries;
      FilePlace(v, c.level, f, e);
    } else {
      var f :| f in c.inputs1 && e in f.entries;
      FilePlace(v, c.level + 1, f, e);
    }
  }

  lemma OutputsAreInputs(r: Running, outputs: seq<File>)
    requires OutputsOf(r, outputs)
    ensures OutputsFromInputs(r.c, outputs)
  {
    forall o, e | o in outputs && e in o.entries ensures InInputs(r.c, e) {
      assert InFiles(outputs, e);
    }
  }

  lemma InstalledHolds(db: Db, outputs: seq<File>, next: nat, e: Entry)
    requires VersionOk(db.current, db.nextFileNumber) && RunningOk(db) && CanInstall(db, outputs, next)
    ensures Holds(Install(db, outputs, next), e) ==> Holds(db, e)
    ensures Holds(db, e) && !InInputs(db.running.value.c, e) ==> Holds(Install(db, outputs, next), e)
    ensures InFiles(outputs, e) ==> Holds(Install(db, outputs, next), e)
  {
    hide ApplyEdit, VersionOk, OutputsOf, FreshOutputs, InVersion, Stays;
    var c := db.running.value.c;
    var n := Install(db, outputs, next);
    InputsOfRunning(db);
    ReplacedContents(db.current, c, outputs, db.nextFileNumber, next, e);
    if InVersion(n.current, e) {
      if InFiles(outputs, e) {
        assert InInputs(c, e) by { OutputsAreInputs(db.running.value, outputs); OutputMember(c, outputs, e); }
        InputIsStored(db.current, c, e);
      } else {
        var l, g :| 0 <= l < NUM_LEVELS && g in db.current.files[l] && Stays(c, l, g) && e in g.entries;
        FilePlace(db.current, l, g, e);
      }
    }
    if InVersion(db.current, e) && !InInputs(c, e) {
      var l, g := StoredSomewhere(db.current, e);
      assert Stays(c, l, g) by { NotInputStays(c, l, g, e); }
    }
  }

  lemma OutputMember(c: Compaction, outputs: seq<File>, e: Entry)
    requires OutputsFromInputs(c, outputs) && InFiles(outputs, e)
    ensures InInputs(c, e)
  {
  }

  lemma NotInputStays(c: Compaction, l: nat, g: File, e: Entry)
    requires e in g.entries && !InInputs(c, e)
    ensures Stays(c, l, g)
  {
  }

  lemma RunningBounds(db: Db)
    requires RunningOk(db) && db.running.Some?
    ensures db.running.value.c.level + 1 < NUM_LEVELS
    ensures db.floor <= db.running.value.smallestSnapshot <= |db.ops|
  {
  }

  lemma InputsOfRunning(db: Db)
    requires RunningOk(db) && db.running.Some?
    ensures InputsPresent(db.current, db.running.value.c)
  {
  }

  /** Everything but completeness survives any installation. */
  lemma InstallKeepsShape(db: Db, outputs: seq<File>, next: nat)
    requires Shape(db) && CanInstall(db, outputs, next)
    ensures Shape(Install(db, outputs, next))
  {
    hide ApplyEdit, VersionOk, OutputsOf, FreshOutputs, InVersion, NewestFirst, Complete, FromHistory, Replaceable,
        LevelSorted, DistinctVersions,
         DeepEnough, WellShaped;
    var c := db.running.value.c;
    var n := Install(db, outputs, next);
    OutputsAreInputs(db.running.value, outputs);
    DistinctInHistory(db);
    NoOutputAround(db, outputs);
    ReplaceKeepsVersionOk(db.current, c, outputs, db.nextFileNumber, next);
    ReplaceOrder(db.current, c, outputs, db.nextFileNumber, next);
    forall e | Holds(n, e) ensures Holds(db, e) {
      InstalledHolds(db, outputs, next, e);
    }
    forall e | InVersion(n.current, e) ensures InVersion(db.current, e) {
      StoredSubset(db, outputs, next, e);
    }
    assert Mem(n) == Mem(db) && Imm(n) == Imm(db);
  }

  /** No output goes on across a file that stays. */
  lemma NoOutputAround(db: Db, outputs: seq<File>)
    requires RunningOk(db) && db.running.Some? && OutputsOf(db.running.value, outputs)
    ensures NoneAround(db.current, db.running.value.c, outputs)
  {
    hide Replaceable, DeepEnough, WellShaped, LevelSorted, NoDuplicates, Survivor;
    var r := db.running.value;
    assert NoneStraddled(db.current, r);
    forall g, o | g in db.current.files[r.c.level + 1] && g !in r.c.inputs1 && o in outputs ensures !Around(o, g) {
      assert InFiles(outputs, o.entries[0]) && InFiles(outputs, o.entries[|o.entries| - 1]);
      assert Survivor(r, o.entries[0]) && Survivor(r, o.entries[|o.entries| - 1]);
    }
  }

  lemma StoredSubset(db: Db, outputs: seq<File>, next: nat, e: Entry)
    requires VersionOk(db.current, db.nextFileNumber) && RunningOk(db) && CanInstall(db, outputs, next)
    requires InVersion(Install(db, outputs, next).current, e)
    ensures InVersion(db.current, e)
  {
    hide ApplyEdit, VersionOk;
    InstalledHolds(db.(mem := [], imm := None), outputs, next, e);
  }

  // ---- nothing older is left in the output level ----

  lemma LeftOutIsNewer(v: Version, c: Compaction, g: File, e: Entry, d: Entry)
    requires Replaceable(v, c) && LowerInputsClosed(v, c) && DistinctVersions(v)
    requires g in v.files[c.level + 1] && g !in c.inputs1 && e in g.entries
    requires InInputs(c, d) && e.key.user == d.key.user
    ensures e.key.sqn > d.key.sqn
  {
    hide LeavesNothingOlder, DistinctVersions, NoBoundaryLeft, InputsPresent;
    assert Bystander(g, c);
    EntriesInRange(g, e);
    if FileBeforeAll(g, c) {
      NewerByPosition(v, c, g, e, d);
    } else if FileAfter(g, c) {
      assert InFiles(c.inputs1, d);
      AfterIsOtherKey(v, c, g, d);
    }
  }

  lemma NewerByPosition(v: Version, c: Compaction, g: File, e: Entry, d: Entry)
    requires InputsPresent(v, c) && DistinctVersions(v)
    requires g in v.files[c.level + 1] && e in g.entries && InInputs(c, d)
    requires Less(e.key, d.key) && e.key.user == d.key.user
    ensures e.key.sqn > d.key.sqn
  {
    FilePlace(v, c.level + 1, g, e);
    InputIsStored(v, c, d);
  }

  /** A file after the inputs that shares a user key with the lower ones would
      continue the key they end on. */
  lemma AfterIsOtherKey(v: Version, c: Compaction, g: File, d: Entry)
    requires InputsPresent(v, c) && LowerInputsClosed(v, c)
    requires g in v.files[c.level + 1] && FileAfter(g, c) && InFiles(c.inputs1, d)
    ensures d.key.user < Smallest(g).user
  {
    hide NoBoundaryLeft;
    var h :| h in c.inputs1 && d in h.entries;
    var lo, hi := RangeExists(c.inputs1);
    InputInRange(c.inputs1, lo, hi, d);
    var i :| 0 <= i < |c.inputs1| && Largest(c.inputs1[i]) == hi;
    var last := c.inputs1[i].entries[|c.inputs1[i].entries| - 1];
    assert c.inputs1[i] in c.inputs1 && last in c.inputs1[i].entries;
    assert InInputs(c, last);
    assert !IsBoundary(g, hi) by { ClosedAt(v.files[c.level + 1], c.inputs1, hi, g); }
  }

  lemma ClosedAt(files: seq<File>, inputs: seq<File>, largest: InternalKey, g: File)
    requires NoBoundaryLeft(files, inputs) && IsLargestKey(inputs, largest) && g in files
    ensures !IsBoundary(g, largest)
  {
  }

  /** Whatever stays in the version is newer than the tombstone d of its key,
      provided the compaction could judge d obsolete. */
  lemma StaysNewerThanTombstone(db: Db, outputs: seq<File>, l: nat, g: File, e: Entry, d: Entry)
    requires Shape(db) && db.running.Some?
    requires LowerInputsClosed(db.current, db.running.value.c)
    requires l < NUM_LEVELS && g in db.current.files[l] && Stays(db.running.value.c, l, g) && e in g.entries
    requires InInputs(db.running.value.c, d) && BaseLevel(db.running.value.base, db.running.value.c.level, d.key.user)
    requires e.key.user == d.key.user
    ensures e.key.sqn > d.key.sqn
  {
    hide VersionOk, Complete, LowerInputsClosed, BaseLevel, FromHistory, InVersion, LevelSorted, WellShaped, DeepEnough;
    var r := db.running.value;
    var c := r.c;
    DistinctInHistory(db);
    if l <= c.level {
      var p := PlaceOf(l, g);
      assert FileAt(db.current, p, g) && LevelOf(p) == l;
      StaysAboveNewer(db.current, db.nextFileNumber, c, p, g, e, d);
    } else if l == c.level + 1 {
      LeftOutIsNewer(db.current, c, g, e, d);
    } else {
      OtherKeysDeeper(db.current, r, d, l, e);
    }
  }

  lemma OtherKeysDeeper(v: Version, r: Running, d: Entry, l: nat, f: Entry)
    requires DeepEnough(v, r.base, r.c) && InInputs(r.c, d) && BaseLevel(r.base, r.c.level, d.key.user)
    requires r.c.level + 2 <= l < NUM_LEVELS && InFiles(v.files[l], f)
    ensures f.key.user != d.key.user
  {
  }

  /** The outputs hold nothing older than a dropped tombstone of the same key. */
  lemma OutputsNewerThanTombstone(r: Running, outputs: seq<File>, e: Entry, d: Entry)
    requires OutputsOf(r, outputs) && InFiles(outputs, e)
    requires InInputs(r.c, d) && d.key.sqn <= r.smallestSnapshot && e.key.user == d.key.user
    ensures e.key.sqn >= d.key.sqn
  {
    assert Survivor(r, e);
  }

  lemma DroppedIsTombstone(db: Db, outputs: seq<File>, user: UserKey, s: nat)
    requires Shape(db) && db.running.Some? && OutputsOf(db.running.value, outputs)
    requires db.running.value.smallestSnapshot <= s <= |db.ops|
    requires LastWrite(db.ops, user, s) > 0
    requires InInputs(db.running.value.c, EntryOf(db.ops, LastWrite(db.ops, user, s)))
    requires !InFiles(outputs, EntryOf(db.ops, LastWrite(db.ops, user, s)))
    ensures ObsoleteTombstone(db.running.value.base, db.running.value.c, EntryOf(db.ops, LastWrite(db.ops, user, s)),
                              db.running.value.smallestSnapshot)
  {
    hide VersionOk, Complete, Ordered, InVersion, BaseLevel, Replaceable;
    var r := db.running.value;
    var e := EntryOf(db.ops, LastWrite(db.ops, user, s));
    InputsOfRunning(db);
    forall p | InInputs(r.c, p) && p.key.user == e.key.user ensures !(e.key.sqn < p.key.sqn <= r.smallestSnapshot) {
      InputIsStored(db.current, r.c, p);
      assert Holds(db, p);
      assert FromHistory(db.ops, p);
      assert db.ops[p.key.sqn - 1].user == user;
    }
    assert !Superseded(r.c, e, r.smallestSnapshot);
    assert InFiles(outputs, e) <==> Survivor(r, e);
  }

  lemma InstallKeepsRetained(db: Db, outputs: seq<File>, next: nat, user: UserKey, s: nat)
    requires Inv(db) && CanInstall(db, outputs, next)
    requires LowerInputsClosed(db.current, db.running.value.c)
    requires Install(db, outputs, next).floor <= s <= |db.ops|
    ensures Retained(Install(db, outputs, next), user, LastWrite(db.ops, user, s))
  {
    hide VersionOk, Holds, ObsoleteTombstone, OutputsOf, InInputs, LowerInputsClosed, FreshOutputs, RunningOk, Ordered;
    var r := db.running.value;
    var n := Install(db, outputs, next);
    var q := LastWrite(db.ops, user, s);
    assert db.floor <= s by { RunningBounds(db); }
    assert Retained(db, user, q);
    if q > 0 {
      var e := EntryOf(db.ops, q);
      InstalledHolds(db, outputs, next, e);
      if Holds(db, e) {
        if InInputs(r.c, e) && !InFiles(outputs, e) {
          DroppedIsTombstone(db, outputs, user, s);
          NothingOlderStays(db, outputs, next, e);
        }
      } else {
        forall f | Holds(n, f) && f.key.user == user ensures f.key.sqn > q {
          InstalledHolds(db, outputs, next, f);
        }
      }
    }
  }

  lemma NothingOlderStays(db: Db, outputs: seq<File>, next: nat, d: Entry)
    requires Shape(db) && CanInstall(db, outputs, next)
    requires LowerInputsClosed(db.current, db.running.value.c)
    requires InInputs(db.running.value.c, d) && !InFiles(outputs, d)
    requires ObsoleteTombstone(db.running.value.base, db.running.value.c, d, db.running.value.smallestSnapshot)
    ensures d.key.kind.TypeDeletion? && NothingUpTo(Install(db, outputs, next), d.key.user, d.key.sqn)
  {
    hide VersionOk, OutputsOf, InInputs, LowerInputsClosed, FreshOutputs, RunningOk, Complete, Stays, BaseLevel,
        InVersion, ApplyEdit,
         FromHistory, NewestFirst;
    var r := db.running.value;
    var n := Install(db, outputs, next);
    InputsOfRunning(db);
    InputIsStored(db.current, r.c, d);
    assert d in Stored(db.current);
    forall f | Holds(n, f) && f.key.user == d.key.user ensures f.key.sqn > d.key.sqn {
      if f in db.mem {
        assert f in Mem(db);
      } else if InImm(db, f) {
        assert f in Imm(db);
      } else {
        ReplacedContents(db.current, r.c, outputs, db.nextFileNumber, next, f);
        InstalledHolds(db, outputs, next, f);
        if InFiles(outputs, f) {
          OutputsNewerThanTombstone(r, outputs, f, d);
          assert Holds(db, d) && Holds(db, f);
          if f.key.sqn == d.key.sqn { SameNumberSameEntry(db.ops, f, d); }
        } else {
          var l, g :| 0 <= l < NUM_LEVELS && g in db.current.files[l] && Stays(r.c, l, g) && f in g.entries;
          StaysNewerThanTombstone(db, outputs, l, g, f, d);
        }
      }
    }
  }

  /** Installing a compaction keeps the invariant, when its lower inputs are
      closed on the right. */
  lemma InstallKeepsInv(db: Db, outputs: seq<File>, next: nat)
    requires Inv(db) && CanInstall(db, outputs, next)
    requires LowerInputsClosed(db.current, db.running.value.c)
    ensures Inv(Install(db, outputs, next))
  {
    hide VersionOk, RunningOk, Ordered, AllFromHistory, LowerInputsClosed, OutputsOf, FreshOutputs, LevelSorted,
        Retained;
    var n := Install(db, outputs, next);
    InstallKeepsShape(db, outputs, next);
    forall user: UserKey, s: nat | n.floor <= s <= |n.ops| ensures Retained(n, user, LastWrite(n.ops, user, s)) {
      InstallKeepsRetained(db, outputs, next, user, s);
    }
  }

  // ---- trivial move ----

  /** BackgroundCompaction moves a lone upper input with no lower ones. */
  ghost predicate CanMove(db: Db, c: Compaction) {
    db.running.None? && Selected(db.current, c) && |c.inputs0| == 1 && c.inputs1 == []
  }

  function Move(db: Db, c: Compaction): Db {
    db.(current := ApplyEdit(db.current, CompactionEdit(c, c.inputs0)))
  }

  lemma MoveKeepsShape(db: Db, c: Compaction)
    requires Shape(db) && CanMove(db, c)
    ensures Shape(Move(db, c))
    ensures Complete(db) ==> Complete(Move(db, c))
    ensures forall e :: Holds(db, e) <==> Holds(Move(db, c), e)
  {
    hide ApplyEdit, VersionOk, FreshOutputs, InVersion, NewestFirst, Complete, FromHistory, Replaceable, LevelSorted,
        DistinctVersions,
         WellShaped, Selected, OutputsFromInputs;
    var n := Move(db, c);
    assert WellShaped(db.current) by { VersionOkIsShaped(db.current, db.nextFileNumber); }
    SelectedIsReplaceable(db.current, c);
    ReplaceableHasInputs(db.current, c);
    MovedOutputs(db.current, c, db.nextFileNumber);
    DistinctInHistory(db);
    MovedNotAround(db.current, c);
    ReplaceKeepsVersionOk(db.current, c, c.inputs0, db.nextFileNumber, db.nextFileNumber);
    ReplaceOrder(db.current, c, c.inputs0, db.nextFileNumber, db.nextFileNumber);
    forall e ensures InVersion(db.current, e) <==> InVersion(n.current, e) {
      MovedContents(db.current, c, db.nextFileNumber, e);
    }
    assert Mem(n) == Mem(db) && Imm(n) == Imm(db) && Stored(n.current) == Stored(db.current);
    SameHoldings(db, n);
  }

  lemma MovedNotAround(v: Version, c: Compaction)
    requires c.level + 1 < NUM_LEVELS && forall g :: g in v.files[c.level + 1] && g !in c.inputs1 ==> Outside(g, c)
    ensures NoneAround(v, c, c.inputs0)
  {
    forall g, o | g in v.files[c.level + 1] && g !in c.inputs1 && o in c.inputs0 ensures !Around(o, g) {
      assert InInputs(c, o.entries[0]) && InInputs(c, o.entries[|o.entries| - 1]);
      EntriesInRange(g, g.entries[0]);
    }
  }

  lemma VersionOkIsShaped(v: Version, next: nat)
    requires VersionOk(v, next)
    ensures WellShaped(v)
  {
  }

  lemma MovedOutputs(v: Version, c: Compaction, next: nat)
    requires VersionOk(v, next) && InputsPresent(v, c) && |c.inputs0| == 1
    ensures FreshOutputs(v, c, c.inputs0, next) && OutputsFromInputs(c, c.inputs0) && LevelSorted(c.inputs0)
  {
    hide WellShaped, FilesSorted;
    forall o, e | o in c.inputs0 && e in o.entries ensures InInputs(c, e) {
      assert InFiles(c.inputs0, e);
    }
  }

  lemma MovedContents(v: Version, c: Compaction, next: nat, e: Entry)
    requires VersionOk(v, next) && InputsPresent(v, c) && FreshOutputs(v, c, c.inputs0, next) && c.inputs1 == []
    ensures InVersion(v, e) <==> InVersion(ApplyEdit(v, CompactionEdit(c, c.inputs0)), e)
  {
    hide ApplyEdit, VersionOk, FreshOutputs;
    ReplacedContents(v, c, c.inputs0, next, next, e);
    if InVersion(v, e) {
      var l, g := StoredSomewhere(v, e);
      assert Stays(c, l, g) || InFiles(c.inputs0, e);
    }
    if InFiles(c.inputs0, e) {
      InputIsStored(v, c, e);
    }
    forall l, g | 0 <= l < NUM_LEVELS && g in v.files[l] && Stays(c, l, g) && e in g.entries ensures InVersion(v, e) {
      FilePlace(v, l, g, e);
    }
  }
}
