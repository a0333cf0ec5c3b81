/** The steps of a running database as functions on its state, and the proof
    that each keeps the invariant. */
module LsmSteps {
  import opened InternalKeys
  import opened Versions
  import opened InputSelection
  import opened CompactionSetup
  import opened CompactionWork
  import opened ManifestReplay
  import opened History
  import opened LsmState
  import opened LsmVersions
  import opened LsmOrder

  // ---- write ----

  /** MemTable::Add: insert in internal key order. */
  function AddToMem(mem: seq<Entry>, e: Entry): (r: seq<Entry>)
    ensures forall f :: f in r <==> f in mem || f == e
    ensures Sorted(mem) && (forall f :: f in mem ==> f.key != e.key) ==> Sorted(r)
  {
    if mem == [] || Less(e.key, mem[0].key) then
      [e] + mem
    else
      var rest := AddToMem(mem[1..], e);
      assert forall f :: f in mem <==> f == mem[0] || f in mem[1..];
      assert forall j :: 0 <= j < |rest| ==> rest[j] in rest;
      [mem[0]] + rest
  }

  function Write(db: Db, op: Op): Db
    requires |db.ops| + 1 < MAX_SEQUENCE_NUMBER
  {
    var ops := db.ops + [op];
    db.(mem := AddToMem(db.mem, EntryOf(ops, |ops|)), ops := ops)
  }

  lemma OlderEntries(db: Db, op: Op, e: Entry)
    requires |db.ops| + 1 < MAX_SEQUENCE_NUMBER && AllFromHistory(db) && Holds(db, e)
    ensures FromHistory(db.ops + [op], e) && e.key.sqn <= |db.ops|
  {
    assert FromHistory(db.ops, e);
    assert (db.ops + [op])[e.key.sqn - 1] == db.ops[e.key.sqn - 1];
  }

  lemma WriteHolds(db: Db, op: Op, e: Entry)
    requires |db.ops| + 1 < MAX_SEQUENCE_NUMBER
    ensures Holds(Write(db, op), e) <==> Holds(db, e) || e == EntryOf(db.ops + [op], |db.ops| + 1)
  {
  }

  lemma WriteKeepsShape(db: Db, op: Op)
    requires Shape(db) && |db.ops| + 1 < MAX_SEQUENCE_NUMBER
    ensures Shape(Write(db, op))
    ensures Complete(db) ==> Complete(Write(db, op))
  {
    hide VersionOk, RunningOk, Ordered, Complete, AllFromHistory;
    var n := Write(db, op);
    WriteKeepsOrder(db, op);
    if Complete(db) { WriteKeepsComplete(db, op); }
    assert AllFromHistory(n) && SnapshotsOk(n) && RunningOk(n) by {
      WriteKeepsRest(db, op);
    }
  }

  lemma WriteKeepsRest(db: Db, op: Op)
    requires |db.ops| + 1 < MAX_SEQUENCE_NUMBER && AllFromHistory(db) && SnapshotsOk(db) && RunningOk(db)
    ensures var n := Write(db, op); AllFromHistory(n) && SnapshotsOk(n) && RunningOk(n)
  {
    hide FromHistory, Holds, WellShaped, Replaceable, DeepEnough, EntryOf;
    var n := Write(db, op);
    forall e | Holds(n, e) ensures FromHistory(n.ops, e) {
      WriteHolds(db, op, e);
      if Holds(db, e) {
        OlderEntries(db, op, e);
      } else {
        NewestFromHistory(n.ops);
      }
    }
  }

  lemma NewestFromHistory(ops: seq<Op>)
    requires 0 < |ops| <= MAX_SEQUENCE_NUMBER
    ensures FromHistory(ops, EntryOf(ops, |ops|))
  {
  }

  lemma WriteKeepsOrder(db: Db, op: Op)
    requires |db.ops| + 1 < MAX_SEQUENCE_NUMBER && AllFromHistory(db) && Ordered(db) && Sorted(db.mem)
    ensures Ordered(Write(db, op)) && Sorted(Write(db, op).mem)
  {
    hide NewestFirst, InVersion;
    var n := Write(db, op);
    forall e | e in db.mem || InImm(db, e) || InVersion(db.current, e) ensures e.key.sqn <= |db.ops| {
      assert Holds(db, e);
      OlderEntries(db, op, e);
    }
  }

  lemma WriteKeepsComplete(db: Db, op: Op)
    requires |db.ops| + 1 < MAX_SEQUENCE_NUMBER && AllFromHistory(db) && Complete(db) && db.floor <= |db.ops|
    ensures Complete(Write(db, op))
  {
    hide Holds;
    var n := Write(db, op);
    forall user: UserKey, s: nat | n.floor <= s <= |n.ops| ensures Retained(n, user, LastWrite(n.ops, user, s)) {
      if s == |n.ops| && op.user == user {
        WriteHolds(db, op, EntryOf(n.ops, s));
      } else {
        var t := if s == |n.ops| then s - 1 else s;
        LastWriteOfPrefix(db.ops, [op], user, t);
        RetainedAfterWrite(db, op, user, LastWrite(db.ops, user, t));
      }
    }
  }

  lemma RetainedAfterWrite(db: Db, op: Op, user: UserKey, q: nat)
    requires |db.ops| + 1 < MAX_SEQUENCE_NUMBER && q <= |db.ops| && Retained(db, user, q)
    ensures Retained(Write(db, op), user, q)
  {
    hide Holds;
    var n := Write(db, op);
    if q > 0 {
      assert EntryOf(n.ops, q) == EntryOf(db.ops, q);
      WriteHolds(db, op, EntryOf(db.ops, q));
      forall e | Holds(n, e) && e.key.user == user && NothingUpTo(db, user, q) ensures e.key.sqn > q {
        WriteHolds(db, op, e);
      }
    }
  }

  /** A write is seen from its own sequence number on, and changes nothing for
      those before. */
  lemma WriteKeepsReads(db: Db, op: Op)
    requires Shape(db) && ReadsRight(db) && |db.ops| + 1 < MAX_SEQUENCE_NUMBER
    ensures ReadsRight(Write(db, op))
  {
    hide VersionOk, RunningOk, Ordered, Reads, Write;
    var n := Write(db, op);
    assert n.ops == db.ops + [op] && n.floor == db.floor <= |db.ops| by { WrittenParts(db, op); }
    forall user: UserKey, s: nat | n.floor <= s <= |n.ops| ensures Reads(n, user, s, ReadAt(n.ops, s, user)) {
      if s == |n.ops| && op.user == user {
        NewestIsRead(db, op);
      } else {
        var t := if s == |n.ops| then s - 1 else s;
        assert Reads(db, user, t, ReadAt(db.ops, t, user));
        LastWriteOfPrefix(db.ops, [op], user, t);
        if s > t { OtherKeyIsRead(db.ops, op, user); }
        OldReadsStay(db, op, user, t, s, ReadAt(db.ops, t, user));
      }
    }
  }

  lemma WrittenParts(db: Db, op: Op)
    requires Shape(db) && |db.ops| + 1 < MAX_SEQUENCE_NUMBER
    ensures Write(db, op).ops == db.ops + [op] && Write(db, op).floor == db.floor <= |db.ops|
  {
  }

  lemma OtherKeyIsRead(ops: seq<Op>, op: Op, user: UserKey)
    requires op.user != user
    ensures ReadAt(ops + [op], |ops| + 1, user) == ReadAt(ops, |ops|, user)
  {
    assert (ops + [op])[..|ops| + 1] == ops + [op] && (ops + [op])[..|ops|] == ops && ops[..|ops|] == ops;
  }

  lemma NewestIsRead(db: Db, op: Op)
    requires |db.ops| + 1 < MAX_SEQUENCE_NUMBER && AllFromHistory(db)
    ensures Reads(Write(db, op), op.user, |db.ops| + 1, ReadAt(db.ops + [op], |db.ops| + 1, op.user))
  {
    hide Holds, FromHistory, Write;
    var n, s := Write(db, op), |db.ops| + 1;
    var ops := db.ops + [op];
    var e := EntryOf(ops, s);
    WriteHolds(db, op, e);
    forall f | Holds(n, f) && Visible(f, op.user, s) ensures f.key.sqn <= e.key.sqn {
    }
    assert NewestHeld(n, op.user, s, e);
    LastWriteUnique(ops, op.user, s, s);
    LastWriteDecides(ops, op.user, s);
  }

  lemma OldReadsStay(db: Db, op: Op, user: UserKey, t: SequenceNumber, s: SequenceNumber, r: GetResult)
    requires |db.ops| + 1 < MAX_SEQUENCE_NUMBER && AllFromHistory(db) && Reads(db, user, t, r)
    requires s == t <= |db.ops| || (s == t + 1 == |db.ops| + 1 && op.user != user)
    ensures Reads(Write(db, op), user, s, r)
  {
    hide Holds, FromHistory, Write;
    var n := Write(db, op);
    forall f ensures Holds(n, f) && Visible(f, user, s) <==> Holds(db, f) && Visible(f, user, t) {
      WriteHolds(db, op, f);
      if Holds(db, f) { OlderEntries(db, op, f); }
    }
    if e :| NewestHeld(db, user, t, e) && r == Answer(e) {
      assert NewestHeld(n, user, s, e);
    } else {
      assert NoneHeld(n, user, s);
    }
  }

  // ---- memtable switch, snapshots ----

  /** MakeRoomForWrite: the full memtable becomes immutable. */
  function Switch(db: Db): Db {
    db.(mem := [], imm := Some(db.mem))
  }

  lemma SameHoldings(a: Db, b: Db)
    requires |a.ops| <= MAX_SEQUENCE_NUMBER && a.ops == b.ops && a.floor <= b.floor
    requires forall e :: Holds(a, e) <==> Holds(b, e)
    ensures AllFromHistory(a) ==> AllFromHistory(b)
    ensures Complete(a) ==> Complete(b)
  {
    hide Holds, FromHistory;
    if Complete(a) {
      forall user: UserKey, s: nat | b.floor <= s <= |b.ops| ensures Retained(b, user, LastWrite(b.ops, user, s)) {
        assert Retained(a, user, LastWrite(a.ops, user, s));
      }
    }
  }

  lemma SameHeld(a: Db, b: Db)
    requires forall e :: Holds(a, e) <==> Holds(b, e)
    ensures Held(a) == Held(b)
  {
    hide Holds;
  }

  /** What readers see is a matter of what is held. */
  lemma SameHeldReads(a: Db, b: Db)
    requires |a.ops| <= MAX_SEQUENCE_NUMBER && a.ops == b.ops && a.floor <= b.floor && Held(a) == Held(b)
    requires ReadsRight(a)
    ensures ReadsRight(b)
  {
    hide Held, Reads, ReadAt;
    forall user: UserKey, s: nat | b.floor <= s <= |b.ops| ensures Reads(b, user, s, ReadAt(b.ops, s, user)) {
      SameReads(a, b, user, s, ReadAt(a.ops, s, user));
    }
  }

  lemma SwitchKeepsShape(db: Db)
    requires Shape(db) && db.imm.None?
    ensures Shape(Switch(db))
    ensures Complete(db) ==> Complete(Switch(db))
  {
    hide VersionOk, RunningOk, Complete, AllFromHistory, NewestFirst, InVersion;
    var n := Switch(db);
    SameHoldings(db, n);
    assert RunningOk(n) by { SameRunning(db, n); }
  }

  lemma SameRunning(a: Db, b: Db)
    requires RunningOk(a) && a.running == b.running && a.current == b.current && |a.ops| <= |b.ops|
        && a.floor == b.floor
    requires forall i :: 0 <= i < |b.snapshots| ==> b.snapshots[i] in a.snapshots || b.snapshots[i] >= |a.ops|
    ensures RunningOk(b)
  {
    hide Replaceable, DeepEnough, WellShaped, LevelSorted;
  }

  /** GetSnapshot: readable from now on. */
  function TakeSnapshot(db: Db): Db {
    db.(snapshots := db.snapshots + [|db.ops|])
  }

  function ReleaseSnapshot(db: Db, i: nat): Db
    requires i < |db.snapshots|
  {
    db.(snapshots := db.snapshots[..i] + db.snapshots[i + 1..])
  }

  lemma SnapshotsKeepShape(db: Db)
    requires Shape(db)
    ensures Shape(TakeSnapshot(db)) && (Complete(db) ==> Complete(TakeSnapshot(db)))
    ensures forall i :: 0 <= i < |db.snapshots| ==>
      Shape(ReleaseSnapshot(db, i)) && (Complete(db) ==> Complete(ReleaseSnapshot(db, i)))
  {
    hide VersionOk, RunningOk, Complete, AllFromHistory, Ordered, InVersion;
    SameHoldings(db, TakeSnapshot(db));
    SameRunning(db, TakeSnapshot(db));
    SameOrder(db, TakeSnapshot(db));
    forall i | 0 <= i < |db.snapshots|
      ensures Shape(ReleaseSnapshot(db, i)) && (Complete(db) ==> Complete(ReleaseSnapshot(db, i)))
    {
      SameHoldings(db, ReleaseSnapshot(db, i));
      SameRunning(db, ReleaseSnapshot(db, i));
      SameOrder(db, ReleaseSnapshot(db, i));
    }
  }

  lemma SameOrder(a: Db, b: Db)
    requires Ordered(a) && a.mem == b.mem && a.imm == b.imm && a.current == b.current
    ensures Ordered(b)
  {
    assert Mem(a) == Mem(b) && Imm(a) == Imm(b);
  }

  // ---- flush ----

  /** CompactMemTable may store the immutable memtable as f in `level`. */
  ghost predicate CanFlush(db: Db, level: nat, f: File) {
    db.imm == Some(f.entries) && f.number >= db.nextFileNumber && MaySkipTo(db.current, level, f)
  }

  /** What the code does not check of a flush in the middle of a compaction: if
      f goes to the output level, the outputs must not reach across it. */
  ghost predicate FlushApart(db: Db, level: nat, f: File) {
    db.running.Some? && level == db.running.value.c.level + 1 ==> !Straddled(db.running.value, f)
  }

  function Flush(db: Db, level: nat, f: File): Db {
    db.(imm := None, current := ApplyEdit(db.current, FlushEdit(level, f)), nextFileNumber := f.number + 1)
  }

  lemma FlushKeepsShape(db: Db, level: nat, f: File)
    requires Shape(db) && CanFlush(db, level, f) && FlushApart(db, level, f)
    ensures Shape(Flush(db, level, f))
    ensures Complete(db) ==> Complete(Flush(db, level, f))
    ensures forall e :: Holds(db, e) <==> Holds(Flush(db, level, f), e)
  {
    hide VersionOk, RunningOk, Complete, AllFromHistory, NewestFirst, InVersion, MaySkipTo, Straddled, ApplyEdit;
    var n := Flush(db, level, f);
    assert (iset e | e in f.entries) == Imm(db);
    assert level < NUM_LEVELS by { SkipLevel(db.current, level, f); }
    FlushOrder(db.current, level, f, db.nextFileNumber);
    assert VersionOk(n.current, n.nextFileNumber) by { FlushKeepsVersion(db, level, f); }
    assert forall e :: Holds(db, e) <==> Holds(n, e);
    SameHoldings(db, n);
    FlushKeepsRunning(db, level, f);
  }

  lemma SkipLevel(v: Version, level: nat, f: File)
    requires MaySkipTo(v, level, f)
    ensures level < NUM_LEVELS && (level > 0 ==> ClearOf(v.files[level], f))
  {
  }

  lemma FlushKeepsVersion(db: Db, level: nat, f: File)
    requires VersionOk(db.current, db.nextFileNumber) && CanFlush(db, level, f)
    ensures VersionOk(Flush(db, level, f).current, f.number + 1)
  {
    hide VersionOk, ApplyEdit;
    FlushKeepsVersionOk(db.current, level, f, db.nextFileNumber);
  }

  lemma FlushKeepsRunning(db: Db, level: nat, f: File)
    requires Shape(db) && CanFlush(db, level, f) && FlushApart(db, level, f)
    ensures RunningOk(Flush(db, level, f))
  {
    hide VersionOk, Complete, AllFromHistory, NewestFirst, InVersion, MaySkipTo, Straddled, ApplyEdit, Replaceable,
        DeepEnough,
         WellShaped, LevelSorted, NoDuplicates;
    if db.running.Some? {
      SkipLevel(db.current, level, f);
      ReplaceableHasInputs(db.current, db.running.value.c);
      FlushKeepsReplaceable(db, level, f, db.running.value.c);
      FlushKeepsUnstraddled(db, level, f);
      FlushKeepsDepth(db, level, f, db.running.value);
    }
  }

  lemma FlushKeepsReplaceable(db: Db, level: nat, f: File, c: Compaction)
    requires VersionOk(db.current, db.nextFileNumber) && CanFlush(db, level, f) && level < NUM_LEVELS && Ordered(db)
    requires Replaceable(db.current, c)
    ensures Replaceable(Flush(db, level, f).current, c)
  {
    hide ApplyEdit, NewerWhereShared, VersionOk, Bystander;
    FlushedFiles(db.current, level, f, db.nextFileNumber);
    var w := Flush(db, level, f).current;
    if level == c.level {
      forall h | h in c.inputs0 ensures NewerWhereShared(f, h) {
        FlushedIsNewer(db, level, f, c, h);
      }
    }
    if level == c.level + 1 {
      FlushedIsBystander(db.current, f, c);
    }
  }

  lemma FlushKeepsUnstraddled(db: Db, level: nat, f: File)
    requires VersionOk(db.current, db.nextFileNumber) && CanFlush(db, level, f) && level < NUM_LEVELS
    requires db.running.Some? && NoneStraddled(db.current, db.running.value) && FlushApart(db, level, f)
    ensures NoneStraddled(Flush(db, level, f).current, db.running.value)
  {
    hide ApplyEdit, VersionOk, Straddled;
    FlushedFiles(db.current, level, f, db.nextFileNumber);
  }

  lemma FlushedIsNewer(db: Db, level: nat, f: File, c: Compaction, h: File)
    requires Ordered(db) && db.imm == Some(f.entries)
    requires InputsPresent(db.current, c) && h in c.inputs0
    ensures NewerWhereShared(f, h)
  {
    forall e, d | e in f.entries && d in h.entries && e.key.user == d.key.user ensures e.key.sqn >= d.key.sqn {
      FilePlace(db.current, c.level, h, d);
      assert e in Imm(db) && d in Stored(db.current);
    }
  }

  /** A file that may skip to the output level has passed both input levels. */
  lemma FlushedIsBystander(v: Version, f: File, c: Compaction)
    requires InputsPresent(v, c) && MaySkipTo(v, c.level + 1, f)
    ensures Bystander(f, c) && InGap(f, c)
  {
    hide InInputs;
    forall e | InInputs(c, e) ensures e.key.user < Smallest(f).user || Largest(f).user < e.key.user {
      var g := InputFile(c, e);
      EntriesInRange(g, e);
      assert ClearOf(v.files[c.level], f) && ClearOf(v.files[c.level + 1], f);
    }
    forall e, h | e in f.entries && InFiles(c.inputs0, h) ensures e.key.user != h.key.user {
      EntriesInRange(f, e);
      assert InInputs(c, h) by { UpperIsInput(c, h); }
    }
  }

  lemma UpperIsInput(c: Compaction, h: Entry)
    ensures InFiles(c.inputs0, h) ==> InInputs(c, h)
  {
  }

  lemma FlushKeepsDepth(db: Db, level: nat, f: File, r: Running)
    requires VersionOk(db.current, db.nextFileNumber) && f.number >= db.nextFileNumber
        && MaySkipTo(db.current, level, f)
    requires InputsPresent(db.current, r.c) && DeepEnough(db.current, r.base, r.c)
    ensures DeepEnough(Flush(db, level, f).current, r.base, r.c)
  {
    hide ApplyEdit, VersionOk, BaseLevel, InInputs;
    var w := Flush(db, level, f).current;
    FlushedFiles(db.current, level, f, db.nextFileNumber);
    forall h, e, l | InInputs(r.c, h) && BaseLevel(r.base, r.c.level, h.key.user) && r.c.level + 2 <= l < NUM_LEVELS
        && InFiles(w.files[l], e)
      ensures e.key.user != h.key.user
    {
      var g :| g in w.files[l] && e in g.entries;
      if g in db.current.files[l] {
        assert InFiles(db.current.files[l], e);
      } else {
        ClearOfInput(db.current, level, f, r.c, e, h);
      }
    }
  }

  /** A level chosen below the inputs' levels means f passed them untouched. */
  lemma ClearOfInput(v: Version, level: nat, f: File, c: Compaction, e: Entry, h: Entry)
    requires MaySkipTo(v, level, f) && InputsPresent(v, c) && c.level + 1 <= level
    requires e in f.entries && InInputs(c, h)
    ensures e.key.user != h.key.user
  {
    if InFiles(c.inputs0, h) {
      var g :| g in c.inputs0 && h in g.entries;
      assert ClearOf(v.files[c.level], f);
      ClearMeansNoCommonKey(f, g, e, h);
    } else {
      var g :| g in c.inputs1 && h in g.entries;
      assert ClearOf(v.files[c.level + 1], f);
      ClearMeansNoCommonKey(f, g, e, h);
    }
  }

  /** Inputs without a gap have nothing on one side of a flushed file. */
  lemma ConnectedInputsKeepFlushApart(v: Version, f: File, r: Running)
    requires Connected(r.c.inputs0 + r.c.inputs1) && InputsPresent(v, r.c)
    requires MaySkipTo(v, r.c.level + 1, f)
    ensures !Straddled(r, f)
  {
    hide Connected, RangesOverlap, InInputs, Superseded, ObsoleteTombstone;
    var c := r.c;
    var all := c.inputs0 + c.inputs1;
    forall e, h | InInputs(c, e) && InInputs(c, h)
      ensures Largest(f).user < e.key.user || h.key.user < Smallest(f).user {
      var a := InputFile(c, e);
      var b := InputFile(c, h);
      assert ClearOf(v.files[c.level], f) && ClearOf(v.files[c.level + 1], f);
      NotAcross(all, f, a, b, e, h);
    }
    EntriesInRange(f, f.entries[0]);
  }

  lemma InputFile(c: Compaction, e: Entry) returns (g: File)
    requires InInputs(c, e)
    ensures (g in c.inputs0 || g in c.inputs1) && e in g.entries
  {
    if InFiles(c.inputs0, e) {
      g :| g in c.inputs0 && e in g.entries;
    } else {
      g :| g in c.inputs1 && e in g.entries;
    }
  }

  lemma NotAcross(all: seq<File>, f: File, a: File, b: File, e: Entry, h: Entry)
    requires Connected(all) && (forall g :: g in all ==> !RangesOverlap(g, f))
    requires a in all && b in all && e in a.entries && h in b.entries
    ensures Largest(f).user < e.key.user || h.key.user < Smallest(f).user
  {
    EntriesInRange(a, e);
    EntriesInRange(b, h);
    EntriesInRange(f, f.entries[0]);
    var u := Smallest(f).user;
    forall g | g in all ensures !(Smallest(g).user <= u <= Largest(g).user) {
      assert !RangesOverlap(g, f);
    }
    assert !CoveredBy(all, u);
    assert !RangesOverlap(a, f) && !RangesOverlap(b, f);
    assert Smallest(a).user <= u <= Largest(b).user ==> CoveredBy(all, u);
  }

  /** BuildTable makes no file of an empty memtable. */
  function FlushNothing(db: Db): Db {
    db.(imm := None)
  }

  lemma FlushNothingKeepsShape(db: Db)
    requires Shape(db) && db.imm == Some([])
    ensures Shape(FlushNothing(db))
    ensures Complete(db) ==> Complete(FlushNothing(db))
  {
    hide VersionOk, RunningOk, Complete, AllFromHistory, NewestFirst, InVersion;
    SameHoldings(db, FlushNothing(db));
    SameRunning(db, FlushNothing(db));
  }
}
