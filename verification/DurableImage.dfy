/** Whenever a process dies, its files hold its history. */
module DurableImage {
  import opened InternalKeys
  import opened Versions
  import opened CompactionSetup
  import opened ManifestReplay
  import opened History
  import opened LsmState
  import opened LsmOrder
  import opened LsmSteps
  import opened LsmCompaction
  import opened LsmRuns
  import opened WriteAheadLog
  import opened Manifests
  import opened DurableState

  /** The process as it will be once the logged change is installed. */
  ghost function AfterDb(p: Process): Db
    requires Shape(p.db) && TaskOk(p)
  {
    if p.task.Logged? then Next(p.db, p.task.action) else p.db
  }

  /** The process once the batch in the log is in the memtable too. */
  ghost function Future(p: Process): Db
    requires Shape(p.db) && TaskOk(p) && |p.db.ops| + |Pending(p)| < MAX_SEQUENCE_NUMBER && AfterDb(p).ops == p.db.ops
  {
    WriteAll(AfterDb(p), Pending(p))
  }

  lemma AfterKeepsShape(p: Process)
    requires Shape(p.db) && TaskOk(p)
    ensures Shape(AfterDb(p)) && AfterDb(p).current == AfterVersion(p)
    ensures AfterDb(p).ops == p.db.ops && AfterDb(p).mem == p.db.mem
    ensures AfterDb(p).imm == if p.task.Logged? && IsFlush(p.task.action) then None else p.db.imm
  {
    hide Shape, Complete;
    if p.task.Logged? {
      NextKeepsShape(p.db, p.task.action);
    }
  }

  lemma AfterStoredUpTo(p: Process, a: nat, g: nat)
    requires MemOk(p, a, g) && TaskOk(p)
    ensures StoredUpTo(AfterVersion(p), UpTo(p, a, g))
  {
    hide Shape, Complete, InVersion;
    var n := AfterDb(p);
    AfterKeepsShape(p);
    MemRangeHolds(p.db.ops, a, g);
    forall e | InVersion(n.current, e) ensures e.key.sqn <= UpTo(p, a, g) {
      StoredAfter(p, e);
    }
  }

  lemma StoredAfter(p: Process, e: Entry)
    requires Shape(p.db) && TaskOk(p) && InVersion(AfterVersion(p), e)
    ensures InVersion(p.db.current, e) || (p.task.Logged? && IsFlush(p.task.action) && InImm(p.db, e))
  {
    hide Complete, InVersion, ApplyEdit, VersionOk, Ordered, RunningOk, AllFromHistory, SnapshotsOk, MaySkipTo,
        Selected;
    if p.task.Logged? {
      match p.task.action
      case FlushTo(level, file) =>
        FlushStores(p.db, level, file, e);
      case FlushEmpty =>
      case InstallOutputs(outputs, next) =>
        ShapeHasVersion(p.db);
        StoredSubset(p.db, outputs, next, e);
      case MoveFile(c) =>
        MoveStores(p.db, c, e);
    }
  }

  lemma ShapeHasVersion(db: Db)
    requires Shape(db)
    ensures VersionOk(db.current, db.nextFileNumber) && RunningOk(db)
  {
  }

  lemma FlushStores(db: Db, level: nat, f: File, e: Entry)
    requires Shape(db) && CanFlush(db, level, f) && InVersion(Flush(db, level, f).current, e)
    ensures InVersion(db.current, e) || InImm(db, e)
  {
    hide VersionOk, RunningOk, AllFromHistory, NewestFirst, InVersion, MaySkipTo, Straddled, ApplyEdit;
    assert (iset x | x in f.entries) == Imm(db);
    SkipLevel(db.current, level, f);
    FlushOrder(db.current, level, f, db.nextFileNumber);
  }

  lemma MoveStores(db: Db, c: Compaction, e: Entry)
    requires Shape(db) && CanMove(db, c) && InVersion(Move(db, c).current, e)
    ensures InVersion(db.current, e)
  {
    hide VersionOk, RunningOk, AllFromHistory, NewestFirst, InVersion, ApplyEdit, Selected, Ordered;
    assert WellShaped(db.current) by { VersionOkIsShaped(db.current, db.nextFileNumber); }
    SelectedIsReplaceable(db.current, c);
    ReplaceableHasInputs(db.current, c);
    MovedOutputs(db.current, c, db.nextFileNumber);
    MovedContents(db.current, c, db.nextFileNumber, e);
  }

  // ---- the image on disk ----

  lemma ImageHolds(n: Db, a: nat, g: nat, img: Db, e: Entry)
    requires |n.ops| < MAX_SEQUENCE_NUMBER && a <= g <= |n.ops| && n.mem == MemRange(n.ops, g, |n.ops|)
    requires if n.imm.None? then a == g else n.imm.value == MemRange(n.ops, a, g)
    requires img.mem == MemRange(n.ops, a, |n.ops|) && img.imm.None? && img.current == n.current
    ensures Holds(img, e) <==> Holds(n, e)
  {
    hide InVersion, FromHistory;
    MemRangeHolds(n.ops, g, |n.ops|);
    MemRangeHolds(n.ops, a, g);
    MemRangeHolds(n.ops, a, |n.ops|);
    assert InRange(n.ops, a, |n.ops|, e) <==> InRange(n.ops, a, g, e) || InRange(n.ops, g, |n.ops|, e);
    assert a == g ==> !InRange(n.ops, a, g, e);
  }

  /** Memtable and immutable memtable taken together, over the same version. */
  lemma ImageIsShaped(n: Db, a: nat, g: nat, next: nat)
    requires Shape(n) && a <= g <= |n.ops| && n.mem == MemRange(n.ops, g, |n.ops|)
    requires if n.imm.None? then a == g else n.imm.value == MemRange(n.ops, a, g)
    requires StoredUpTo(n.current, a) && VersionOk(n.current, next)
    ensures Shape(Image(n.current, n.ops, a, next)) && Held(Image(n.current, n.ops, a, next)) == Held(n)
  {
    hide VersionOk, RunningOk, AllFromHistory, Complete, Ordered, Holds, FromHistory, MemRange, StoredUpTo;
    var img := Image(n.current, n.ops, a, next);
    forall e ensures Holds(n, e) <==> Holds(img, e) {
      ImageHolds(n, a, g, img, e);
    }
    MemRangeHolds(n.ops, a, |n.ops|);
    SameHoldings(n, img);
    SameHeld(n, img);
    assert NewestFirst(n.current) by { OrderedIsNewestFirst(n); }
    ImageOrdered(n.current, n.ops, a, next);
    NothingRunning(img);
  }

  lemma OrderedIsNewestFirst(db: Db)
    requires Ordered(db)
    ensures NewestFirst(db.current)
  {
  }

  lemma ImageOrdered(v: Version, ops: seq<Op>, a: nat, next: nat)
    requires a <= |ops| < MAX_SEQUENCE_NUMBER && NewestFirst(v) && StoredUpTo(v, a)
    ensures Ordered(Image(v, ops, a, next))
  {
    hide NewestFirst, InVersion, FromHistory, MemRange;
    var img := Image(v, ops, a, next);
    MemRangeHolds(ops, a, |ops|);
    forall e, f | e in Mem(img) && f in Stored(img.current) && e.key.user == f.key.user ensures e.key.sqn > f.key.sqn {
      assert InRange(ops, a, |ops|, e);
    }
  }

  lemma NothingRunning(db: Db)
    requires db.running.None?
    ensures RunningOk(db)
  {
  }

  lemma RangeOfMore(ops: seq<Op>, more: seq<Op>, a: nat)
    requires a <= |ops| && |ops| + |more| < MAX_SEQUENCE_NUMBER
    ensures InsertOps(MemRange(ops, a, |ops|), |ops| + 1, more) == MemRange(ops + more, a, |ops| + |more|)
  {
    hide MemRange, InsertOps;
    assert (ops + more)[|ops|..|ops| + |more|] == more;
    MemRangeOfPrefix(ops, more, a, |ops|);
    InsertOpsMakesRange(ops + more, a, |ops|, more);
  }

  /** Writing to an image makes the image of the longer history, but for the
      floor. */
  lemma WriteToImage(v: Version, ops: seq<Op>, more: seq<Op>, a: nat, next: nat)
    requires a <= |ops| && |ops| + |more| < MAX_SEQUENCE_NUMBER
    ensures WriteAll(Image(v, ops, a, next), more) == Image(v, ops + more, a, next).(floor := |ops|)
  {
    hide *;
    var x := Image(v, ops, a, next);
    assert x == Db(MemRange(ops, a, |ops|), None, v, next, [], None, ops, |ops|) by { ImageIs(v, ops, a, next); }
    ImageIs(v, ops + more, a, next);
    WriteAllIs(x, more);
    RangeOfMore(ops, more, a);
  }

  lemma ImageIs(v: Version, ops: seq<Op>, a: nat, next: nat)
    requires a <= |ops| <= MAX_SEQUENCE_NUMBER
    ensures Image(v, ops, a, next) == Db(MemRange(ops, a, |ops|), None, v, next, [], None, ops, |ops|)
  {
    hide MemRange;
  }

  /** A batch that reached the log before the crash counts too. */
  lemma ImageWithMore(v: Version, ops: seq<Op>, more: seq<Op>, a: nat, next: nat)
    requires a <= |ops| && |ops| + |more| < MAX_SEQUENCE_NUMBER && Shape(Image(v, ops, a, next))
    ensures Shape(Image(v, ops + more, a, next))
    ensures Held(Image(v, ops + more, a, next)) == Held(WriteAll(Image(v, ops, a, next), more))
  {
    hide Shape, Complete, MemRange, Held, WriteAll;
    WriteAllKeepsShape(Image(v, ops, a, next), more);
    WriteToImage(v, ops, more, a, next);
    var n := WriteAll(Image(v, ops, a, next), more);
    assert n.(floor := |n.ops|) == Image(v, ops + more, a, next);
    RaiseFloor(n);
  }

  lemma RaiseFloor(n: Db)
    requires Shape(n) && n.snapshots == [] && n.running.None?
    ensures Shape(n.(floor := |n.ops|)) && Held(n.(floor := |n.ops|)) == Held(n)
  {
    hide VersionOk, AllFromHistory, Complete, Ordered, Holds, Retained;
    var r := n.(floor := |n.ops|);
    forall e ensures Holds(n, e) <==> Holds(r, e) {
      SameContentsHold(n, r, e);
    }
    SameHoldings(n, r);
    SameHeld(n, r);
    SameOrder(n, r);
  }

  lemma SameContentsHold(a: Db, b: Db, e: Entry)
    requires a.mem == b.mem && a.imm == b.imm && a.current == b.current
    ensures Holds(a, e) <==> Holds(b, e)
  {
  }

  lemma ProcessImage(p: Process, a: nat, g: nat, next: nat)
    requires MemOk(p, a, g) && TaskOk(p) && VersionOk(AfterVersion(p), next)
    ensures Shape(Image(AfterVersion(p), p.db.ops + Pending(p), UpTo(p, a, g), next))
    ensures AfterDb(p).ops == p.db.ops
        && Held(Image(AfterVersion(p), p.db.ops + Pending(p), UpTo(p, a, g), next)) == Held(Future(p))
  {
    hide Shape, Complete, VersionOk, MemRange, StoredUpTo, MayLog, CanFlush, Held, WriteAll, AfterDb;
    AfterKeepsShape(p);
    AfterStoredUpTo(p, a, g);
    ImageIsShaped(AfterDb(p), UpTo(p, a, g), g, next);
    ImageWithMore(AfterVersion(p), p.db.ops, Pending(p), UpTo(p, a, g), next);
    WriteAllHeld(AfterDb(p), Image(AfterVersion(p), p.db.ops, UpTo(p, a, g), next), Pending(p));
  }

  /** The logs that count, from the one the manifest names. */
  lemma ProcessLogs(d: Disk, p: Process, a: nat, g: nat)
    requires MemOk(p, a, g) && TaskOk(p) && LogsOk(d, p, a, g)
    ensures LogsHold(d.logs, AfterLog(p), p.db.ops + Pending(p), UpTo(p, a, g))
  {
    hide Shape, MemRange, StoredUpTo, Chain, OpsOf, Stream;
    var ops, all := p.db.ops, p.db.ops + Pending(p);
    var imm := p.db.imm.Some? && !(p.task.Logged? && IsFlush(p.task.action));
    assert p.db.imm.None? ==> UpTo(p, a, g) == g;
    assert ops[g..] + Pending(p) == all[g..];
    forall top: nat | BoundedBy(d.logs, top) && AfterLog(p) <= top
      ensures Chain(Stream(d.logs, AfterLog(p), top), UpTo(p, a, g))
          && OpsOf(Stream(d.logs, AfterLog(p), top)) == all[UpTo(p, a, g)..]
    {
      if imm {
        StreamOfTwo(d.logs, p.logNumber, p.logfile, top);
        ChainJoin(d.logs[p.logNumber], d.logs[p.logfile], a);
        OpsOfJoin(d.logs[p.logNumber], d.logs[p.logfile]);
        assert ops[a..g] + (ops[g..] + Pending(p)) == all[a..];
      } else {
        StreamOfOne(d.logs, p.logfile, top);
      }
    }
  }

  /** At every moment of a running process its files are a durable form of all
      the operations it has acknowledged, and of the batch being logged. */
  lemma UpIsDurable(d: Disk, p: Process, a: nat, g: nat)
    requires UpOk(d, p, a, g)
    ensures Durable(d, p.db.ops + Pending(p), UpTo(p, a, g))
    ensures AfterDb(p).ops == p.db.ops && Held(DiskDb(d, p.db.ops + Pending(p), UpTo(p, a, g))) == Held(Future(p))
  {
    hide Shape, Complete, VersionOk, MemRange, StoredUpTo, LogsOk, NumbersUsed, EntersOnce, Recovered, MayLog,
        CanFlush, FilePresent, InSomeLevel,
         Held, WriteAll, AfterDb;
    AfterStoredUpTo(p, a, g);
    ProcessImage(p, a, g, NextFile(Head(d)).value);
    ProcessLogs(d, p, a, g);
    forall f | InSomeLevel(AfterVersion(p), f) ensures FilePresent(d, f) {
      assert Needed(p, f);
    }
  }
}
