/** The steps of a running process and of its files, down to single appends and
    deletions. */
module DurableSteps {
  import opened InternalKeys
  import opened Versions
  import opened CompactionSetup
  import opened ManifestReplay
  import opened History
  import opened LsmState
  import opened LsmVersions
  import opened LsmOrder
  import opened LsmSteps
  import opened LsmCompaction
  import opened LsmRuns
  import opened WriteAheadLog
  import opened Manifests
  import opened DurableState

  datatype Step =
    | AppendBatch(batch: seq<Op>)           // log_->AddRecord
    | ApplyBatch                            // InsertInto, SetLastSequence, acknowledge
    | SwitchLog                             // MakeRoomForWrite
    | InMemory(action: Action)              // snapshots, start of a compaction
    | HoldVersion                           // an iterator or a Get takes a reference
    | ReleaseVersion(i: nat)
    | WriteTable(level: nat, size: nat)     // BuildTable of a flush
    | WriteOutput(file: File)               // one output table of a compaction
    | LogChange(action: Action)             // LogAndApply up to the manifest append
    | InstallChange                         // the rest of LogAndApply
    | DeleteTable(n: nat)                   // DeleteObsoleteFiles
    | DeleteLog(n: nat)
    | DeleteManifest(n: nat)

  function FlushFile(p: Process, size: nat): FileMeta
    requires p.db.imm.Some?
  {
    FileMeta(p.nextFile, size, p.db.imm.value)
  }

  predicate StaysInMemory(a: Action) {
    a.NewSnapshot? || a.DropSnapshot? || a.BeginCompaction?
  }

  ghost predicate MayLogNow(p: Process, a: Action) {
    && MayLog(p.db, a)
    && match a
       case FlushTo(level, file) => p.task == TableWritten(level, file)
       case InstallOutputs(outputs, next) => p.task.Idle? && outputs == p.outputs && next == p.nextFile
       case _ => p.task.Idle?
  }

  /** LogAndApply is called for the job at hand. */
  ghost predicate CanLog(p: Process, a: Action) {
    && ChangesVersion(a) && Enabled(p.db, a)
    && match a
       case FlushTo(level, file) => p.task == TableWritten(level, file)
       case InstallOutputs(outputs, next) => p.task.Idle? && outputs == p.outputs && next == p.nextFile
       case _ => p.task.Idle?
  }

  lemma CanLogIsMayLog(p: Process, a: Action)
    requires Shape(p.db) && TaskOk(p) && CanLog(p, a)
    ensures MayLogNow(p, a)
  {
    hide Shape, CanMove, CanInstall, CanFlush, FlushApart;
  }

  /** The versions in the list that AddLiveFiles walks. */
  function ListedVersions(p: Process): seq<Version> {
    [p.db.current] + (if p.db.running.Some? then [p.db.running.value.base] else []) + p.live
  }

  /** The numbers whose tables DeleteObsoleteFiles keeps: pending_outputs_ and
      those of AddLiveFiles. */
  ghost predicate Live(p: Process, n: nat) {
    || (exists o :: o in p.outputs && o.number == n)
    || (exists v, f :: v in ListedVersions(p) && InSomeLevel(v, f) && f.number == n)
  }

  /** Between jobs of the background thread the live numbers cover all that is
      needed. */
  lemma NeededIsLive(p: Process, f: File)
    requires Shape(p.db) && TaskOk(p) && p.task.Idle? && Needed(p, f)
    ensures Live(p, f.number)
  {
    hide Shape, InSomeLevel;
    var list := ListedVersions(p);
    assert list[0] == p.db.current;
    if p.db.running.Some? {
      assert list[1] == p.db.running.value.base;
    }
    forall i | 0 <= i < |p.live| ensures p.live[i] in list {
      assert p.live[i] in p.live;
    }
  }

  ghost predicate CanStep(p: Process, s: Step)
    requires Shape(p.db) && TaskOk(p)
  {
    match s
    case AppendBatch(batch) => p.inflight.None? && |p.db.ops| + |batch| < MAX_SEQUENCE_NUMBER
    case ApplyBatch => p.inflight.Some?
    case SwitchLog => p.inflight.None? && p.db.imm.None?
    case InMemory(a) => StaysInMemory(a) && Enabled(p.db, a) && (a.BeginCompaction? ==> p.task.Idle? && p.outputs == [])
    case HoldVersion => true
    case ReleaseVersion(i) => i < |p.live|
    case WriteTable(level, size) =>
      && p.task.Idle? && p.db.imm.Some? && p.db.imm.value != []
      && CanFlush(p.db, level, FlushFile(p, size))
    case WriteOutput(f) => p.task.Idle? && p.db.running.Some? && f.number == p.nextFile
    case LogChange(a) => CanLog(p, a)
    case InstallChange => p.task.Logged?
    case DeleteTable(n) => p.task.Idle? && !Live(p, n)
    case DeleteLog(n) => p.task.Idle? && n < p.logNumber
    case DeleteManifest(n) => p.task.Idle? && n < p.manifest
  }

  /** The hypothesis on flushes: none goes where the compaction in progress will
      write across it. */
  ghost predicate StepApart(p: Process, s: Step) {
    (s.WriteTable? && p.db.imm.Some? && p.db.imm.value != [] && Sorted(p.db.imm.value))
        ==> FlushApart(p.db, s.level, FlushFile(p, s.size))
  }

  /** The hypothesis on compactions: none lets a deleted value come back. */
  ghost predicate StepLosesNothing(p: Process, s: Step) {
    s.LogChange? ==> LosesNothing(p.db, s.action)
  }

  /** It is enough that none leaves behind, in its output level, a file that goes
      on with the key its lower inputs end on. */
  ghost predicate StepClosed(p: Process, s: Step) {
    s.LogChange? ==> LowerClosed(p.db, s.action)
  }

  function EditOf(db: Db, a: Action): VersionEdit {
    match a
    case FlushTo(level, file) => FlushEdit(level, file)
    case InstallOutputs(outputs, next) => if db.running.Some? then CompactionEdit(db.running.value.c, outputs)
        else VersionEdit({}, [])
    case MoveFile(c) => CompactionEdit(c, c.inputs0)
    case _ => VersionEdit({}, [])
  }

  function RecordOf(p: Process, a: Action): Record {
    Record(EditOf(p.db, a), Some(if IsFlush(a) then p.logfile else p.logNumber), Some(p.nextFile), Some(|p.db.ops|))
  }

  function ImmEntries(p: Process): seq<Entry> {
    if p.db.imm.Some? then p.db.imm.value else []
  }

  function NextDisk(d: Disk, p: Process, s: Step): Disk
    requires p.logfile in d.logs && p.manifest in d.manifests
  {
    match s
    case AppendBatch(batch) => d.(logs := d.logs[p.logfile := d.logs[p.logfile] + [Batch(|p.db.ops| + 1, batch)]])
    case SwitchLog => d.(logs := d.logs[p.nextFile := []])
    case WriteTable(level, size) => d.(tables := d.tables[p.nextFile := ImmEntries(p)])
    case WriteOutput(f) => d.(tables := d.tables[f.number := f.entries])
    case LogChange(a) => d.(manifests := d.manifests[p.manifest := d.manifests[p.manifest] + [RecordOf(p, a)]])
    case DeleteTable(n) => d.(tables := d.tables - {n})
    case DeleteLog(n) => d.(logs := d.logs - {n})
    case DeleteManifest(n) => d.(manifests := d.manifests - {n})
    case _ => d
  }

  ghost function NextProcess(p: Process, s: Step): Process
    requires Shape(p.db) && TaskOk(p) && CanStep(p, s)
    requires |p.db.ops| + |Pending(p)| < MAX_SEQUENCE_NUMBER
  {
    match s
    case AppendBatch(batch) => p.(inflight := Some(batch))
    case ApplyBatch => p.(db := WriteAll(p.db, p.inflight.value), inflight := None)
    case SwitchLog => p.(db := Switch(p.db), logfile := p.nextFile, nextFile := p.nextFile + 1)
    case InMemory(a) => p.(db := Next(p.db, a))
    case HoldVersion => p.(live := p.live + [p.db.current])
    case ReleaseVersion(i) => p.(live := p.live[..i] + p.live[i + 1..])
    case WriteTable(level, size) => p.(task := TableWritten(level, FlushFile(p, size)), nextFile := p.nextFile + 1)
    case WriteOutput(f) => p.(outputs := p.outputs + [f], nextFile := p.nextFile + 1)
    case LogChange(a) => p.(task := Logged(a))
    case InstallChange =>
      p.(db := Next(p.db, p.task.action), logNumber := AfterLog(p), task := Idle,
         outputs := if p.task.action.InstallOutputs? then [] else p.outputs)
    case DeleteTable(n) => p
    case DeleteLog(n) => p
    case DeleteManifest(n) => p
  }

  ghost predicate UpAfter(d: Disk, p: Process, s: Step, a: nat, g: nat) {
    && p.logfile in d.logs && p.manifest in d.manifests && Shape(p.db) && TaskOk(p) && CanStep(p, s)
    && |p.db.ops| + |Pending(p)| < MAX_SEQUENCE_NUMBER
    && UpOk(NextDisk(d, p, s), NextProcess(p, s), a, g)
  }

  // ---- writes ----

  lemma AppendKeeps(d: Disk, p: Process, a: nat, g: nat, batch: seq<Op>)
    requires UpOk(d, p, a, g) && CanStep(p, AppendBatch(batch))
    ensures UpOk(NextDisk(d, p, AppendBatch(batch)), NextProcess(p, AppendBatch(batch)), a, g)
  {
    hide Shape, Complete, VersionOk, MemRange, StoredUpTo, NumbersUsed, MayLog, CanFlush, InSomeLevel, EntersOnce,
        Recovered;
    var e, q := NextDisk(d, p, AppendBatch(batch)), NextProcess(p, AppendBatch(batch));
    SameTask(p, q);
    assert LogsOk(e, q, a, g) by {
      var log, one := d.logs[p.logfile], [Batch(|p.db.ops| + 1, batch)];
      ChainJoin(log, one, g);
      OpsOfJoin(log, one);
      assert one[1..] == [] && OpsOf(one) == batch + OpsOf([]) == batch;
      assert Chain(one[1..], |p.db.ops| + |batch|);
      assert p.db.ops[g..] + [] == p.db.ops[g..];
    }
  }

  /** A process that differs in nothing but logs and memtables needs the same
      files. */
  lemma SameTask(p: Process, q: Process)
    requires Shape(p.db) && TaskOk(p) && Shape(q.db)
    requires q == p.(inflight := q.inflight)
    ensures TaskOk(q) && AfterVersion(q) == AfterVersion(p) && AfterLog(q) == AfterLog(p)
    ensures forall f :: Needed(q, f) <==> Needed(p, f)
    ensures forall records :: NumbersUsed(p, records) ==> NumbersUsed(q, records)
  {
    hide Shape, MayLog, CanFlush, InSomeLevel, Next, OnlyDown;
  }

  /** What the background task depends on is untouched by writes, and by a
      memtable switch unless a flush is under way. */
  ghost predicate SameForTask(p: Process, q: Process) {
    && q.task == p.task && q.outputs == p.outputs && q.live == p.live && p.nextFile <= q.nextFile
    && q.db.current == p.db.current && q.db.running == p.db.running && q.db.nextFileNumber == p.db.nextFileNumber
    && (p.db.imm.Some? ==> q.db.imm == p.db.imm && q.logfile == p.logfile) && q.logNumber == p.logNumber
  }

  lemma StillMayLog(x: Db, y: Db, a: Action)
    requires Shape(x) && Shape(y) && MayLog(x, a)
    requires x.current == y.current && x.running == y.running && x.nextFileNumber == y.nextFileNumber
    requires x.imm.Some? ==> y.imm == x.imm
    ensures MayLog(y, a) && Next(y, a).current == Next(x, a).current
  {
    hide Shape, Selected, FreshOutputs, OutputsOf, MaySkipTo, Straddled, ApplyEdit;
  }

  lemma StillTaskOk(p: Process, q: Process)
    requires Shape(p.db) && TaskOk(p) && Shape(q.db) && SameForTask(p, q)
    ensures TaskOk(q) && AfterVersion(q) == AfterVersion(p) && AfterLog(q) == AfterLog(p)
    ensures forall f :: Needed(q, f) <==> Needed(p, f)
    ensures forall records :: NumbersUsed(p, records) ==> NumbersUsed(q, records)
  {
    hide Shape, InSomeLevel, OnlyDown, MaySkipTo, Straddled, MayLog, Next;
    if p.task.Logged? {
      StillMayLog(p.db, q.db, p.task.action);
      if IsFlush(p.task.action) { FlushNeedsImm(p.db, p.task.action); }
    }
  }

  lemma FlushNeedsImm(db: Db, a: Action)
    requires MayLog(db, a) && IsFlush(a)
    ensures db.imm.Some?
  {
  }

  /** Manifest and tables do not notice such a step. */
  lemma ManifestAndTablesStay(d: Disk, e: Disk, p: Process, q: Process, a: nat, g: nat, h: nat)
    requires Shape(p.db) && TaskOk(p) && Shape(q.db) && TaskOk(q) && ManifestOk(d, p, a, g) && TablesOk(d, p)
    requires SameForTask(p, q) && q.manifest == p.manifest && |p.db.ops| <= |q.db.ops|
    requires e.tables == d.tables && e.manifests == d.manifests && e.currentManifest == d.currentManifest
    requires UpTo(q, a, h) == UpTo(p, a, g)
    ensures ManifestOk(e, q, a, h) && TablesOk(e, q)
  {
    hide Shape, InSomeLevel, TaskOk, NumbersUsed, EntersOnce, Recovered, VersionOk, AfterVersion, Needed, HasCounters;
    StillTaskOk(p, q);
  }

  lemma ApplyLogs(d: Disk, p: Process, q: Process, a: nat, g: nat)
    requires a <= g <= |p.db.ops| && LogsOk(d, p, a, g) && p.inflight.Some?
    requires q == p.(db := q.db, inflight := None) && q.db.ops == p.db.ops + p.inflight.value && q.db.imm == p.db.imm
    ensures LogsOk(d, q, a, g)
  {
    hide Chain, OpsOf;
    var ops, more := p.db.ops, p.inflight.value;
    assert (ops + more)[g..] + [] == ops[g..] + more;
    assert (ops + more)[a..g] == ops[a..g];
  }

  lemma ApplyMem(p: Process, q: Process, a: nat, g: nat)
    requires MemOk(p, a, g) && p.inflight.Some? && q == p.(db := WriteAll(p.db, p.inflight.value), inflight := None)
    ensures MemOk(q, a, g)
  {
    hide Shape, Complete, MemRange, InsertOps, StoredUpTo, WriteAll;
    var ops, more := p.db.ops, p.inflight.value;
    WriteAllKeepsShape(p.db, more);
    WriteAllIs(p.db, more);
    assert (ops + more)[|ops|..|ops| + |more|] == more;
    MemRangeOfPrefix(ops, more, g, |ops|);
    MemRangeOfPrefix(ops, more, a, g);
    InsertOpsMakesRange(ops + more, g, |ops|, more);
  }

  lemma ApplyKeeps(d: Disk, p: Process, a: nat, g: nat)
    requires UpOk(d, p, a, g) && CanStep(p, ApplyBatch)
    ensures UpOk(d, NextProcess(p, ApplyBatch), a, g)
  {
    hide Shape, Complete, MemRange, StoredUpTo, LogsOk, ManifestOk, TablesOk, TaskOk, WriteAll;
    var q := NextProcess(p, ApplyBatch);
    WriteAllIs(p.db, p.inflight.value);
    ApplyMem(p, q, a, g);
    StillTaskOk(p, q);
    ManifestAndTablesStay(d, d, p, q, a, g, g);
    ApplyLogs(d, p, q, a, g);
  }

  lemma FilesAtHand(d: Disk, p: Process, a: nat, g: nat)
    requires UpOk(d, p, a, g)
    ensures p.logfile in d.logs && p.manifest in d.manifests
  {
  }

  lemma SwitchLogs(d: Disk, p: Process, a: nat, g: nat)
    requires a <= g <= |p.db.ops| && LogsOk(d, p, a, g) && p.inflight.None? && p.db.imm.None? && a == g
    ensures LogsOk(d.(logs := d.logs[p.nextFile := []]),
        p.(db := Switch(p.db), logfile := p.nextFile, nextFile := p.nextFile + 1), a, |p.db.ops|)
  {
    var ops := p.db.ops;
    assert ops[g..] + [] == ops[g..] == ops[a..|ops|];
  }

  lemma SwitchKeeps(d: Disk, p: Process, a: nat, g: nat)
    requires UpOk(d, p, a, g) && CanStep(p, SwitchLog)
    ensures UpOk(NextDisk(d, p, SwitchLog), NextProcess(p, SwitchLog), a, |p.db.ops|)
  {
    hide Shape, Complete, StoredUpTo, LogsOk, ManifestOk, TablesOk, MayLog;
    FilesAtHand(d, p, a, g);
    var e, q := NextDisk(d, p, SwitchLog), NextProcess(p, SwitchLog);
    assert Shape(q.db) by { SwitchKeepsShape(p.db); }
    if p.task.Logged? && IsFlush(p.task.action) { FlushNeedsImm(p.db, p.task.action); }
    StillTaskOk(p, q);
    ManifestAndTablesStay(d, e, p, q, a, g, |p.db.ops|);
    SwitchLogs(d, p, a, g);
  }

  // ---- snapshots, compactions starting, readers ----

  lemma InMemoryChanges(db: Db, x: Action)
    requires Shape(db) && StaysInMemory(x) && Enabled(db, x)
    ensures var n := Next(db, x);
      && n.mem == db.mem && n.imm == db.imm && n.current == db.current && n.nextFileNumber == db.nextFileNumber
          && n.ops == db.ops
      && n.running == if x.BeginCompaction? then Some(Running(x.c, db.current, SmallestSnapshot(db))) else db.running
  {
  }

  lemma InMemoryKeeps(d: Disk, p: Process, a: nat, g: nat, x: Action)
    requires UpOk(d, p, a, g) && CanStep(p, InMemory(x))
    ensures UpOk(d, NextProcess(p, InMemory(x)), a, g)
  {
    hide Shape, Complete, VersionOk, MemRange, StoredUpTo, InSomeLevel, EntersOnce, Recovered, Enabled, LogsOk, Next,
        MaySkipTo, Straddled,
         OnlyDown;
    var q := NextProcess(p, InMemory(x));
    assert Apart(p.db, x);
    NextKeepsShape(p.db, x);
    InMemoryChanges(p.db, x);
    assert LogsOk(d, q, a, g) by { SameLogs(d, d, p, q, a, g); }
    if x.BeginCompaction? {
      assert forall f :: Needed(q, f) ==> Needed(p, f);
    } else {
      StillTaskOk(p, q);
      ManifestAndTablesStay(d, d, p, q, a, g, g);
    }
  }

  lemma SameLogs(d: Disk, e: Disk, p: Process, q: Process, a: nat, g: nat)
    requires a <= g <= |p.db.ops| && LogsOk(d, p, a, g) && e.logs == d.logs
    requires q.db.ops == p.db.ops && q.db.imm == p.db.imm && q.logfile == p.logfile && q.logNumber == p.logNumber
    requires q.inflight == p.inflight && q.nextFile >= p.nextFile
    ensures LogsOk(e, q, a, g)
  {
    hide Chain, OpsOf;
  }

  lemma ReadersKeep(d: Disk, p: Process, a: nat, g: nat, s: Step)
    requires UpOk(d, p, a, g) && (s.HoldVersion? || s.ReleaseVersion?) && CanStep(p, s)
    ensures UpOk(d, NextProcess(p, s), a, g)
  {
    hide Shape, Complete, VersionOk, MemRange, StoredUpTo, InSomeLevel, EntersOnce, Recovered, LogsOk, MayLog,
        CanFlush, OnlyDown, Next;
    var q := NextProcess(p, s);
    assert LogsOk(d, q, a, g) by { SameLogs(d, d, p, q, a, g); }
    assert AfterVersion(q) == AfterVersion(p);
    forall f | Needed(q, f) ensures Needed(p, f) {
      if exists i :: 0 <= i < |q.live| && InSomeLevel(q.live[i], f) {
        var i :| 0 <= i < |q.live| && InSomeLevel(q.live[i], f);
        var v := q.live[i];
        assert v == p.db.current || exists j :: 0 <= j < |p.live| && p.live[j] == v;
      }
    }
  }

  // ---- tables ----

  lemma WriteTableKeeps(d: Disk, p: Process, a: nat, g: nat, s: Step)
    requires UpOk(d, p, a, g) && s.WriteTable? && CanStep(p, s) && StepApart(p, s)
    ensures UpAfter(d, p, s, a, g)
  {
    hide Shape, Complete, VersionOk, MemRange, StoredUpTo, InSomeLevel, EntersOnce, Recovered, LogsOk, CanFlush,
        FlushApart, OnlyDown, Next;
    FilesAtHand(d, p, a, g);
    var e, q := NextDisk(d, p, s), NextProcess(p, s);
    assert LogsOk(e, q, a, g) by { SameLogs(d, e, p, q, a, g); }
    assert forall f :: Needed(q, f) ==> Needed(p, f) || f == q.task.file;
    assert forall o :: o in p.outputs ==> Needed(p, o);
  }

  lemma WriteOutputKeeps(d: Disk, p: Process, a: nat, g: nat, s: Step)
    requires UpOk(d, p, a, g) && s.WriteOutput? && CanStep(p, s)
    ensures UpOk(NextDisk(d, p, s), NextProcess(p, s), a, g)
  {
    hide Shape, Complete, VersionOk, MemRange, StoredUpTo, InSomeLevel, EntersOnce, Recovered, LogsOk, MayLog,
        CanFlush, OnlyDown, Next;
    FilesAtHand(d, p, a, g);
    var e, q := NextDisk(d, p, s), NextProcess(p, s);
    assert LogsOk(e, q, a, g) by { SameLogs(d, e, p, q, a, g); }
    assert forall f :: Needed(q, f) ==> Needed(p, f) || f == s.file;
  }

  // ---- deletions ----

  /** Whatever DeleteObsoleteFiles removes, nothing that is needed is lost. */
  lemma DeleteKeeps(d: Disk, p: Process, a: nat, g: nat, s: Step)
    requires UpOk(d, p, a, g) && (s.DeleteTable? || s.DeleteLog? || s.DeleteManifest?) && CanStep(p, s)
    ensures UpOk(NextDisk(d, p, s), p, a, g)
  {
    hide Shape, Complete, VersionOk, MemRange, StoredUpTo, InSomeLevel, EntersOnce, Recovered, MayLog, CanFlush,
        OnlyDown, Next, Chain, OpsOf,
         Needed, Live;
    forall f | Needed(p, f) ensures s.DeleteTable? ==> f.number != s.n {
      if s.DeleteTable? { NeededIsLive(p, f); }
    }
  }
}
