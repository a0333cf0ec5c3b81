/** A database with crashes, as one system, and what each of its events keeps. */
module DurableRuns {
  import opened InternalKeys
  import opened Versions
  import opened VersionEdits
  import opened ManifestReplay
  import opened History
  import opened LsmState
  import opened LsmRuns
  import opened WriteAheadLog
  import opened Manifests
  import opened DurableState
  import opened DurableImage
  import opened DurableSteps
  import opened DurableCommits
  import opened CrashRecovery
  import opened RecoverySteps

  datatype Proc = Down | Recovering(r: Recovery) | Up(p: Process)

  /** `acked`: the operations of acknowledged batches; `unacked`: those of a
      batch that is in the log without having been acknowledged. */
  datatype Sys = Sys(disk: Disk, proc: Proc, acked: seq<Op>, unacked: seq<Op>)

  datatype Event = Run(step: Step) | Crash | Start | Recover(part: RecoveryStep) | Open

  ghost predicate DownHolds(d: Disk, ops: seq<Op>, a: nat, h: iset<Entry>) {
    Durable(d, ops, a) && Held(DiskDb(d, ops, a)) == h
  }

  ghost predicate UpHolds(d: Disk, p: Process, a: nat, g: nat, h: iset<Entry>) {
    UpOk(d, p, a, g) && AfterDb(p).ops == p.db.ops && Held(Future(p)) == h
  }

  ghost predicate RecoveringHolding(d: Disk, r: Recovery, ops: seq<Op>, a: nat, m: nat, h: iset<Entry>) {
    RecoveringOk(d, r, ops, a, m) && Held(Image(r.base, ops, a, r.baseNext)) == h
  }

  ghost predicate SwitchedHolding(d: Disk, r: Recovery, ops: seq<Op>, a: nat, h: iset<Entry>) {
    SwitchedOk(d, r, ops, a) && Held(Image(r.base, ops, a, r.baseNext)) == h
  }

  ghost predicate RecoveryHolds(d: Disk, r: Recovery, ops: seq<Op>, h: iset<Entry>) {
    (exists a, m :: RecoveringHolding(d, r, ops, a, m, h)) || (exists a :: SwitchedHolding(d, r, ops, a, h))
  }

  /** Files and process agree, and together they hold exactly h: what a running
      process will hold once the change and the batch it has written to its files
      are in memory too, or what opening the database would bring back. */
  ghost predicate SysOk(x: Sys, h: iset<Entry>) {
    |x.acked + x.unacked| < MAX_SEQUENCE_NUMBER &&
    match x.proc
    case Down => exists a :: DownHolds(x.disk, x.acked + x.unacked, a, h)
    case Recovering(r) => RecoveryHolds(x.disk, r, x.acked + x.unacked, h)
    case Up(p) => (exists a, g :: UpHolds(x.disk, p, a, g, h)) && p.db.ops == x.acked && x.unacked == Pending(p)
  }

  ghost predicate CanHappen(x: Sys, e: Event) {
    match e
    case Run(s) => x.proc.Up? && Shape(x.proc.p.db) && TaskOk(x.proc.p) && CanStep(x.proc.p, s)
    case Crash => true
    case Start => x.proc.Down? && HeadOk(x.disk)
    case Recover(s) => x.proc.Recovering? && CanRecover(x.disk, x.proc.r, s)
        && (s.WriteLogTable? ==> Sorted(TableOf(x.disk, x.proc.r, s.k)))
    case Open => x.proc.Recovering? && x.proc.r.stage.Switched?
  }

  /** The hypothesis on flushes in the middle of a compaction. */
  ghost predicate EventApart(x: Sys, e: Event) {
    e.Run? && x.proc.Up? ==> StepApart(x.proc.p, e.step)
  }

  ghost predicate HasFiles(x: Sys) {
    x.proc.Up? ==>
      && x.proc.p.logfile in x.disk.logs && x.proc.p.manifest in x.disk.manifests
      && |x.proc.p.db.ops| + |Pending(x.proc.p)| < MAX_SEQUENCE_NUMBER
  }

  ghost function Happen(x: Sys, e: Event): Sys
    requires CanHappen(x, e) && HasFiles(x) && |x.acked + x.unacked| < MAX_SEQUENCE_NUMBER
  {
    match e
    case Run(s) =>
      var y := x.(disk := NextDisk(x.disk, x.proc.p, s), proc := Up(NextProcess(x.proc.p, s)));
      if s.AppendBatch? then y.(unacked := s.batch)
      else if s.ApplyBatch? then y.(acked := x.acked + x.unacked, unacked := [])
      else y
    case Crash => x.(proc := Down)
    case Start => x.(proc := Recovering(StartRecovery(x.disk)))
    case Recover(s) => x.(disk := RecoverDisk(x.disk, x.proc.r, s),
        proc := Recovering(RecoverNext(x.disk, x.proc.r, s)))
    case Open => x.(proc := Up(Opened(x.proc.r, x.acked + x.unacked)), acked := x.acked + x.unacked, unacked := [])
  }

  lemma UpHasFiles(x: Sys, h: iset<Entry>)
    requires SysOk(x, h)
    ensures HasFiles(x)
  {
    hide Held;
    if x.proc.Up? {
      var a, g :| UpHolds(x.disk, x.proc.p, a, g, h);
      FilesAtHand(x.disk, x.proc.p, a, g);
    }
  }

  /** What a step does to the operations acknowledged and in flight. */
  ghost predicate CountsAfter(p: Process, s: Step) {
    && Shape(p.db) && TaskOk(p) && CanStep(p, s) && |p.db.ops| + |Pending(p)| < MAX_SEQUENCE_NUMBER
    && NextProcess(p, s).db.ops == (if s.ApplyBatch? then p.db.ops + Pending(p) else p.db.ops)
    && Pending(NextProcess(p, s)) == (if s.AppendBatch? then s.batch else if s.ApplyBatch? then [] else Pending(p))
  }

  /** Every step a running process can take keeps its files and itself in
      agreement. */
  lemma StepKeeps(d: Disk, p: Process, a: nat, g: nat, s: Step) returns (b: nat, h: nat)
    requires UpOk(d, p, a, g) && CanStep(p, s) && StepApart(p, s)
    ensures UpAfter(d, p, s, b, h) && CountsAfter(p, s)
  {
    hide UpOk, CanStep, NextDisk, NextProcess;
    UpParts(d, p, a, g);
    FilesAtHand(d, p, a, g);
    StepOps(p, a, g, s);
    WhatStays(d, p, s);
    b, h := a, g;
    match s
    case AppendBatch(batch) => AppendKeeps(d, p, a, g, batch);
    case ApplyBatch => ApplyKeeps(d, p, a, g);
    case SwitchLog =>
      SwitchKeeps(d, p, a, g);
      h := |p.db.ops|;
    case InMemory(x) => InMemoryKeeps(d, p, a, g, x);
    case HoldVersion => ReadersKeep(d, p, a, g, s);
    case ReleaseVersion(i) => ReadersKeep(d, p, a, g, s);
    case WriteTable(level, size) => WriteTableKeeps(d, p, a, g, s);
    case WriteOutput(f) => WriteOutputKeeps(d, p, a, g, s);
    case LogChange(x) => LogChangeKeeps(d, p, a, g, x);
    case InstallChange =>
      InstallChangeKeeps(d, p, a, g);
      b := UpTo(p, a, g);
    case DeleteTable(n) => DeleteKeeps(d, p, a, g, s);
    case DeleteLog(n) => DeleteKeeps(d, p, a, g, s);
    case DeleteManifest(n) => DeleteKeeps(d, p, a, g, s);
  }

  predicate TouchesDisk(s: Step) {
    s.AppendBatch? || s.SwitchLog? || s.WriteTable? || s.WriteOutput? || s.LogChange? || s.DeleteTable? || s.DeleteLog?
        || s.DeleteManifest?
  }

  lemma WhatStays(d: Disk, p: Process, s: Step)
    requires Shape(p.db) && TaskOk(p) && CanStep(p, s) && |p.db.ops| + |Pending(p)| < MAX_SEQUENCE_NUMBER
    requires p.logfile in d.logs && p.manifest in d.manifests
    ensures !TouchesDisk(s) ==> NextDisk(d, p, s) == d
    ensures s.DeleteTable? || s.DeleteLog? || s.DeleteManifest? ==> NextProcess(p, s) == p
  {
    hide Shape, TaskOk, CanStep;
  }

  lemma UpParts(d: Disk, p: Process, a: nat, g: nat)
    requires UpOk(d, p, a, g)
    ensures MemOk(p, a, g) && TaskOk(p) && Shape(p.db) && |p.db.ops| + |Pending(p)| < MAX_SEQUENCE_NUMBER
  {
  }

  lemma StepOps(p: Process, a: nat, g: nat, s: Step)
    requires MemOk(p, a, g) && TaskOk(p) && CanStep(p, s)
    ensures CountsAfter(p, s)
  {
    hide Shape, Complete, MemRange, StoredUpTo, MayLog, Enabled, Needed;
    if s.InMemory? { InMemoryChanges(p.db, s.action); }
    if s.InstallChange? { AfterKeepsShape(p); }
    if s.ApplyBatch? { WriteAllIs(p.db, p.inflight.value); }
  }

  /** Each step of a recovery, or the crash that interrupts it, leaves the
      history on disk, and what is held unchanged. */
  lemma RecoverKeeps(d: Disk, r: Recovery, ops: seq<Op>, s: RecoveryStep, h: iset<Entry>)
    requires RecoveryHolds(d, r, ops, h) && CanRecover(d, r, s)
    ensures RecoversOk(d, r, s, ops, h)
  {
    hide RecoveringOk, SwitchedOk, Held;
    StillRecovering(d, r, ops, s, h);
    var a: nat, m: nat :| RecoveringHolding(d, r, ops, a, m, h);
    RecoveringHolds(d, r, ops, a, m);
    var n: nat := m;
    match s {
      case WriteLogTable(k, size) =>
        WriteLogTableKeeps(d, r, ops, a, m, k, size);
        n :| RecoversTo(d, r, s, ops, a, n);
      case NextLog => NextLogKeeps(d, r, ops, a, m);
      case CreateLog => CreateLogKeeps(d, r, ops, a, m);
      case WriteSnapshotRecord => ManifestStepKeeps(d, r, ops, a, m, s);
      case AppendRecoveredRecord => ManifestStepKeeps(d, r, ops, a, m, s);
      case SetCurrent => SetCurrentKeeps(d, r, ops, a, m);
    }
    StillHolding(d, r, ops, s, a, n, h);
  }

  ghost predicate RecoversOk(d: Disk, r: Recovery, s: RecoveryStep, ops: seq<Op>, h: iset<Entry>)
    requires CanRecover(d, r, s)
  {
    (s.WriteLogTable? ==> Sorted(TableOf(d, r, s.k)))
        && RecoveryHolds(RecoverDisk(d, r, s), RecoverNext(d, r, s), ops, h)
  }

  lemma StillHolding(d: Disk, r: Recovery, ops: seq<Op>, s: RecoveryStep, a: nat, n: nat, h: iset<Entry>)
    requires CanRecover(d, r, s) && a <= |ops| <= MAX_SEQUENCE_NUMBER && Held(Image(r.base, ops, a, r.baseNext)) == h
    requires s.WriteLogTable? ==> Sorted(TableOf(d, r, s.k))
    requires
      || RecoveringOk(RecoverDisk(d, r, s), RecoverNext(d, r, s), ops, a, n)
      || SwitchedOk(RecoverDisk(d, r, s), RecoverNext(d, r, s), ops, a)
    ensures RecoversOk(d, r, s, ops, h)
  {
    hide RecoveringOk, SwitchedOk, Held, RecoverDisk, TableOf;
    var e, q := RecoverDisk(d, r, s), RecoverNext(d, r, s);
    assert q.base == r.base && q.baseNext == r.baseNext;
    if RecoveringOk(e, q, ops, a, n) {
      assert RecoveringHolding(e, q, ops, a, n, h);
    } else {
      assert SwitchedHolding(e, q, ops, a, h);
    }
  }

  lemma StageTells(d: Disk, r: Recovery, ops: seq<Op>, a: nat, m: nat)
    ensures SwitchedOk(d, r, ops, a) ==> r.stage.Switched?
    ensures RecoveringOk(d, r, ops, a, m) ==> !r.stage.Switched?
  {
    hide Durable, Progress, FromManifest, NewLogOk, RestOfLogs;
  }

  lemma StillRecovering(d: Disk, r: Recovery, ops: seq<Op>, s: RecoveryStep, h: iset<Entry>)
    requires RecoveryHolds(d, r, ops, h) && CanRecover(d, r, s)
    ensures exists a, m :: RecoveringHolding(d, r, ops, a, m, h)
  {
    hide SwitchedOk, RecoveringOk, Held;
    forall a: nat { StageTells(d, r, ops, a, 0); }
  }

  lemma SwitchedIsSwitched(d: Disk, r: Recovery, ops: seq<Op>, h: iset<Entry>)
    requires RecoveryHolds(d, r, ops, h) && r.stage.Switched?
    ensures exists a :: SwitchedHolding(d, r, ops, a, h)
  {
    hide SwitchedOk, RecoveringOk, Held;
    forall a: nat, m: nat { StageTells(d, r, ops, a, m); }
  }

  lemma RecoveryIsDurable(d: Disk, r: Recovery, ops: seq<Op>, h: iset<Entry>)
    requires RecoveryHolds(d, r, ops, h)
    ensures exists a :: DownHolds(d, ops, a, h)
  {
    hide Durable, Held;
    if a, m :| RecoveringHolding(d, r, ops, a, m, h) {
      RecoveringHolds(d, r, ops, a, m);
      assert DownHolds(d, ops, a, h);
    } else {
      var a :| SwitchedHolding(d, r, ops, a, h);
      SwitchedHolds(d, r, ops, a);
      assert DownHolds(d, ops, |ops|, h);
    }
  }

  /** At any moment whatsoever the files hold the acknowledged operations and
      the unacknowledged batch in the log, whole, and nothing else; and the
      database they describe holds exactly what the process would have held. */
  lemma AlwaysDurable(x: Sys, h: iset<Entry>)
    requires SysOk(x, h)
    ensures exists a :: DownHolds(x.disk, x.acked + x.unacked, a, h)
  {
    hide Durable, UpOk, RecoveryHolds, Held;
    match x.proc
    case Down =>
    case Recovering(r) => RecoveryIsDurable(x.disk, r, x.acked + x.unacked, h);
    case Up(p) =>
      var a, g :| UpHolds(x.disk, p, a, g, h);
      UpIsDurable(x.disk, p, a, g);
      assert DownHolds(x.disk, x.acked + x.unacked, UpTo(p, a, g), h);
  }

  /** An event other than a step of the process changes nothing of what is held. */
  lemma HappenKeeps(x: Sys, e: Event, h: iset<Entry>) returns (k: iset<Entry>)
    requires SysOk(x, h) && CanHappen(x, e) && EventApart(x, e)
    ensures HasFiles(x) && SysOk(Happen(x, e), k)
    ensures !e.Run? ==> k == h
  {
    hide Durable, UpOk, RecoveryHolds, SwitchedOk, CanStep, NextDisk, NextProcess, RecoverDisk, RecoverNext, Held,
        Future;
    UpHasFiles(x, h);
    AlwaysDurable(x, h);
    k := h;
    match e
    case Run(s) => k := StepHolds(x, s, h);
    case Crash =>
    case Start => StartHolds(x, h);
    case Recover(s) => RecoverKeeps(x.disk, x.proc.r, x.acked + x.unacked, s, h);
    case Open => OpenHolds(x, h);
  }

  lemma StepHolds(x: Sys, s: Step, h: iset<Entry>) returns (k: iset<Entry>)
    requires SysOk(x, h) && CanHappen(x, Run(s)) && EventApart(x, Run(s)) && HasFiles(x)
    ensures SysOk(Happen(x, Run(s)), k)
  {
    hide Durable, UpOk, CanStep, NextDisk, NextProcess, Held, Future, AfterDb, TaskOk;
    var p := x.proc.p;
    var a, g :| UpHolds(x.disk, p, a, g, h);
    var b, i := StepKeeps(x.disk, p, a, g, s);
    StepInBounds(x, s, h);
    k := SteppedHolds(x.disk, p, s, b, i);
    StepIsOk(x, s, h, b, i, k);
  }

  lemma SteppedHolds(d: Disk, p: Process, s: Step, b: nat, i: nat) returns (k: iset<Entry>)
    requires UpAfter(d, p, s, b, i)
    ensures UpHolds(NextDisk(d, p, s), NextProcess(p, s), b, i, k)
  {
    hide UpOk, CanStep, NextDisk, NextProcess, Held, TaskOk, AfterDb;
    var e, q := NextDisk(d, p, s), NextProcess(p, s);
    UpParts(e, q, b, i);
    AfterKeepsShape(q);
    k := Held(Future(q));
  }

  lemma StepIsOk(x: Sys, s: Step, h: iset<Entry>, b: nat, i: nat, k: iset<Entry>)
    requires SysOk(x, h) && CanHappen(x, Run(s)) && HasFiles(x) && CountsAfter(x.proc.p, s)
        && UpAfter(x.disk, x.proc.p, s, b, i)
    requires UpHolds(NextDisk(x.disk, x.proc.p, s), NextProcess(x.proc.p, s), b, i, k)
    ensures SysOk(Happen(x, Run(s)), k)
  {
    hide UpOk, UpHolds, UpAfter, CanStep, NextDisk, NextProcess, Held, TaskOk, AfterDb;
    StepInBounds(x, s, h);
  }

  lemma StartHolds(x: Sys, h: iset<Entry>)
    requires SysOk(x, h) && CanHappen(x, Start)
    ensures HasFiles(x) && SysOk(Happen(x, Start), h)
  {
    hide Durable, Held;
    var a :| DownHolds(x.disk, x.acked + x.unacked, a, h);
    StartKeeps(x.disk, x.acked + x.unacked, a);
    var r := StartRecovery(x.disk);
    assert RecoveringHolding(x.disk, r, x.acked + x.unacked, a, a, h)
        by { StartsThere(x.disk, x.acked + x.unacked, a); }
  }

  lemma StartsThere(d: Disk, ops: seq<Op>, a: nat)
    requires HeadOk(d) && a <= |ops| <= MAX_SEQUENCE_NUMBER
    ensures Image(StartRecovery(d).base, ops, a, StartRecovery(d).baseNext) == DiskDb(d, ops, a)
  {
    hide Recovered;
  }

  lemma OpenHolds(x: Sys, h: iset<Entry>)
    requires SysOk(x, h) && CanHappen(x, Open)
    ensures HasFiles(x) && SysOk(Happen(x, Open), h) && Held(Happen(x, Open).proc.p.db) == h
  {
    hide Durable, UpOk, RecoveryHolds, SwitchedOk, Held, Opened;
    var r, ops := x.proc.r, x.acked + x.unacked;
    SwitchedIsSwitched(x.disk, r, ops, h);
    var a :| SwitchedHolding(x.disk, r, ops, a, h);
    OpenedIsUp(x.disk, r, ops, a);
    OpenedHolds(x.disk, r, ops, a);
    OpenedIsQuiet(x.disk, r, ops);
    assert UpHolds(x.disk, Opened(r, ops), |ops|, |ops|, h);
    assert ops + [] == ops;
  }

  lemma OpenedIsQuiet(d: Disk, r: Recovery, ops: seq<Op>)
    requires r.stage.Switched? && |ops| < MAX_SEQUENCE_NUMBER && UpOk(d, Opened(r, ops), |ops|, |ops|)
    ensures var p := Opened(r, ops); AfterDb(p) == p.db && Pending(p) == [] && Future(p) == p.db && p.db.ops == ops
  {
    hide Shape, AddEach;
  }

  lemma StepInBounds(x: Sys, s: Step, h: iset<Entry>)
    requires SysOk(x, h) && CanHappen(x, Run(s)) && HasFiles(x)
    ensures var y := Happen(x, Run(s)); |y.acked + y.unacked| < MAX_SEQUENCE_NUMBER
    ensures s.AppendBatch? ==> x.unacked == []
    ensures s.ApplyBatch? ==> x.acked + x.unacked + [] == x.acked + x.unacked
  {
    hide UpOk, NextDisk, NextProcess, Held, Future;
  }

  // ---- a new database ----

  /** NewDB: an empty manifest, named by CURRENT. */
  const NEW_MANIFEST := Record(VersionEdit({}, []), Some(0), Some(2), Some(0))

  const NEW_DB := Sys(Disk(map[], map[], map[1 := [NEW_MANIFEST]], 1), Down, [], [])

  lemma NewDbIsOk()
    ensures SysOk(NEW_DB, iset{})
  {
    hide Shape, Recovered, LogsHold, Held, StoredUpTo, TablesPresent;
    var d, records, none := NEW_DB.disk, [NEW_MANIFEST], [];
    assert [] + [NEW_MANIFEST] == records;
    CountersOfAppend([], NEW_MANIFEST);
    EmptyIsValid();
    NothingRecovered(records);
    assert Image(EMPTY.current, [], 0, 2) == EMPTY;
    NothingStored(d);
    assert Durable(d, none, 0);
    assert DownHolds(d, none, 0, iset{});
    assert NEW_DB.acked + NEW_DB.unacked == none;
  }

  lemma NothingStored(d: Disk)
    requires d.logs == map[]
    ensures LogsHold(d.logs, 0, [], 0) && Held(EMPTY) == iset{}
    ensures StoredUpTo(EMPTY.current, 0) && TablesPresent(d, EMPTY.current)
  {
    forall top: nat | BoundedBy(d.logs, top)
      ensures Chain(Stream(d.logs, 0, top), 0) && OpsOf(Stream(d.logs, 0, top)) == []
    {
      StreamBeyond(d.logs, 0, top);
    }
    EmptyStoresNothing();
    assert forall l :: 0 <= l < NUM_LEVELS ==> EMPTY.current.files[l] == [];
    var none: seq<Op> := [];
    assert none[0..] == none;
  }

  lemma NothingRecovered(records: seq<Record>)
    requires records == [NEW_MANIFEST]
    ensures Recovered(records) == EMPTY.current
  {
    hide DistinctNumbers, InstallOne;
    forall l | 0 <= l < NUM_LEVELS ensures Recovered(records).files[l] == [] {
      assert [] + [NEW_MANIFEST] == records;
      AppendedEdits([], NEW_MANIFEST, l);
      NoEdits(l);
      assert [] + [LevelPart(NEW_MANIFEST.edit, l)] == [LevelPart(NEW_MANIFEST.edit, l)];
      assert LevelPart(NEW_MANIFEST.edit, l) == LevelEdit({}, []);
      EmptyEditsBuildNothing();
    }
    assert Recovered(records).files == EMPTY.current.files;
  }

  lemma EmptyEditsBuildNothing()
    ensures SaveLevel([], ApplyAll(NOTHING, [LevelEdit({}, [])])) == []
  {
    assert [LevelEdit({}, [])][..0] == [];
    assert ApplyAll(NOTHING, []) == NOTHING;
    assert NOTHING.deleted + {} == {};
    assert ApplyAll(NOTHING, [LevelEdit({}, [])]) == Apply(NOTHING, LevelEdit({}, [])) == NOTHING;
  }
}
