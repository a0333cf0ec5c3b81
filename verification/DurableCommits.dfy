/** Committing a change: one record appended to the manifest, then installed in
    memory. */
module DurableCommits {
  import opened Versions
  import opened CompactionSetup
  import opened VersionEdits
  import opened ManifestReplay
  import opened LsmState
  import opened LsmVersions
  import opened LsmOrder
  import opened LsmSteps
  import opened LsmCompaction
  import opened LsmRuns
  import opened WriteAheadLog
  import opened Manifests
  import opened DurableState
  import opened DurableImage
  import opened DurableSteps

  /** Every file a recovered level holds has once been added to it. */
  lemma RecoveredWereAdded(records: seq<Record>, l: nat, f: File)
    requires EntersOnce(records) && l < NUM_LEVELS && f in Recovered(records).files[l]
    ensures f in EverIn(records, l)
  {
    hide SaveLevel, LevelEdits, DistinctNumbers;
    var edits := LevelEdits(records, l);
    EmptySorted();
    assert [] + EverIn(records, l) == EverIn(records, l);
    ReplayEqualsInstalls([], edits);
    SavedWereAdded(ApplyAll(NOTHING, edits), f);
  }

  lemma SavedWereAdded(s: LevelState, f: File)
    requires FilesSorted(s.added) && f in SaveLevel([], s)
    ensures f in s.added
  {
    hide FilesSorted;
    EmptySorted();
    SavedContents([], s);
  }

  /** The edit of an action describes what the action does. */
  lemma EditDoesIt(db: Db, a: Action)
    requires Shape(db) && MayLog(db, a)
    ensures Next(db, a).current == ApplyEdit(db.current, EditOf(db, a))
  {
    hide Shape, CanFlush, CanMove, CanInstall, ApplyEdit;
    if a.FlushEmpty? {
      ShapeHasVersion(db);
      EmptyEdit(db.current, db.nextFileNumber);
    }
    if a.InstallOutputs? {
      InstallNeedsRunning(db, a.outputs, a.next);
    }
  }

  lemma InstallNeedsRunning(db: Db, outputs: seq<File>, next: nat)
    requires CanInstall(db, outputs, next)
    ensures db.running.Some?
  {
  }

  lemma OneAdded(level: nat, f: File, l: nat)
    ensures AddedAt([(level, f)], l) == if l == level then [f] else []
  {
    assert [(level, f)] == AtLevel(level, [f]);
    AddedBack(level, [f], l);
  }

  /** The level an edit adds files to, and the files. */
  lemma AddedByEdit(db: Db, a: Action, l: nat)
    requires Shape(db) && MayLog(db, a) && l < NUM_LEVELS
    ensures AddedAt(EditOf(db, a).added, l) ==
      match a
      case FlushTo(level, file) => (if l == level then [file] else [])
      case InstallOutputs(outputs, next) => (if l == db.running.value.c.level + 1 then outputs else [])
      case MoveFile(c) => (if l == c.level + 1 then c.inputs0 else [])
      case _ => []
  {
    hide Shape, Selected, OutputsOf, FreshOutputs, MaySkipTo, AddedAt, AtLevel;
    match a
    case FlushTo(level, file) =>
      OneAdded(level, file, l);
    case InstallOutputs(outputs, next) => AddedBack(db.running.value.c.level + 1, outputs, l);
    case MoveFile(c) => AddedBack(c.level + 1, c.inputs0, l);
    case FlushEmpty => NoneAdded(l);
  }

  lemma NoneAdded(l: nat)
    ensures AddedAt([], l) == []
  {
  }

  /** Files of the changed version: old ones, or added ones. */
  lemma AfterFiles(db: Db, a: Action, l: nat, f: File)
    requires Shape(db) && MayLog(db, a) && l < NUM_LEVELS && f in Next(db, a).current.files[l]
    ensures f in db.current.files[l] || f in AddedAt(EditOf(db, a).added, l)
    ensures a.MoveFile? && l == a.c.level ==> f in db.current.files[l] && f !in a.c.inputs0
  {
    hide Ordered, AllFromHistory, SnapshotsOk, Selected, OutputsOf, MaySkipTo, Straddled, ApplyEdit, VersionOk,
        NewestFirst, AddedAt,
         FreshOutputs, LevelSorted, InputsPresent;
    AddedByEdit(db, a, l);
    match a
    case FlushTo(level, file) =>
      assert level < NUM_LEVELS by { SkipLevel(db.current, level, file); }
      FlushedFiles(db.current, level, file, db.nextFileNumber);
    case InstallOutputs(outputs, next) =>
      InputsOfRunning(db);
      ReplacedFiles(db.current, db.running.value.c, outputs, db.nextFileNumber, next);
    case MoveFile(c) =>
      MoveInputs(db, c);
      ReplacedFiles(db.current, c, c.inputs0, db.nextFileNumber, db.nextFileNumber);
    case _ =>
  }

  lemma MoveInputs(db: Db, c: Compaction)
    requires Shape(db) && CanMove(db, c)
    ensures InputsPresent(db.current, c) && FreshOutputs(db.current, c, c.inputs0, db.nextFileNumber)
        && |c.inputs0| == 1
  {
    hide Ordered, AllFromHistory, SnapshotsOk, VersionOk, Selected, FreshOutputs;
    ShapeHasVersion(db);
    assert WellShaped(db.current) by { VersionOkIsShaped(db.current, db.nextFileNumber); }
    SelectedIsReplaceable(db.current, c);
    ReplaceableHasInputs(db.current, c);
    MovedOutputs(db.current, c, db.nextFileNumber);
  }

  ghost predicate BeforeCommit(p: Process, records: seq<Record>, a: Action) {
    && Shape(p.db) && TaskOk(p) && !p.task.Logged? && MayLogNow(p, a)
    && EntersOnce(records) && NumbersUsed(p, records) && Recovered(records) == p.db.current
  }

  /** Added files other than a moved one have numbers nothing has had. */
  lemma AddedIsUnused(p: Process, records: seq<Record>, a: Action, l: nat, m: nat, f: File, h: File)
    requires BeforeCommit(p, records, a) && !a.MoveFile? && l < NUM_LEVELS && m < NUM_LEVELS
    requires f in AddedAt(EditOf(p.db, a).added, l) && h in EverIn(records, m)
    ensures f.number != h.number
  {
    hide Shape, Complete, EntersOnce, MayLog, OnlyDown, AddedAt, Recovered, EverIn;
    AddedByEdit(p.db, a, l);
    assert NotProduced(p, h.number);
  }

  lemma MovedIsUnused(p: Process, records: seq<Record>, c: Compaction, m: nat, f: File, h: File)
    requires BeforeCommit(p, records, MoveFile(c)) && c.level < m < NUM_LEVELS
    requires f in c.inputs0 && h in EverIn(records, m)
    ensures f.number != h.number
  {
    hide Shape, Complete, EntersOnce, Selected, AddedAt, Recovered, EverIn;
    MoveInputs(p.db, c);
    assert OnlyDown(p.db.current, records);
  }

  lemma CommitAddsNew(p: Process, records: seq<Record>, a: Action)
    requires BeforeCommit(p, records, a)
    ensures AddsNew(records, EditOf(p.db, a))
  {
    hide BeforeCommit, AddedAt, EverIn;
    forall l | 0 <= l < NUM_LEVELS
      ensures DistinctNumbers(AddedAt(EditOf(p.db, a).added, l))
          && DifferentNumbers(EverIn(records, l), AddedAt(EditOf(p.db, a).added, l))
    {
      AddedDistinct(p, records, a, l);
      forall h, f | h in EverIn(records, l) && f in AddedAt(EditOf(p.db, a).added, l) ensures h.number != f.number {
        if a.MoveFile? {
          MovedLevel(p, records, a.c, l);
          MovedIsUnused(p, records, a.c, l, f, h);
        } else {
          AddedIsUnused(p, records, a, l, l, f, h);
        }
      }
    }
  }

  lemma MovedLevel(p: Process, records: seq<Record>, c: Compaction, l: nat)
    requires BeforeCommit(p, records, MoveFile(c)) && l < NUM_LEVELS
    ensures AddedAt(EditOf(p.db, MoveFile(c)).added, l) == if l == c.level + 1 then c.inputs0 else []
  {
    hide Shape, Complete, EntersOnce, Selected, AddedAt, Recovered, EverIn, NumbersUsed;
    AddedByEdit(p.db, MoveFile(c), l);
  }

  lemma AddedDistinct(p: Process, records: seq<Record>, a: Action, l: nat)
    requires BeforeCommit(p, records, a) && l < NUM_LEVELS
    ensures DistinctNumbers(AddedAt(EditOf(p.db, a).added, l))
  {
    hide Shape, Complete, EntersOnce, Recovered, EverIn, NumbersUsed, Selected, OutputsOf, MaySkipTo, AddedAt;
    AddedByEdit(p.db, a, l);
  }

  /** Files still only move down after the change. */
  lemma CommitOnlyDown(p: Process, records: seq<Record>, a: Action, r: Record)
    requires BeforeCommit(p, records, a) && r.edit == EditOf(p.db, a)
    ensures OnlyDown(Next(p.db, a).current, records + [r])
  {
    hide BeforeCommit, AddedAt, EverIn, Next;
    assert MayLog(p.db, a) && Shape(p.db) by { CommitMayLog(p, records, a); }
    var w := Next(p.db, a).current;
    forall l, m, f, h | 0 <= l < m < NUM_LEVELS && f in w.files[l] && h in EverIn(records + [r], m)
      ensures f.number != h.number {
      AppendedEdits(records, r, m);
      AfterFiles(p.db, a, l, f);
      CommitPair(p, records, a, l, m, f, h);
    }
  }

  lemma CommitMayLog(p: Process, records: seq<Record>, a: Action)
    requires BeforeCommit(p, records, a)
    ensures MayLog(p.db, a) && Shape(p.db) && TaskOk(p)
  {
  }

  lemma CommitPair(p: Process, records: seq<Record>, a: Action, l: nat, m: nat, f: File, h: File)
    requires BeforeCommit(p, records, a) && 0 <= l < m < NUM_LEVELS
    requires f in p.db.current.files[l] || f in AddedAt(EditOf(p.db, a).added, l)
    requires a.MoveFile? && l == a.c.level ==> f in p.db.current.files[l] && f !in a.c.inputs0
    requires h in EverIn(records, m) || h in AddedAt(EditOf(p.db, a).added, m)
    ensures f.number != h.number
  {
    hide AddedAt, EverIn, MayLogNow, Shape, Complete, TaskOk, EntersOnce;
    if h in EverIn(records, m) {
      if f in p.db.current.files[l] {
        assert OnlyDown(p.db.current, records);
      } else if a.MoveFile? {
        MovedLevel(p, records, a.c, l);
        MovedIsUnused(p, records, a.c, m, f, h);
      } else {
        AddedIsUnused(p, records, a, l, m, f, h);
      }
    } else if f in p.db.current.files[l] {
      if a.MoveFile? {
        MovedIsAnother(p, records, a.c, l, m, f, h);
      } else {
        RecoveredWereAdded(records, l, f);
        AddedIsUnused(p, records, a, m, l, h, f);
      }
    } else {
      OneLevelAdded(p, records, a, l, m, f, h);
    }
  }

  lemma MovedIsAnother(p: Process, records: seq<Record>, c: Compaction, l: nat, m: nat, f: File, h: File)
    requires BeforeCommit(p, records, MoveFile(c)) && 0 <= l < m < NUM_LEVELS
    requires f in p.db.current.files[l] && (l == c.level ==> f !in c.inputs0)
    requires h in AddedAt(EditOf(p.db, MoveFile(c)).added, m)
    ensures f.number != h.number
  {
    hide Complete, EntersOnce, Selected, AddedAt, Recovered, EverIn, NumbersUsed, Ordered, AllFromHistory, WellShaped,
        RunningOk;
    MovedLevel(p, records, c, m);
    MoveInputs(p.db, c);
    assert NumbersOk(p.db.current, p.db.nextFileNumber);
  }

  lemma OneLevelAdded(p: Process, records: seq<Record>, a: Action, l: nat, m: nat, f: File, h: File)
    requires BeforeCommit(p, records, a) && l < NUM_LEVELS && m < NUM_LEVELS
    requires f in AddedAt(EditOf(p.db, a).added, l) && h in AddedAt(EditOf(p.db, a).added, m)
    ensures l == m
  {
    hide Shape, Complete, EntersOnce, MayLog, Recovered, EverIn, NumbersUsed, AddedAt;
    AddedByEdit(p.db, a, l);
    AddedByEdit(p.db, a, m);
  }

  // ---- the append ----

  lemma VersionOkLater(v: Version, n: nat, m: nat)
    requires VersionOk(v, n) && n <= m
    ensures VersionOk(v, m)
  {
  }

  lemma CommittedVersionOk(p: Process, x: Action)
    requires Shape(p.db) && TaskOk(p) && MayLogNow(p, x) && p.db.nextFileNumber <= p.nextFile
    ensures VersionOk(Next(p.db, x).current, p.nextFile) && Next(p.db, x).nextFileNumber <= p.nextFile
  {
    hide Shape, Complete, VersionOk, MaySkipTo, Straddled, Selected, OutputsOf, FreshOutputs;
    NextKeepsShape(p.db, x);
    ShapeHasVersion(Next(p.db, x));
    VersionOkLater(Next(p.db, x).current, Next(p.db, x).nextFileNumber, p.nextFile);
  }

  lemma LoggedTaskOk(p: Process, x: Action)
    requires Shape(p.db) && TaskOk(p) && MayLogNow(p, x)
    ensures TaskOk(p.(task := Logged(x))) && !p.task.Logged?
  {
    hide Shape, MaySkipTo, Straddled, Selected, OutputsOf, FreshOutputs;
  }

  lemma LoggedNumbers(d: Disk, p: Process, records: seq<Record>, x: Action, r: Record)
    requires BeforeCommit(p, records, x) && r.edit == EditOf(p.db, x) && TablesOk(d, p)
    ensures TaskOk(p.(task := Logged(x))) && NumbersUsed(p.(task := Logged(x)), records + [r])
  {
    hide Complete, EntersOnce, AddedAt, EverIn, OnlyDown, Ordered, AllFromHistory, SnapshotsOk, VersionOk, RunningOk,
        MayLog, CanFlush;
    var q := p.(task := Logged(x));
    LoggedTaskOk(p, x);
    CommitOnlyDown(p, records, x, r);
    forall l, f | 0 <= l < NUM_LEVELS && f in EverIn(records + [r], l)
      ensures f.number < p.nextFile && NotProduced(q, f.number) {
      AppendedEdits(records, r, l);
      if f !in EverIn(records, l) {
        AddedNumber(d, p, records, x, l, f);
      } else {
        assert NotProduced(p, f.number);
      }
    }
  }

  lemma AddedNumber(d: Disk, p: Process, records: seq<Record>, x: Action, l: nat, f: File)
    requires BeforeCommit(p, records, x) && TablesOk(d, p) && l < NUM_LEVELS && f in AddedAt(EditOf(p.db, x).added, l)
    ensures f.number < p.nextFile && NotProduced(p.(task := Logged(x)), f.number)
    ensures Needed(p, f)
  {
    hide Complete, EntersOnce, AddedAt, EverIn, OnlyDown, Ordered, AllFromHistory, SnapshotsOk, VersionOk, RunningOk,
        Selected, MaySkipTo,
         Straddled, OutputsOf, FreshOutputs, FilePresent, Recovered;
    AddedByEdit(p.db, x, l);
    if x.MoveFile? {
      MoveInputs(p.db, x.c);
      assert f in p.db.current.files[x.c.level];
      RecoveredWereAdded(records, x.c.level, f);
      assert NotProduced(p, f.number);
    }
    assert Needed(p, f);
  }

  lemma LoggedTables(d: Disk, p: Process, records: seq<Record>, x: Action)
    requires BeforeCommit(p, records, x) && TablesOk(d, p) && TaskOk(p.(task := Logged(x)))
    ensures TablesOk(d, p.(task := Logged(x)))
  {
    hide BeforeCommit, Shape, Complete, AddedAt, FilePresent, MayLog, CanFlush, Next;
    var q := p.(task := Logged(x));
    assert MayLog(p.db, x) && Shape(p.db) && TaskOk(p) by { CommitMayLog(p, records, x); }
    forall f | Needed(q, f) ensures Needed(p, f) {
      if InSomeLevel(AfterVersion(q), f) {
        var l :| 0 <= l < NUM_LEVELS && f in AfterVersion(q).files[l];
        AfterFiles(p.db, x, l, f);
        if f !in p.db.current.files[l] {
          AddedNumber(d, p, records, x, l, f);
        }
      }
    }
  }

  lemma LoggedManifest(d: Disk, p: Process, a: nat, g: nat, x: Action)
    requires MemOk(p, a, g) && TaskOk(p) && ManifestOk(d, p, a, g) && TablesOk(d, p) && MayLogNow(p, x)
    requires p.logfile in d.logs && p.logNumber < p.nextFile && p.logfile < p.nextFile
    ensures TaskOk(p.(task := Logged(x))) && ManifestOk(NextDisk(d, p, LogChange(x)), p.(task := Logged(x)), a, g)
  {
    hide Shape, Complete, MemRange, StoredUpTo, VersionOk, TablesOk, EntersOnce, NumbersUsed, Recovered, Next,
        LogNumber, NextFile, LastSequence, MayLog,
         EditOf, ApplyEdit, CanFlush;
    var q, records, r := p.(task := Logged(x)), Head(d), RecordOf(p, x);
    LoggedTaskOk(p, x);
    assert BeforeCommit(p, records, x);
    CommitAddsNew(p, records, x);
    RecoverAppended(records, r);
    EditDoesIt(p.db, x);
    CountersOfAppend(records, r);
    LoggedNumbers(d, p, records, x, r);
    CommittedVersionOk(p, x);
  }

  lemma LogsNumbered(d: Disk, p: Process, a: nat, g: nat)
    requires a <= g <= |p.db.ops| && LogsOk(d, p, a, g)
    ensures p.logNumber < p.nextFile && p.logfile < p.nextFile
  {
  }

  lemma LogChangeKeeps(d: Disk, p: Process, a: nat, g: nat, x: Action)
    requires UpOk(d, p, a, g) && CanStep(p, LogChange(x))
    ensures UpOk(NextDisk(d, p, LogChange(x)), NextProcess(p, LogChange(x)), a, g)
  {
    hide Shape, Complete, MemRange, StoredUpTo, VersionOk, EntersOnce, NumbersUsed, Recovered, Next, LogsOk, Needed,
        RecordOf, MayLogNow, CanFlush, MayLog;
    FilesAtHand(d, p, a, g);
    var e, q := NextDisk(d, p, LogChange(x)), NextProcess(p, LogChange(x));
    CanLogIsMayLog(p, x);
    LoggedTaskOk(p, x);
    LogsNumbered(d, p, a, g);
    LoggedManifest(d, p, a, g, x);
    LoggedTables(d, p, Head(d), x);
    SameLogs(d, e, p, q, a, g);
  }

  // ---- the installation ----

  lemma InstalledManifest(d: Disk, p: Process, q: Process, a: nat, g: nat)
    requires Shape(p.db) && TaskOk(p) && ManifestOk(d, p, a, g) && TablesOk(d, p) && p.task.Logged? && Shape(q.db)
    requires q == p.(db := Next(p.db, p.task.action), logNumber := AfterLog(p), task := Idle,
                     outputs := if p.task.action.InstallOutputs? then [] else p.outputs)
    ensures ManifestOk(d, q, UpTo(p, a, g), g) && TablesOk(d, q)
  {
    hide Shape, Complete, VersionOk, EntersOnce, Recovered, OnlyDown, MayLog, EverIn, InSomeLevel, FilePresent,
        LogNumber, NextFile, LastSequence, Next;
    assert AfterVersion(q) == AfterVersion(p);
    assert |q.db.ops| == |p.db.ops| by { AfterKeepsShape(p); }
    assert q.db.running == if p.task.action.InstallOutputs? then None
        else p.db.running by { RunningAfter(p.db, p.task.action); }
    forall l, f | 0 <= l < NUM_LEVELS && f in EverIn(Head(d), l) ensures NotProduced(q, f.number) {
      assert NotProduced(p, f.number);
    }
    InstalledNeeds(p, q);
  }

  lemma InstalledNeeds(p: Process, q: Process)
    requires Shape(p.db) && TaskOk(p) && p.task.Logged? && Shape(q.db) && q.task.Idle?
    requires q.db.current == AfterVersion(p) && (q.db.running.Some? ==> q.db.running == p.db.running)
    requires q.live == p.live && (forall f :: f in q.outputs ==> f in p.outputs)
    ensures forall f :: Needed(q, f) ==> Needed(p, f)
  {
    hide Shape, MayLog, InSomeLevel, Next;
  }

  lemma RunningAfter(db: Db, x: Action)
    requires Shape(db) && MayLog(db, x)
    ensures Next(db, x).running == if x.InstallOutputs? then None else db.running
  {
    hide Shape, CanFlush, CanMove, CanInstall, ApplyEdit;
    if x.InstallOutputs? { InstallNeedsRunning(db, x.outputs, x.next); }
  }

  lemma InstalledMem(p: Process, q: Process, a: nat, g: nat)
    requires MemOk(p, a, g) && TaskOk(p) && p.task.Logged?
    requires q == p.(db := Next(p.db, p.task.action), logNumber := AfterLog(p), task := Idle,
                     outputs := if p.task.action.InstallOutputs? then [] else p.outputs)
    ensures MemOk(q, UpTo(p, a, g), g)
  {
    hide Shape, Complete, MemRange, StoredUpTo, MayLog, Next;
    AfterKeepsShape(p);
    AfterStoredUpTo(p, a, g);
    NextFileAfter(p);
  }

  lemma NextFileAfter(p: Process)
    requires Shape(p.db) && TaskOk(p) && p.task.Logged? && p.db.nextFileNumber <= p.nextFile
    ensures Next(p.db, p.task.action).nextFileNumber <= p.nextFile
  {
    hide Shape, CanMove, Selected, ApplyEdit, OutputsOf, FreshOutputs, MaySkipTo, Straddled;
  }

  lemma InstalledLogs(d: Disk, p: Process, q: Process, a: nat, g: nat)
    requires a <= g <= |p.db.ops| && LogsOk(d, p, a, g) && p.task.Logged?
    requires q.db.ops == p.db.ops && q.logfile == p.logfile && q.inflight == p.inflight && q.nextFile == p.nextFile
        && q.logNumber == AfterLog(p)
    requires q.db.imm == if IsFlush(p.task.action) then None else p.db.imm
    requires IsFlush(p.task.action) ==> p.db.imm.Some?
    ensures LogsOk(d, q, UpTo(p, a, g), g)
  {
    hide Chain, OpsOf;
  }

  lemma InstallChangeKeeps(d: Disk, p: Process, a: nat, g: nat)
    requires UpOk(d, p, a, g) && CanStep(p, InstallChange)
    ensures UpOk(d, NextProcess(p, InstallChange), UpTo(p, a, g), g)
  {
    hide Shape, Complete, MemRange, StoredUpTo, ManifestOk, TablesOk, LogsOk, MayLog, Next;
    var q := NextProcess(p, InstallChange);
    AfterKeepsShape(p);
    InstalledMem(p, q, a, g);
    InstalledManifest(d, p, q, a, g);
    if IsFlush(p.task.action) { FlushNeedsImm(p.db, p.task.action); }
    InstalledLogs(d, p, q, a, g);
  }
}
