/** What the files of a database say at any moment, and how a running process
    relates to them. */
module DurableState {
  import opened InternalKeys
  import opened Versions
  import opened History
  import opened LsmState
  import opened LsmSteps
  import opened LsmRuns
  import opened WriteAheadLog
  import opened Manifests

  /** The directory: finished tables, and the whole records of the logs and
      manifests.  A torn last record reads as if it had not been appended, and
      CURRENT is replaced by a rename. */
  datatype Disk = Disk(tables: map<nat, seq<Entry>>, logs: Logs, manifests: map<nat, seq<Record>>, currentManifest: nat)

  ghost predicate FilePresent(d: Disk, f: File) {
    f.number in d.tables && d.tables[f.number] == f.entries
  }

  ghost predicate InSomeLevel(v: Version, f: File) {
    exists l :: 0 <= l < NUM_LEVELS && f in v.files[l]
  }

  ghost predicate TablesPresent(d: Disk, v: Version) {
    forall f :: InSomeLevel(v, f) ==> FilePresent(d, f)
  }

  ghost predicate StoredUpTo(v: Version, a: nat) {
    forall e :: InVersion(v, e) ==> e.key.sqn <= a
  }

  /** The logs from number n on hold operations a+1, a+2, ... of `ops`. */
  ghost predicate LogsHold(logs: Logs, n: nat, ops: seq<Op>, a: nat)
    requires a <= |ops|
  {
    forall top: nat :: BoundedBy(logs, top) && n <= top ==>
      Chain(Stream(logs, n, top), a) && OpsOf(Stream(logs, n, top)) == ops[a..]
  }

  /** The database that a replay of the logs over the version would make. */
  function Image(v: Version, ops: seq<Op>, a: nat, next: nat): Db
    requires a <= |ops| <= MAX_SEQUENCE_NUMBER
  {
    Db(MemRange(ops, a, |ops|), None, v, next, [], None, ops, |ops|)
  }

  /** The counters every manifest that CURRENT may name must give. */
  ghost predicate HasCounters(records: seq<Record>) {
    LogNumber(records).Some? && NextFile(records).Some? && LastSequence(records).Some?
  }

  ghost predicate HeadOk(d: Disk) {
    && d.currentManifest in d.manifests
    && HasCounters(d.manifests[d.currentManifest])
    && d.currentManifest < NextFile(d.manifests[d.currentManifest]).value
    && LogNumber(d.manifests[d.currentManifest]).value < NextFile(d.manifests[d.currentManifest]).value
  }

  function Head(d: Disk): seq<Record>
    requires d.currentManifest in d.manifests
  {
    d.manifests[d.currentManifest]
  }

  /** The files hold exactly the history `ops`: operations up to a in tables,
      the rest in logs. */
  ghost predicate Durable(d: Disk, ops: seq<Op>, a: nat) {
    && a <= |ops| < MAX_SEQUENCE_NUMBER
    && HeadOk(d)
    && var records := Head(d);
    && a <= LastSequence(records).value <= |ops|
    && TablesPresent(d, Recovered(records)) && StoredUpTo(Recovered(records), a)
    && Shape(Image(Recovered(records), ops, a, NextFile(records).value))
    && LogsHold(d.logs, LogNumber(records).value, ops, a)
  }

  /** What the files say the database is. */
  function DiskDb(d: Disk, ops: seq<Op>, a: nat): Db
    requires HeadOk(d) && a <= |ops| <= MAX_SEQUENCE_NUMBER
  {
    Image(Recovered(Head(d)), ops, a, NextFile(Head(d)).value)
  }

  // ---- a running process ----

  /** The background thread: between jobs; with the table of a flush written;
      with the record of a change appended to the manifest and the change not
      yet installed in memory. */
  datatype Task = Idle | TableWritten(level: nat, file: File) | Logged(action: Action)

  /** `nextFile` counts file numbers; `inflight` is a batch in the log but not
      yet in the memtable; `outputs` the tables the compaction in progress has
      written (pending_outputs_); `live` versions held by readers. */
  datatype Process = Process(db: Db, nextFile: nat, logfile: nat, logNumber: nat, manifest: nat,
                             inflight: Option<seq<Op>>, task: Task, outputs: seq<File>, live: seq<Version>)

  predicate ChangesVersion(a: Action) {
    a.FlushTo? || a.FlushEmpty? || a.InstallOutputs? || a.MoveFile?
  }

  predicate IsFlush(a: Action) {
    a.FlushTo? || a.FlushEmpty?
  }

  ghost predicate MayLog(db: Db, a: Action) {
    ChangesVersion(a) && Enabled(db, a) && Apart(db, a)
  }

  /** The version that the manifest already names. */
  ghost function AfterVersion(p: Process): Version
    requires Shape(p.db) && (p.task.Logged? ==> MayLog(p.db, p.task.action))
  {
    if p.task.Logged? then Next(p.db, p.task.action).current else p.db.current
  }

  function AfterLog(p: Process): nat {
    if p.task.Logged? && IsFlush(p.task.action) then p.logfile else p.logNumber
  }

  function Pending(p: Process): seq<Op> {
    if p.inflight.Some? then p.inflight.value else []
  }

  /** Operations 1..a are in tables, a+1..g in the immutable memtable and the
      rest in the memtable. */
  ghost predicate MemOk(p: Process, a: nat, g: nat) {
    && Shape(p.db) && a <= g <= |p.db.ops|
    && p.db.mem == MemRange(p.db.ops, g, |p.db.ops|)
    && (if p.db.imm.None? then a == g else p.db.imm.value == MemRange(p.db.ops, a, g))
    && StoredUpTo(p.db.current, a)
    && p.db.nextFileNumber <= p.nextFile
    && |p.db.ops| + |Pending(p)| < MAX_SEQUENCE_NUMBER
  }

  ghost predicate TaskOk(p: Process)
    requires Shape(p.db)
  {
    match p.task
    case Idle => true
    case TableWritten(level, f) =>
      && CanFlush(p.db, level, f) && FlushApart(p.db, level, f)
      && f.number < p.nextFile && (forall o :: o in p.outputs ==> o.number != f.number)
    case Logged(a) => MayLog(p.db, a) && (a.FlushTo? ==>
        a.file.number < p.nextFile) && (a.InstallOutputs? ==> a.next <= p.nextFile)
  }

  function UpTo(p: Process, a: nat, g: nat): nat {
    if p.task.Logged? && IsFlush(p.task.action) then g else a
  }

  /** Every file a level has had is older than nextFile and not one of the
      tables still being produced; files only move down. */
  ghost predicate NumbersUsed(p: Process, records: seq<Record>)
    requires Shape(p.db) && TaskOk(p)
  {
    && (forall l, f ::
        0 <= l < NUM_LEVELS && f in EverIn(records, l) ==> f.number < p.nextFile && NotProduced(p, f.number))
    && OnlyDown(AfterVersion(p), records)
  }

  /** The number belongs to no table still outside the manifest. */
  ghost predicate NotProduced(p: Process, n: nat) {
    && (p.task.TableWritten? ==> p.task.file.number != n)
    && (!(p.task.Logged? && p.task.action.InstallOutputs?) ==> forall o :: o in p.outputs ==> o.number != n)
  }

  ghost predicate OnlyDown(v: Version, records: seq<Record>) {
    forall l, m, f, h :: 0 <= l < m < NUM_LEVELS && f in v.files[l] && h in EverIn(records, m) ==> f.number != h.number
  }

  ghost predicate ManifestOk(d: Disk, p: Process, a: nat, g: nat)
    requires Shape(p.db) && TaskOk(p)
  {
    && HeadOk(d) && d.currentManifest == p.manifest
    && var records := Head(d);
    && EntersOnce(records) && NumbersUsed(p, records)
    && LogNumber(records) == Some(AfterLog(p))
    && NextFile(records).value <= p.nextFile && VersionOk(AfterVersion(p), NextFile(records).value)
    && UpTo(p, a, g) <= LastSequence(records).value <= |p.db.ops|
    && Recovered(records) == AfterVersion(p)
  }

  /** The files nobody may delete. */
  ghost predicate Needed(p: Process, f: File)
    requires Shape(p.db) && TaskOk(p)
  {
    || InSomeLevel(p.db.current, f) || InSomeLevel(AfterVersion(p), f)
    || (p.db.running.Some? && InSomeLevel(p.db.running.value.base, f))
    || (exists i :: 0 <= i < |p.live| && InSomeLevel(p.live[i], f))
    || f in p.outputs
    || (p.task.TableWritten? && f == p.task.file)
  }

  ghost predicate TablesOk(d: Disk, p: Process)
    requires Shape(p.db) && TaskOk(p)
  {
    forall f :: Needed(p, f) ==> f.number < p.nextFile && FilePresent(d, f)
  }

  ghost predicate LogsOk(d: Disk, p: Process, a: nat, g: nat)
    requires a <= g <= |p.db.ops|
  {
    && p.logfile in d.logs && p.logfile < p.nextFile && BoundedBy(d.logs, p.nextFile)
    && (forall n :: n in d.logs && n >= p.logNumber ==> n == p.logNumber || n == p.logfile)
    && Chain(d.logs[p.logfile], g) && OpsOf(d.logs[p.logfile]) == p.db.ops[g..] + Pending(p)
    && (if p.db.imm.None? then p.logNumber == p.logfile
        else
          && p.logNumber < p.logfile && p.logNumber in d.logs
          && Chain(d.logs[p.logNumber], a) && OpsOf(d.logs[p.logNumber]) == p.db.ops[a..g])
  }

  ghost predicate UpOk(d: Disk, p: Process, a: nat, g: nat) {
    MemOk(p, a, g) && TaskOk(p) && ManifestOk(d, p, a, g) && TablesOk(d, p) && LogsOk(d, p, a, g)
  }
}
