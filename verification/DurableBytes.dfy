/** The files of a database as bytes.  A crash may cut the append that is under
    way anywhere; reading the bytes back gives exactly the records that the
    machine of DurableRuns has after the crash. */
module DurableBytes {
  import opened Coding
  import opened WriteAheadLog
  import opened Manifests
  import opened DurableState
  import opened DurableSteps
  import opened CrashRecovery
  import opened DurableRuns
  import opened DurableReads
  import opened InternalKeys
  import opened LsmState
  import opened History
  import LsmRuns
  import LogFormat
  import LogRoundTrip
  import TornAppends
  import EditCoding

  /** How operations and manifest records are written; the checksum is any
      function. */
  datatype Codes = Codes(crc: LogFormat.Checksum, op: TornAppends.Code, edit: Record -> EditCoding.Edit)

  // ---- one file ----

  function LogBytes(codes: Codes, batches: seq<Batch>): seq<byte> {
    LogFormat.Image(codes.crc, TornAppends.LogRecords(codes.op, batches))
  }

  function EncodedRecords(codes: Codes, records: seq<Record>): (r: seq<seq<byte>>)
    ensures |r| == |records|
    ensures forall i :: 0 <= i < |records| ==> r[i] == EditCoding.Encoded(codes.edit(records[i]))
  {
    seq(|records|, i requires 0 <= i < |records| => EditCoding.Encoded(codes.edit(records[i])))
  }

  function ManifestBytes(codes: Codes, records: seq<Record>): seq<byte> {
    LogFormat.Image(codes.crc, EncodedRecords(codes, records))
  }

  /** VersionSet::Recover decodes every record into a new edit. */
  function EditsIn(records: seq<seq<byte>>): (r: seq<EditCoding.Decoded>)
    ensures |r| == |records|
    ensures forall i :: 0 <= i < |records| ==> r[i] == EditCoding.DecodeFields(EditCoding.BLANK, records[i])
  {
    seq(|records|, i requires 0 <= i < |records| => EditCoding.DecodeFields(EditCoding.BLANK, records[i]))
  }

  function EditsOf(codes: Codes, records: seq<Record>): (r: seq<EditCoding.Decoded>)
    ensures |r| == |records|
    ensures forall i :: 0 <= i < |records| ==> r[i] == EditCoding.Decoded(codes.edit(records[i]), true)
  {
    seq(|records|, i requires 0 <= i < |records| => EditCoding.Decoded(codes.edit(records[i]), true))
  }

  /** Recovery finds these batches, and nothing is reported as corrupt. */
  ghost predicate LogReadsAs(codes: Codes, bytes: seq<byte>, batches: seq<Batch>) {
    var found := TornAppends.RecordsIn(codes.crc, bytes);
    found.drops == [] && TornAppends.RecoverRecords(found.records) == TornAppends.Coded(codes.op, batches)
  }

  ghost predicate ManifestReadsAs(codes: Codes, bytes: seq<byte>, records: seq<Record>) {
    var found := TornAppends.RecordsIn(codes.crc, bytes);
    found.drops == [] && EditsIn(found.records) == EditsOf(codes, records)
  }

  ghost predicate RecordsFit(codes: Codes, records: seq<Record>) {
    forall i :: 0 <= i < |records| ==> EditCoding.EditFits(codes.edit(records[i]))
  }

  lemma WholeFile(crc: LogFormat.Checksum, records: seq<seq<byte>>)
    ensures TornAppends.RecordsIn(crc, LogFormat.Image(crc, records)) == LogRoundTrip.Contents(records, [])
  {
    hide LogFormat.Image, LogRoundTrip.Surviving, LogRoundTrip.EndOf;
    var bytes := LogFormat.Image(crc, records);
    assert LogRoundTrip.EndOf(crc, records, |records|) == |bytes| by {
      assert records[..|records|] == records;
      EndOfAll(crc, records);
    }
    TornAppends.AllSurvive(crc, records, |records|, |bytes|);
    LogRoundTrip.LogRoundTrip(crc, true, records, |bytes|);
    assert bytes[..|bytes|] == bytes && records[..|records|] == records;
  }

  lemma EndOfAll(crc: LogFormat.Checksum, records: seq<seq<byte>>)
    ensures LogRoundTrip.EndOf(crc, records, |records|) == |LogFormat.Image(crc, records)|
  {
    assert records[..|records|] == records;
  }

  lemma WholeLog(codes: Codes, batches: seq<Batch>)
    requires TornAppends.AllLoggable(codes.op, batches)
    ensures LogReadsAs(codes, LogBytes(codes, batches), batches)
  {
    hide LogFormat.Image, TornAppends.RecordsIn, TornAppends.AllLoggable, TornAppends.LogRecords;
    WholeFile(codes.crc, TornAppends.LogRecords(codes.op, batches));
    TornAppends.BatchesAreRecovered(codes.op, batches);
  }

  lemma EditsAreRecovered(codes: Codes, records: seq<Record>)
    requires RecordsFit(codes, records)
    ensures EditsIn(EncodedRecords(codes, records)) == EditsOf(codes, records)
  {
    hide EditCoding.EditFits, EditCoding.Encoded, EditCoding.DecodeFields;
    forall i | 0 <= i < |records|
      ensures EditsIn(EncodedRecords(codes, records))[i] == EditsOf(codes, records)[i]
    {
      EditCoding.EditComesBackExactly(EditCoding.BLANK, codes.edit(records[i]));
    }
  }

  lemma WholeManifest(codes: Codes, records: seq<Record>)
    requires RecordsFit(codes, records)
    ensures ManifestReadsAs(codes, ManifestBytes(codes, records), records)
  {
    hide LogFormat.Image, TornAppends.RecordsIn, RecordsFit;
    WholeFile(codes.crc, EncodedRecords(codes, records));
    EditsAreRecovered(codes, records);
  }

  /** A record cut short is not there. */
  lemma TornManifest(codes: Codes, records: seq<Record>, last: Record, cut: nat)
    requires RecordsFit(codes, records)
    requires |ManifestBytes(codes, records)| <= cut < |ManifestBytes(codes, records + [last])|
    ensures ManifestReadsAs(codes, ManifestBytes(codes, records + [last])[..cut], records)
  {
    hide LogFormat.Image, TornAppends.RecordsIn, RecordsFit, EditCoding.Encoded, EditCoding.DecodeFields;
    assert EncodedRecords(codes, records + [last]) == EncodedRecords(codes, records)
        + [EditCoding.Encoded(codes.edit(last))];
    TornAppends.AppendIsAllOrNothing(codes.crc, EncodedRecords(codes, records),
        EditCoding.Encoded(codes.edit(last)), cut);
    EditsAreRecovered(codes, records);
  }

  lemma TornLog(codes: Codes, batches: seq<Batch>, last: Batch, cut: nat)
    requires TornAppends.AllLoggable(codes.op, batches + [last])
    requires |LogBytes(codes, batches)| <= cut < |LogBytes(codes, batches + [last])|
    ensures LogReadsAs(codes, LogBytes(codes, batches + [last])[..cut], batches)
  {
    hide LogFormat.Image, TornAppends.RecordsIn, TornAppends.AllLoggable, TornAppends.LogRecords;
    TornAppends.TornLogIsWholeBatches(codes.crc, codes.op, batches, last, cut);
  }

  // ---- all files ----

  datatype Files = Files(logs: map<nat, seq<byte>>, manifests: map<nat, seq<byte>>)

  /** What a recovery reads, all logs and the manifest CURRENT names, gives the
      records of d. */
  ghost predicate ReadsAs(codes: Codes, files: Files, d: Disk) {
    && (forall n :: n in d.logs ==> n in files.logs && LogReadsAs(codes, files.logs[n], d.logs[n]))
    && (d.currentManifest in d.manifests ==>
          d.currentManifest in files.manifests
          && ManifestReadsAs(codes, files.manifests[d.currentManifest], d.manifests[d.currentManifest]))
  }

  ghost predicate LogWhole(codes: Codes, files: Files, d: Disk, n: nat) {
    n in d.logs && n in files.logs && files.logs[n] == LogBytes(codes, d.logs[n])
  }

  ghost predicate ManifestWhole(codes: Codes, files: Files, d: Disk, n: nat) {
    n in d.manifests && n in files.manifests && files.manifests[n] == ManifestBytes(codes, d.manifests[n])
  }

  /** Files that will be written to again have whole records only. */
  ghost predicate Whole(codes: Codes, files: Files, x: Sys) {
    match x.proc
    case Down => true
    case Up(p) => LogWhole(codes, files, x.disk, p.logfile) && ManifestWhole(codes, files, x.disk, p.manifest)
    case Recovering(r) =>
      match r.stage
      case ReadingLogs => true
      case LogCreated(n) => LogWhole(codes, files, x.disk, n)
      case SnapshotWritten(n) => LogWhole(codes, files, x.disk, n) && ManifestWhole(codes, files, x.disk, r.baseNext)
      case RecordWritten(n) => LogWhole(codes, files, x.disk, n) && ManifestWhole(codes, files, x.disk, r.baseNext)
      case Switched(n) => LogWhole(codes, files, x.disk, n) && ManifestWhole(codes, files, x.disk, r.baseNext)
  }

  ghost predicate BytesOk(codes: Codes, files: Files, x: Sys) {
    ReadsAs(codes, files, x.disk) && Whole(codes, files, x)
  }

  /** Everything on the disk has an encoding: counters below 2^64 and so on. */
  ghost predicate Codable(codes: Codes, d: Disk) {
    && (forall n :: n in d.logs ==> TornAppends.AllLoggable(codes.op, d.logs[n]))
    && (forall n :: n in d.manifests ==> RecordsFit(codes, d.manifests[n]))
  }

  // ---- what an event writes ----

  datatype Target = NoFile | LogFile(n: nat) | ManifestFile(n: nat)

  function StepTarget(p: Process, s: Step): Target {
    match s
    case AppendBatch(_) => LogFile(p.logfile)
    case SwitchLog => LogFile(p.nextFile)
    case LogChange(_) => ManifestFile(p.manifest)
    case _ => NoFile
  }

  /** The file an event creates or appends to. */
  ghost function TargetOf(x: Sys, e: Event): Target
    requires CanHappen(x, e)
  {
    match e
    case Run(s) => StepTarget(x.proc.p, s)
    case Recover(s) => (
      match s
      case CreateLog => LogFile(Used(x.disk, x.proc.r.nextFile, x.proc.r.log))
      case WriteSnapshotRecord => ManifestFile(x.proc.r.baseNext)
      case AppendRecoveredRecord => ManifestFile(x.proc.r.baseNext)
      case _ => NoFile)
    case _ => NoFile
  }

  ghost predicate Possible(x: Sys, e: Event) {
    CanHappen(x, e) && HasFiles(x) && |x.acked + x.unacked| < MAX_SEQUENCE_NUMBER
  }

  function BytesOn(codes: Codes, d: Disk, target: Target): seq<byte> {
    match target
    case NoFile => []
    case LogFile(n) => if n in d.logs then LogBytes(codes, d.logs[n]) else []
    case ManifestFile(n) => if n in d.manifests then ManifestBytes(codes, d.manifests[n]) else []
  }

  /** The bytes of the target once the event is over. */
  ghost function NewBytes(codes: Codes, x: Sys, e: Event): seq<byte>
    requires Possible(x, e)
  {
    BytesOn(codes, Happen(x, e).disk, TargetOf(x, e))
  }

  ghost function With(files: Files, target: Target, bytes: seq<byte>): Files {
    match target
    case NoFile => files
    case LogFile(n) => files.(logs := files.logs[n := bytes])
    case ManifestFile(n) => files.(manifests := files.manifests[n := bytes])
  }

  ghost function After(codes: Codes, files: Files, x: Sys, e: Event): Files
    requires Possible(x, e)
  {
    With(files, TargetOf(x, e), NewBytes(codes, x, e))
  }

  /** How much of the target was there before: all of it for an append, nothing
      for a file that is made anew. */
  ghost function BytesBefore(files: Files, x: Sys, e: Event): nat
    requires Possible(x, e)
  {
    match TargetOf(x, e)
    case NoFile => 0
    case LogFile(n) => if e.Run? && e.step.AppendBatch? && n in files.logs then |files.logs[n]| else 0
    case ManifestFile(n) =>
      if !(e.Recover? && e.part.WriteSnapshotRecord?) && n in files.manifests then |files.manifests[n]| else 0
  }

  /** The process dies while event e is writing: only some of the bytes arrive. */
  ghost predicate CanTear(codes: Codes, files: Files, x: Sys, e: Event, cut: nat) {
    Possible(x, e) && BytesBefore(files, x, e) <= cut < |NewBytes(codes, x, e)|
  }

  ghost function Torn(codes: Codes, files: Files, x: Sys, e: Event, cut: nat): Files
    requires CanTear(codes, files, x, e, cut)
  {
    With(files, TargetOf(x, e), NewBytes(codes, x, e)[..cut])
  }

  // ---- what SysOk says of the files in use ----

  lemma FilesInUse(x: Sys, h: iset<Entry>)
    requires SysOk(x, h) && x.proc.Up?
    ensures var d, p := x.disk, x.proc.p;
      && p.logfile in d.logs && p.logNumber <= p.logfile < p.nextFile
      && p.manifest == d.currentManifest && p.manifest in d.manifests
  {
    hide Held, Shape, MemOk, TaskOk, TablesOk, Recovered, NumbersUsed, EntersOnce;
    var a, g :| UpHolds(x.disk, x.proc.p, a, g, h);
  }

  ghost predicate NotYetSwitched(x: Sys) {
    x.proc.Recovering? && !x.proc.r.stage.Switched?
  }

  lemma FilesInRecovery(x: Sys, h: iset<Entry>)
    requires SysOk(x, h) && NotYetSwitched(x)
    ensures x.disk.currentManifest in x.disk.manifests && x.proc.r.baseNext != x.disk.currentManifest
  {
    hide Held, Progress, Durable, Recovered;
    var d, r, ops := x.disk, x.proc.r, x.acked + x.unacked;
    var a, m :| RecoveringHolding(d, r, ops, a, m, h);
  }

  // ---- whole events ----

  /** Only the target differs. */
  ghost predicate OnlyTarget(d: Disk, e: Disk, target: Target) {
    && (forall n :: n in e.logs && target != LogFile(n) ==> n in d.logs && d.logs[n] == e.logs[n])
    && (e.currentManifest in e.manifests && target != ManifestFile(e.currentManifest) ==>
          e.currentManifest == d.currentManifest && e.currentManifest in d.manifests
          && d.manifests[e.currentManifest] == e.manifests[e.currentManifest])
  }

  lemma ReadsAfter(codes: Codes, files: Files, d: Disk, e: Disk, target: Target, bytes: seq<byte>)
    requires ReadsAs(codes, files, d) && OnlyTarget(d, e, target)
    requires target.LogFile? && target.n in e.logs ==> LogReadsAs(codes, bytes, e.logs[target.n])
    requires target == ManifestFile(e.currentManifest) && e.currentManifest in e.manifests
        ==> ManifestReadsAs(codes, bytes, e.manifests[e.currentManifest])
    ensures ReadsAs(codes, With(files, target, bytes), e)
  {
    hide LogReadsAs, ManifestReadsAs;
  }

  /** The target's new bytes read as its new records. */
  lemma TargetReads(codes: Codes, x: Sys, e: Event)
    requires Possible(x, e) && Codable(codes, Happen(x, e).disk)
    ensures var d, target, bytes := Happen(x, e).disk, TargetOf(x, e), NewBytes(codes, x, e);
      && (target.LogFile? && target.n in d.logs ==> LogReadsAs(codes, bytes, d.logs[target.n]))
      && (target.ManifestFile? && target.n in d.manifests ==> ManifestReadsAs(codes, bytes, d.manifests[target.n]))
  {
    hide CanHappen, Happen, LogReadsAs, ManifestReadsAs, LogBytes, ManifestBytes, TargetOf, RecordsFit;
    var d := Happen(x, e).disk;
    match TargetOf(x, e)
    case NoFile =>
    case LogFile(n) => if n in d.logs { WholeLog(codes, d.logs[n]); }
    case ManifestFile(n) => if n in d.manifests { WholeManifest(codes, d.manifests[n]); }
  }

  lemma StepTouchesTarget(x: Sys, s: Step, h: iset<Entry>)
    requires SysOk(x, h) && Possible(x, Run(s))
    ensures OnlyTarget(x.disk, Happen(x, Run(s)).disk, TargetOf(x, Run(s)))
  {
    hide SysOk, Shape, TaskOk, CanStep, NextProcess, NextDisk, OnlyTarget, StepTarget;
    FilesInUse(x, h);
    DiskTouchesTarget(x.disk, x.proc.p, s);
  }

  lemma DiskTouchesTarget(d: Disk, p: Process, s: Step)
    requires p.logfile in d.logs && p.manifest in d.manifests
    ensures OnlyTarget(d, NextDisk(d, p, s), StepTarget(p, s))
  {
    hide RecordOf;
  }

  lemma RecoveryTouchesTarget(x: Sys, s: RecoveryStep, h: iset<Entry>)
    requires SysOk(x, h) && Possible(x, Recover(s)) && !s.SetCurrent?
    ensures OnlyTarget(x.disk, Happen(x, Recover(s)).disk, TargetOf(x, Recover(s)))
  {
    hide TableOf, InBounds, SysOk, BatchesOf;
    FilesInRecovery(x, h);
  }

  lemma SwitchReads(codes: Codes, files: Files, x: Sys, h: iset<Entry>)
    requires SysOk(x, h) && Possible(x, Recover(SetCurrent)) && BytesOk(codes, files, x) && Codable(codes, x.disk)
    ensures ReadsAs(codes, files, Happen(x, Recover(SetCurrent)).disk)
  {
    hide SysOk, LogReadsAs, ManifestReadsAs, ManifestBytes, LogBytes, RecordsFit;
    var r := x.proc.r;
    WholeManifest(codes, x.disk.manifests[r.baseNext]);
  }

  lemma ReadsAfterEvent(codes: Codes, files: Files, x: Sys, e: Event, h: iset<Entry>)
    requires SysOk(x, h) && Possible(x, e) && BytesOk(codes, files, x)
    requires Codable(codes, x.disk) && Codable(codes, Happen(x, e).disk)
    ensures ReadsAs(codes, After(codes, files, x, e), Happen(x, e).disk)
  {
    hide SysOk, CanHappen, Happen, HasFiles, ReadsAs, Whole, NewBytes, OnlyTarget, Codable, LogReadsAs, ManifestReadsAs,
        TargetOf;
    if e == Recover(SetCurrent) {
      SwitchReads(codes, files, x, h);
      NothingElse(x, e);
    } else if e.Run? || e.Recover? {
      TargetReads(codes, x, e);
      if e.Run? {
        StepTouchesTarget(x, e.step, h);
      } else {
        RecoveryTouchesTarget(x, e.part, h);
      }
      ReadsAfter(codes, files, x.disk, Happen(x, e).disk, TargetOf(x, e), NewBytes(codes, x, e));
    } else {
      NothingElse(x, e);
    }
  }

  lemma NothingElse(x: Sys, e: Event)
    requires Possible(x, e) && (e.Crash? || e.Start? || e.Open? || e == Recover(SetCurrent))
    ensures TargetOf(x, e) == NoFile && (!e.Recover? ==> Happen(x, e).disk == x.disk)
  {
  }

  /** What the next process or recovery will append to. */
  lemma WholeAfterStep(codes: Codes, files: Files, x: Sys, s: Step, h: iset<Entry>)
    requires SysOk(x, h) && Possible(x, Run(s)) && Whole(codes, files, x)
    ensures Whole(codes, After(codes, files, x, Run(s)), Happen(x, Run(s)))
  {
    hide SysOk, Shape, TaskOk, CanStep, NextProcess, NextDisk, StepTarget, BytesOn, With, LogWhole, ManifestWhole;
    FilesInUse(x, h);
    var p := x.proc.p;
    NextFilesInUse(p, s);
    DeletesOthers(p, s);
    StaysWhole(codes, files, x.disk, p, s);
  }

  lemma NextFilesInUse(p: Process, s: Step)
    requires Shape(p.db) && TaskOk(p) && CanStep(p, s) && |p.db.ops| + |Pending(p)| < MAX_SEQUENCE_NUMBER
    ensures NextProcess(p, s).manifest == p.manifest
    ensures NextProcess(p, s).logfile == if s.SwitchLog? then p.nextFile else p.logfile
  {
    hide Shape, TaskOk, CanStep;
  }

  lemma DeletesOthers(p: Process, s: Step)
    requires Shape(p.db) && TaskOk(p) && CanStep(p, s) && p.logNumber <= p.logfile
    ensures s != DeleteLog(p.logfile) && s != DeleteManifest(p.manifest)
  {
    hide Shape, TaskOk, Live, CanLog;
  }

  lemma StaysWhole(codes: Codes, files: Files, d: Disk, p: Process, s: Step)
    requires LogWhole(codes, files, d, p.logfile) && ManifestWhole(codes, files, d, p.manifest)
    requires s != DeleteLog(p.logfile) && s != DeleteManifest(p.manifest)
    ensures var e, target := NextDisk(d, p, s), StepTarget(p, s);
      var later := With(files, target, BytesOn(codes, e, target));
      && LogWhole(codes, later, e, if s.SwitchLog? then p.nextFile else p.logfile)
      && ManifestWhole(codes, later, e, p.manifest)
  {
    hide LogBytes, ManifestBytes, RecordOf;
  }

  lemma WholeAfterRecovery(codes: Codes, files: Files, x: Sys, s: RecoveryStep, h: iset<Entry>)
    requires SysOk(x, h) && Possible(x, Recover(s)) && Whole(codes, files, x)
    ensures Whole(codes, After(codes, files, x, Recover(s)), Happen(x, Recover(s)))
  {
    hide TableOf, InBounds, SysOk, BatchesOf, LogBytes, ManifestBytes;
  }

  lemma WholeAfterOpen(codes: Codes, files: Files, x: Sys, e: Event)
    requires Possible(x, e) && Whole(codes, files, x) && (e.Crash? || e.Start? || e.Open?)
    ensures Whole(codes, files, Happen(x, e))
  {
    hide LogBytes, ManifestBytes, HeadOk;
  }

  /** An event that runs to its end leaves the bytes in agreement. */
  lemma EventKeepsBytes(codes: Codes, files: Files, x: Sys, e: Event, h: iset<Entry>)
    requires SysOk(x, h) && Possible(x, e) && BytesOk(codes, files, x)
    requires Codable(codes, x.disk) && Codable(codes, Happen(x, e).disk)
    ensures BytesOk(codes, After(codes, files, x, e), Happen(x, e))
  {
    hide SysOk, CanHappen, Happen, HasFiles, ReadsAs, Whole, NewBytes, Codable, TargetOf;
    ReadsAfterEvent(codes, files, x, e, h);
    match e
    case Run(s) => WholeAfterStep(codes, files, x, s, h);
    case Recover(s) => WholeAfterRecovery(codes, files, x, s, h);
    case _ =>
      WholeAfterOpen(codes, files, x, e);
      NothingElse(x, e);
  }

  // ---- events cut short ----

  lemma TornBatch(codes: Codes, files: Files, x: Sys, batch: seq<Op>, cut: nat, h: iset<Entry>)
    requires SysOk(x, h) && CanTear(codes, files, x, Run(AppendBatch(batch)), cut) && BytesOk(codes, files, x)
    requires Codable(codes, Happen(x, Run(AppendBatch(batch))).disk)
    ensures ReadsAs(codes, Torn(codes, files, x, Run(AppendBatch(batch)), cut), x.disk)
  {
    hide SysOk, LogReadsAs, ManifestReadsAs, LogBytes, ManifestBytes, Shape, TaskOk, NextProcess, ReadsAs, RecordsFit,
        TornAppends.AllLoggable;
    var d, p := x.disk, x.proc.p;
    FilesInUse(x, h);
    var last := Batch(|p.db.ops| + 1, batch);
    assert Happen(x, Run(AppendBatch(batch))).disk.logs[p.logfile] == d.logs[p.logfile] + [last];
    TornLog(codes, d.logs[p.logfile], last, cut);
    ReadsAfter(codes, files, d, d, LogFile(p.logfile), LogBytes(codes, d.logs[p.logfile] + [last])[..cut]);
  }

  lemma TornChange(codes: Codes, files: Files, x: Sys, a: LsmRuns.Action, cut: nat, h: iset<Entry>)
    requires SysOk(x, h) && CanTear(codes, files, x, Run(LogChange(a)), cut) && BytesOk(codes, files, x)
    requires Codable(codes, x.disk)
    ensures ReadsAs(codes, Torn(codes, files, x, Run(LogChange(a)), cut), x.disk)
  {
    hide SysOk, LogReadsAs, ManifestReadsAs, LogBytes, ManifestBytes, Shape, TaskOk, NextProcess, ReadsAs, RecordsFit,
        RecordOf;
    var d, p := x.disk, x.proc.p;
    FilesInUse(x, h);
    var last := RecordOf(p, a);
    assert Happen(x, Run(LogChange(a))).disk.manifests[p.manifest] == d.manifests[p.manifest] + [last];
    TornManifest(codes, d.manifests[p.manifest], last, cut);
    ReadsAfter(codes, files, d, d, ManifestFile(p.manifest),
        ManifestBytes(codes, d.manifests[p.manifest] + [last])[..cut]);
  }

  /** A recovery writes to a manifest that CURRENT does not name yet. */
  lemma TornRecovery(codes: Codes, files: Files, x: Sys, s: RecoveryStep, cut: nat, h: iset<Entry>)
    requires SysOk(x, h) && CanTear(codes, files, x, Recover(s), cut) && BytesOk(codes, files, x)
    ensures ReadsAs(codes, Torn(codes, files, x, Recover(s), cut), x.disk)
  {
    hide SysOk, LogReadsAs, ManifestReadsAs, ManifestBytes, ReadsAs, BatchesOf, TableOf, InBounds;
    FilesInRecovery(x, h);
    ReadsAfter(codes, files, x.disk, x.disk, TargetOf(x, Recover(s)), NewBytes(codes, x, Recover(s))[..cut]);
  }

  /** An event cut short reads as if it had not happened. */
  lemma TornEventReads(codes: Codes, files: Files, x: Sys, e: Event, cut: nat, h: iset<Entry>)
    requires SysOk(x, h) && CanTear(codes, files, x, e, cut) && BytesOk(codes, files, x)
    requires Codable(codes, x.disk) && Codable(codes, Happen(x, e).disk)
    ensures ReadsAs(codes, Torn(codes, files, x, e, cut), x.disk)
  {
    hide SysOk, BytesOk, Codable, LogReadsAs, ManifestReadsAs, ManifestBytes, Shape, TaskOk, ReadsAs, Torn;
    match e
    case Run(s) =>
      match s {
        case AppendBatch(batch) => TornBatch(codes, files, x, batch, cut, h);
        case LogChange(a) => TornChange(codes, files, x, a, cut, h);
        case _ =>
      }
    case Recover(s) => TornRecovery(codes, files, x, s, cut, h);
    case _ =>
  }

  // ---- appends are appends ----

  lemma ImageGrows(crc: LogFormat.Checksum, records: seq<seq<byte>>, last: seq<byte>)
    ensures LogFormat.Image(crc, records) <= LogFormat.Image(crc, records + [last])
  {
    assert (records + [last])[..|records|] == records;
  }

  /** Where an event goes on with a file, the bytes that are there stay. */
  lemma OldBytesStay(codes: Codes, files: Files, x: Sys, e: Event, h: iset<Entry>)
    requires SysOk(x, h) && Possible(x, e) && BytesOk(codes, files, x)
    requires (e.Run? && (e.step.AppendBatch? || e.step.LogChange?)) || (e.Recover? && e.part.AppendRecoveredRecord?)
    ensures var target := TargetOf(x, e);
      && (target.LogFile? ==> target.n in files.logs && files.logs[target.n] <= NewBytes(codes, x, e))
      && (target.ManifestFile? ==> target.n in files.manifests && files.manifests[target.n] <= NewBytes(codes, x, e))
  {
    hide SysOk, ReadsAs, LogFormat.Image, Shape, TaskOk, NextProcess, RecordOf, BatchesOf, TornAppends.LogRecords;
    var d := x.disk;
    if e.Recover? {
      var r := x.proc.r;
      var last := RecoveredRecord(r, r.stage.newLog);
      ManifestGrows(codes, d.manifests[r.baseNext], last);
    } else {
      var p := x.proc.p;
      FilesInUse(x, h);
      if e.step.AppendBatch? {
        var last := Batch(|p.db.ops| + 1, e.step.batch);
        TornAppends.LogRecordsSnoc(codes.op, d.logs[p.logfile], last);
        ImageGrows(codes.crc, TornAppends.LogRecords(codes.op, d.logs[p.logfile]),
            TornAppends.BatchBytes(codes.op, last));
      } else {
        ManifestGrows(codes, d.manifests[p.manifest], RecordOf(p, e.step.action));
      }
    }
  }

  lemma ManifestGrows(codes: Codes, records: seq<Record>, last: Record)
    ensures ManifestBytes(codes, records) <= ManifestBytes(codes, records + [last])
  {
    hide LogFormat.Image, EditCoding.Encoded;
    var more := EditCoding.Encoded(codes.edit(last));
    assert EncodedRecords(codes, records + [last]) == EncodedRecords(codes, records) + [more];
    ImageGrows(codes.crc, EncodedRecords(codes, records), more);
  }

  // ---- runs ----

  /** Some event had only begun to write when the process died. */
  ghost predicate DiedWriting(codes: Codes, files: Files, x: Sys, e: Event, cut: nat, later: Files) {
    CanTear(codes, files, x, e, cut) && Codable(codes, Happen(x, e).disk) && later == Torn(codes, files, x, e, cut)
  }

  ghost predicate Writes(codes: Codes, files: Files, x: Sys, e: Event, later: Files) {
    Possible(x, e) ==>
      || later == After(codes, files, x, e)
      || (e.Crash? && exists t, cut :: DiedWriting(codes, files, x, t, cut, later))
  }

  /** A run with the bytes that are in its files at every moment. */
  ghost predicate IsByteRun(codes: Codes, states: seq<Sys>, events: seq<Event>, files: seq<Files>) {
    && IsDurableRun(states, events) && |files| == |states|
    && (forall i :: 0 <= i < |states| ==> Codable(codes, states[i].disk))
    && forall i :: 0 <= i < |events| ==> Writes(codes, files[i], states[i], events[i], files[i + 1])
  }

  /** Whatever bytes crashes cut off, at every moment of every run the logs and
      the manifest in force read, without a complaint, as the records on the disk
      of the machine; so what is proved of it holds for a recovery from bytes. */
  lemma {:induction false} BytesAlwaysRead(codes: Codes, states: seq<Sys>, events: seq<Event>, files: seq<Files>,
      i: nat)
    requires IsByteRun(codes, states, events, files) && AllApart(states, events) && i < |states|
    requires BytesOk(codes, files[0], states[0])
    ensures BytesOk(codes, files[i], states[i])
  {
    hide SysOk, CanHappen, Happen, HasFiles, EventApart, BytesOk, Codable, After, CanTear, Torn;
    if i > 0 {
      BytesAlwaysRead(codes, states, events, files, i - 1);
      RunStaysFine(states, events, i - 1);
      var x, e, f := states[i - 1], events[i - 1], files[i - 1];
      assert StepsTo(x, e, states[i]) && Writes(codes, f, x, e, files[i]);
      var h :| SysOk(x, h);
      if files[i] == After(codes, f, x, e) {
        EventKeepsBytes(codes, f, x, e, h);
      } else {
        var t, cut :| DiedWriting(codes, f, x, t, cut, files[i]);
        CrashedWriting(codes, f, x, t, cut, h);
      }
    }
  }

  lemma CrashedWriting(codes: Codes, files: Files, x: Sys, t: Event, cut: nat, h: iset<Entry>)
    requires SysOk(x, h) && BytesOk(codes, files, x) && Codable(codes, x.disk) && Possible(x, Crash)
    requires CanTear(codes, files, x, t, cut) && Codable(codes, Happen(x, t).disk)
    ensures BytesOk(codes, Torn(codes, files, x, t, cut), Happen(x, Crash))
  {
    hide SysOk, ReadsAs, Codable, CanTear, Torn;
    TornEventReads(codes, files, x, t, cut, h);
  }

  /** The files of a new database. */
  lemma NewDbReads(codes: Codes)
    requires Codable(codes, NEW_DB.disk)
    ensures exists files :: BytesOk(codes, files, NEW_DB)
  {
    hide ManifestReadsAs, RecordsFit;
    var d := NEW_DB.disk;
    WholeManifest(codes, d.manifests[d.currentManifest]);
    var files := Files(map[], map[d.currentManifest := ManifestBytes(codes, d.manifests[d.currentManifest])]);
    assert BytesOk(codes, files, NEW_DB);
  }
}
