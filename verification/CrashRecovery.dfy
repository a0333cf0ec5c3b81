/** DBImpl::Recover and DB::Open, step by step, each step one change to the
    directory. */
module CrashRecovery {
  import opened InternalKeys
  import opened Versions
  import opened VersionEdits
  import opened ManifestReplay
  import opened History
  import opened LsmState
  import opened LsmVersions
  import opened WriteAheadLog
  import opened Manifests
  import opened DurableState

  // ---- level-0 tables added by one edit, or one by one ----

  function AddEach(v: Version, files: seq<File>): Version {
    if files == [] then v else ApplyEdit(AddEach(v, files[..|files| - 1]), FlushEdit(0, files[|files| - 1]))
  }

  /** Numbers grow along the list, from lo up to hi. */
  ghost predicate Increasing(files: seq<File>, lo: nat, hi: nat) {
    && (forall i :: 0 <= i < |files| ==> lo <= files[i].number < hi)
    && (forall i, j :: 0 <= i < j < |files| ==> files[i].number < files[j].number)
  }

  function TablesEdit(files: seq<File>): VersionEdit {
    VersionEdit({}, LevelFiles(files, 0))
  }

  lemma {:induction false} AddEachFiles(v: Version, next: nat, files: seq<File>, hi: nat)
    requires VersionOk(v, next) && Increasing(files, next, hi) && next <= hi
    ensures VersionOk(AddEach(v, files), if files == [] then next else files[|files| - 1].number + 1)
    ensures forall l :: 0 <= l < NUM_LEVELS ==> HasAlso(v, AddEach(v, files), files, l)
  {
    hide VersionOk, ApplyEdit;
    if files != [] {
      var front, f := files[..|files| - 1], files[|files| - 1];
      AddEachFiles(v, next, front, hi);
      var w := AddEach(v, front);
      var n := if front == [] then next else front[|front| - 1].number + 1;
      FlushKeepsVersionOk(w, 0, f, n);
      FlushedFiles(w, 0, f, n);
      assert forall g :: g in files <==> g in front || g == f;
      forall l | 0 <= l < NUM_LEVELS ensures HasAlso(v, AddEach(v, files), files, l) {
        assert HasAlso(v, w, front, l);
      }
    }
  }

  /** Level l of w is that of v, with the new tables if it is level 0. */
  ghost predicate HasAlso(v: Version, w: Version, files: seq<File>, l: nat)
    requires l < NUM_LEVELS
  {
    forall g :: g in w.files[l] <==> g in v.files[l] || (l == 0 && g in files)
  }

  lemma IncreasingDistinct(files: seq<File>, lo: nat, hi: nat)
    requires Increasing(files, lo, hi)
    ensures DistinctNumbers(files)
  {
  }

  /** One edit that adds all tables makes the same version as one edit each. */
  lemma AddTogether(v: Version, next: nat, files: seq<File>, hi: nat)
    requires VersionOk(v, next) && Increasing(files, next, hi) && next <= hi
    ensures ApplyEdit(v, TablesEdit(files)) == AddEach(v, files)
  {
    hide VersionOk, InstallOne, FilesSorted, AddEach, DistinctNumbers, LevelFiles, AddedAt;
    var w, u := ApplyEdit(v, TablesEdit(files)), AddEach(v, files);
    AddEachFiles(v, next, files, hi);
    IncreasingDistinct(files, next, hi);
    forall l | 0 <= l < NUM_LEVELS ensures w.files[l] == u.files[l] {
      AddedAtLevel(files, 0, l);
      NoneIsDistinct();
      assert HasAlso(v, u, files, l);
      SortedNumbered(v, next, l);
      SortedNumbered(u, if files == [] then next else files[|files| - 1].number + 1, l);
      assert LevelPart(TablesEdit(files), l).deleted == {};
      AddedToLevel(v.files[l], if l == 0 then files else [], u.files[l], next);
    }
    assert w.files == u.files;
  }

  lemma SortedNumbered(v: Version, next: nat, l: nat)
    requires VersionOk(v, next) && l < NUM_LEVELS
    ensures FilesSorted(v.files[l]) && forall f :: f in v.files[l] ==> f.number < next
  {
  }

  lemma AddedToLevel(files: seq<File>, added: seq<File>, all: seq<File>, next: nat)
    requires FilesSorted(files) && FilesSorted(all) && DistinctNumbers(added)
    requires (forall f :: f in files ==> f.number < next) && (forall f :: f in added ==> f.number >= next)
    requires forall g :: g in all <==> g in files || g in added
    ensures InstallOne(files, LevelEdit({}, added)) == all
  {
    hide FilesSorted, InstallOne;
    EditedLevel(files, LevelEdit({}, added));
    SameFilesSameOrder(InstallOne(files, LevelEdit({}, added)), all);
  }

  // ---- a recovering process ----

  datatype Stage =
    | ReadingLogs
    | LogCreated(newLog: nat)
    | SnapshotWritten(newLog: nat)
    | RecordWritten(newLog: nat)
    | Switched(newLog: nat)

  /** `base`, `baseNext` and `baseSequence` come from the manifest; logs before
      number `log` and the first `done` batches of that one are in `written`. */
  datatype Recovery = Recovery(base: Version, baseLog: nat, baseNext: nat, baseSequence: nat, nextFile: nat, log: nat,
      done: nat,
                               written: seq<File>, maxSequence: nat, stage: Stage)

  function BatchesOf(d: Disk, n: nat): seq<Batch> {
    if n in d.logs then d.logs[n] else []
  }

  /** VersionSet::Recover. */
  function StartRecovery(d: Disk): Recovery
    requires HeadOk(d)
  {
    var records := Head(d);
    Recovery(Recovered(records), LogNumber(records).value, NextFile(records).value, LastSequence(records).value,
             NextFile(records).value + 1, LogNumber(records).value, 0, [], 0, ReadingLogs)
  }

  /** Inserting logged batches into an empty memtable. */
  function InsertBatches(mem: seq<Entry>, batches: seq<Batch>): seq<Entry>
    requires forall i :: 0 <= i < |batches| ==> batches[i].first + |batches[i].ops| <= MAX_SEQUENCE_NUMBER + 1
  {
    if batches == [] then mem
    else
      var n := |batches| - 1;
      InsertOps(InsertBatches(mem, batches[..n]), batches[n].first, batches[n].ops)
  }

  predicate InBounds(batches: seq<Batch>) {
    forall i ::
        0 <= i < |batches| ==> 0 < batches[i].first && batches[i].first + |batches[i].ops| <= MAX_SEQUENCE_NUMBER
  }

  function LastOf(batches: seq<Batch>, max: nat): nat
    requires InBounds(batches)
  {
    if batches == [] then max
    else
      var n := |batches| - 1;
      var rest := LastOf(batches[..n], max);
      var last: nat := batches[n].first + |batches[n].ops| - 1;
      if last > rest then last else rest
  }

  lemma {:induction false} ChainInBounds(batches: seq<Batch>, m: nat)
    requires Chain(batches, m) && m + |OpsOf(batches)| < MAX_SEQUENCE_NUMBER
    ensures InBounds(batches)
  {
    if batches != [] {
      ChainInBounds(batches[1..], m + |batches[0].ops|);
      forall i | 0 <= i < |batches| ensures 0 < batches[i].first
          && batches[i].first + |batches[i].ops| <= MAX_SEQUENCE_NUMBER {
        if i > 0 { assert batches[i] == batches[1..][i - 1]; }
      }
    }
  }

  /** The last batch of a chain and those before it. */
  lemma ChainLast(batches: seq<Batch>, m: nat)
    requires batches != [] && Chain(batches, m)
    ensures var n := |batches| - 1;
      && Chain(batches[..n], m) && batches[n].first == m + |OpsOf(batches[..n])| + 1
      && OpsOf(batches) == OpsOf(batches[..n]) + batches[n].ops
  {
    var n := |batches| - 1;
    var front, last := batches[..n], [batches[n]];
    assert batches == front + last;
    ChainJoin(front, last, m);
    OpsOfJoin(front, last);
    assert last[1..] == [];
    assert OpsOf(last) == batches[n].ops + [] == batches[n].ops;
  }

  /** Replayed batches make the memtable of their operations. */
  lemma {:induction false} BatchesMakeRange(ops: seq<Op>, m: nat, batches: seq<Batch>)
    requires Chain(batches, m) && InBounds(batches) && |ops| < MAX_SEQUENCE_NUMBER
    requires m + |OpsOf(batches)| <= |ops| && ops[m..m + |OpsOf(batches)|] == OpsOf(batches)
    ensures InsertBatches([], batches) == MemRange(ops, m, m + |OpsOf(batches)|)
  {
    hide Chain, OpsOf, InsertOps, MemRange;
    if batches == [] {
      NoOps(ops, m);
    } else {
      var n := |batches| - 1;
      var front := batches[..n];
      ChainLast(batches, m);
      var k := m + |OpsOf(front)|;
      SegmentParts(ops, m, OpsOf(front), batches[n].ops);
      BatchesMakeRange(ops, m, front);
      InsertOpsMakesRange(ops, m, k, batches[n].ops);
    }
  }

  lemma SegmentParts(ops: seq<Op>, m: nat, x: seq<Op>, y: seq<Op>)
    requires m + |x| + |y| <= |ops| && ops[m..m + |x| + |y|] == x + y
    ensures ops[m..m + |x|] == x && ops[m + |x|..m + |x| + |y|] == y
  {
    assert ops[m..m + |x|] == ops[m..m + |x| + |y|][..|x|];
    assert ops[m + |x|..m + |x| + |y|] == ops[m..m + |x| + |y|][|x|..];
  }

  lemma NoOps(ops: seq<Op>, m: nat)
    requires m <= |ops| <= MAX_SEQUENCE_NUMBER
    ensures |OpsOf([])| == 0 && MemRange(ops, m, m) == []
  {
  }

  lemma {:induction false} LastOfChain(batches: seq<Batch>, m: nat, a: nat, max: nat)
    requires Chain(batches, m) && InBounds(batches) && a <= m && max <= m && (m > a ==> max == m)
    ensures var k := m + |OpsOf(batches)|; LastOf(batches, max) <= k && (k > a ==> LastOf(batches, max) == k)
  {
    hide Chain, OpsOf;
    if batches == [] {
      NoOps([], 0);
    } else {
      var n := |batches| - 1;
      ChainLast(batches, m);
      LastOfChain(batches[..n], m, a, max);
    }
  }

  // ---- its steps ----

  datatype RecoveryStep =
    | WriteLogTable(k: nat, size: nat)     // the next k batches of the log fill a memtable
    | NextLog
    | CreateLog
    | WriteSnapshotRecord
    | AppendRecoveredRecord
    | SetCurrent

  predicate CanRecover(d: Disk, r: Recovery, s: RecoveryStep) {
    match s
    case WriteLogTable(k, size) => r.stage.ReadingLogs? && r.done + k <= |BatchesOf(d, r.log)|
        && InBounds(BatchesOf(d, r.log)[r.done..r.done + k])
    case NextLog => r.stage.ReadingLogs? && r.done == |BatchesOf(d, r.log)| && exists n :: n in d.logs && n > r.log
    case CreateLog => r.stage.ReadingLogs? && r.done == |BatchesOf(d, r.log)| && forall n :: n in d.logs ==> n <= r.log
    case WriteSnapshotRecord => r.stage.LogCreated?
    case AppendRecoveredRecord => r.stage.SnapshotWritten? && r.baseNext in d.manifests
    case SetCurrent => r.stage.RecordWritten? && r.baseNext in d.manifests
  }

  /** VersionSet::MarkFileNumberUsed, for a log that exists. */
  function Used(d: Disk, nextFile: nat, log: nat): nat {
    if log in d.logs && nextFile <= log then log + 1 else nextFile
  }

  function Larger(a: nat, b: nat): nat {
    if a < b then b else a
  }

  function TableOf(d: Disk, r: Recovery, k: nat): seq<Entry>
    requires r.done + k <= |BatchesOf(d, r.log)| && InBounds(BatchesOf(d, r.log)[r.done..r.done + k])
  {
    InsertBatches([], BatchesOf(d, r.log)[r.done..r.done + k])
  }

  function RecoveredRecord(r: Recovery, newLog: nat): Record {
    Record(TablesEdit(r.written), Some(newLog), Some(r.nextFile), Some(Larger(r.baseSequence, r.maxSequence)))
  }

  function RecoverDisk(d: Disk, r: Recovery, s: RecoveryStep): Disk
    requires CanRecover(d, r, s)
  {
    match s
    case WriteLogTable(k, size) => if TableOf(d, r, k) == [] then d
        else d.(tables := d.tables[r.nextFile := TableOf(d, r, k)])
    case NextLog => d
    case CreateLog => d.(logs := d.logs[Used(d, r.nextFile, r.log) := []])
    case WriteSnapshotRecord => d.(manifests := d.manifests[r.baseNext := [SnapshotRecord(r.base)]])
    case AppendRecoveredRecord =>
      d.(manifests := d.manifests[r.baseNext := d.manifests[r.baseNext] + [RecoveredRecord(r, r.stage.newLog)]])
    case SetCurrent => d.(currentManifest := r.baseNext)
  }

  function AfterTable(d: Disk, r: Recovery, k: nat, size: nat): Recovery
    requires r.done + k <= |BatchesOf(d, r.log)| && InBounds(BatchesOf(d, r.log)[r.done..r.done + k])
    requires Sorted(TableOf(d, r, k))
  {
    var table := TableOf(d, r, k);
    var r1 := r.(done := r.done + k, maxSequence := LastOf(BatchesOf(d, r.log)[r.done..r.done + k], r.maxSequence));
    if table == [] then r1
    else r1.(written := r.written + [FileMeta(r.nextFile, size, table)], nextFile := r.nextFile + 1)
  }

  function RecoverNext(d: Disk, r: Recovery, s: RecoveryStep): Recovery
    requires CanRecover(d, r, s)
    requires s.WriteLogTable? ==> Sorted(TableOf(d, r, s.k))
  {
    match s
    case WriteLogTable(k, size) => AfterTable(d, r, k, size)
    case NextLog => r.(log := r.log + 1, done := 0, nextFile := Used(d, r.nextFile, r.log))
    case CreateLog => r.(nextFile := Used(d, r.nextFile, r.log) + 1, stage := LogCreated(Used(d, r.nextFile, r.log)))
    case WriteSnapshotRecord => r.(stage := SnapshotWritten(r.stage.newLog))
    case AppendRecoveredRecord => r.(stage := RecordWritten(r.stage.newLog))
    case SetCurrent => r.(stage := Switched(r.stage.newLog))
  }

  // ---- what holds throughout ----

  /** The new tables hold operations a+1..m, and the logs from here on hold
      the rest; nothing is gained or lost on the way. */
  ghost predicate Progress(d: Disk, r: Recovery, ops: seq<Op>, a: nat, m: nat) {
    && a <= m <= |ops| < MAX_SEQUENCE_NUMBER
    && Shape(Image(AddEach(r.base, r.written), ops, m, r.nextFile))
    && Held(Image(AddEach(r.base, r.written), ops, m, r.nextFile)) == Held(Image(r.base, ops, a, r.baseNext))
    && Increasing(r.written, r.baseNext, r.nextFile) && VersionOk(r.base, r.baseNext)
    && (forall f :: f in r.written ==> FilePresent(d, f))
    && r.maxSequence <= m && (m > a ==> r.maxSequence == m)
    && a <= r.baseSequence <= |ops|
    && r.baseNext < r.nextFile
  }

  ghost predicate RestOfLogs(d: Disk, r: Recovery, ops: seq<Op>, m: nat)
    requires m <= |ops|
  {
    && r.done <= |BatchesOf(d, r.log)|
    && (forall n :: n in d.logs && n < r.log ==> n < r.nextFile)
    && (forall top: nat :: BoundedBy(d.logs, top) && r.log < top ==>
          var rest := BatchesOf(d, r.log)[r.done..] + Stream(d.logs, r.log + 1, top);
          Chain(rest, m) && OpsOf(rest) == ops[m..])
  }

  ghost predicate FromManifest(d: Disk, r: Recovery) {
    && HeadOk(d)
    && var records := Head(d);
    && r.base == Recovered(records) && r.baseLog == LogNumber(records).value
    && r.baseNext == NextFile(records).value && r.baseSequence == LastSequence(records).value
  }

  ghost predicate NewLogOk(d: Disk, r: Recovery, newLog: nat) {
    newLog in d.logs && d.logs[newLog] == [] && newLog < r.nextFile && forall n :: n in d.logs ==> n <= newLog
  }

  /** What a recovery at work relies on, and what it has done. */
  ghost predicate RecoveringOk(d: Disk, r: Recovery, ops: seq<Op>, a: nat, m: nat) {
    && Progress(d, r, ops, a, m) && FromManifest(d, r) && Durable(d, ops, a) && r.baseLog <= r.log
    && match r.stage
       case ReadingLogs => RestOfLogs(d, r, ops, m)
       case LogCreated(newLog) => m == |ops| && NewLogOk(d, r, newLog)
       case SnapshotWritten(newLog) =>
         m == |ops| && NewLogOk(d, r, newLog) && r.baseNext in d.manifests
             && d.manifests[r.baseNext] == [SnapshotRecord(r.base)]
       case RecordWritten(newLog) =>
         && m == |ops| && NewLogOk(d, r, newLog) && r.baseNext in d.manifests
         && d.manifests[r.baseNext] == [SnapshotRecord(r.base), RecoveredRecord(r, newLog)]
       case Switched(newLog) => false
  }

  /** After CURRENT names the new manifest. */
  ghost predicate SwitchedOk(d: Disk, r: Recovery, ops: seq<Op>, a: nat) {
    && r.stage.Switched?
    && Progress(d, r, ops, a, |ops|) && NewLogOk(d, r, r.stage.newLog)
    && d.currentManifest == r.baseNext && r.baseNext in d.manifests
    && d.manifests[r.baseNext] == [SnapshotRecord(r.base), RecoveredRecord(r, r.stage.newLog)]
    && Durable(d, ops, |ops|) && TablesPresent(d, r.base)
  }
}
