/** DB::Open on a directory that a crash left behind: the loops of Recover and
    RecoverLogFile, then the new log and manifest. */
module DatabaseOpen {
  import opened InternalKeys
  import opened History
  import opened Versions
  import opened LsmState
  import opened WriteAheadLog
  import opened Manifests
  import opened DurableState
  import opened CrashRecovery
  import opened RecoverySteps

  /** The next k batches fit the sequence numbers. */
  lemma NextInBounds(d: Disk, r: Recovery, ops: seq<Op>, m: nat, k: nat)
    requires m <= |ops| < MAX_SEQUENCE_NUMBER && RestOfLogs(d, r, ops, m) && r.done + k <= |BatchesOf(d, r.log)|
    ensures InBounds(BatchesOf(d, r.log)[r.done..r.done + k])
  {
    TakenBatches(d, r, ops, m, k);
    ChainInBounds(BatchesOf(d, r.log)[r.done..r.done + k], m);
  }

  /** The same manifest was read. */
  predicate SameStart(q: Recovery, r: Recovery) {
    q.base == r.base && q.baseNext == r.baseNext
  }

  // ---- where a log is cut into tables ----

  function Flat(parts: seq<seq<Batch>>): seq<Batch> {
    if parts == [] then [] else Flat(parts[..|parts| - 1]) + parts[|parts| - 1]
  }

  /** A memtable's contents become a table, unless there are none. */
  function TablesFor(parts: seq<seq<Batch>>): seq<seq<Entry>> {
    if parts == [] then []
    else
      TablesFor(parts[..|parts| - 1]) + OneTable(parts[|parts| - 1])
  }

  function OneTable(part: seq<Batch>): seq<seq<Entry>> {
    if InBounds(part) && MemOf(part) != [] then [MemOf(part)] else []
  }

  function ContentsOf(files: seq<File>): (r: seq<seq<Entry>>)
    ensures |r| == |files|
  {
    seq(|files|, i requires 0 <= i < |files| => files[i].entries)
  }

  /** Before the end of the part its memtable was not full. */
  ghost predicate NotFullBefore(full: seq<Entry> -> bool, part: seq<Batch>, n: nat) {
    forall j :: 0 < j < n && j <= |part| ==> InBounds(part[..j]) && !full(MemOf(part[..j]))
  }

  /** A table is written as soon as the memtable is full, and at the end of the
      log for what is left. */
  ghost predicate CutWhenFull(full: seq<Entry> -> bool, parts: seq<seq<Batch>>) {
    forall i :: 0 <= i < |parts| ==> FilledExactly(full, parts[i])
  }

  ghost predicate FilledExactly(full: seq<Entry> -> bool, part: seq<Batch>) {
    part != [] && NotFullBefore(full, part, |part|) && InBounds(part) && full(MemOf(part))
  }

  lemma OnePartMore(full: seq<Entry> -> bool, parts: seq<seq<Batch>>, part: seq<Batch>)
    ensures Flat(parts + [part]) == Flat(parts) + part
    ensures TablesFor(parts + [part]) == TablesFor(parts) + OneTable(part)
    ensures CutWhenFull(full, parts) && FilledExactly(full, part) ==> CutWhenFull(full, parts + [part])
  {
    hide FilledExactly, OneTable;
    assert (parts + [part])[..|parts|] == parts;
  }

  /** Writing the memtable made of the next k batches as a level-0 table. */
  method FlushRecovered(d: Disk, r: Recovery, k: nat, size: nat, ghost ops: seq<Op>, ghost a: nat, ghost m: nat)
    returns (e: Disk, q: Recovery, ghost n: nat)
    requires RecoveringOk(d, r, ops, a, m) && r.stage.ReadingLogs? && r.done + k <= |BatchesOf(d, r.log)|
    ensures RecoveringOk(e, q, ops, a, n) && q.stage.ReadingLogs? && e.logs == d.logs && q.log == r.log
        && q.done == r.done + k
    ensures SameStart(q, r)
    ensures var part := BatchesOf(d, r.log)[r.done..r.done + k];
      && InBounds(part)
      && ContentsOf(q.written) == ContentsOf(r.written) + OneTable(part)
  {
    hide RecoveringOk, RestOfLogs, InBounds, InsertBatches, LastOf;
    assert RestOfLogs(d, r, ops, m) && m <= |ops| < MAX_SEQUENCE_NUMBER by { ReadingParts(d, r, ops, a, m); }
    NextInBounds(d, r, ops, m, k);
    var s := WriteLogTable(k, size);
    WriteLogTableKeeps(d, r, ops, a, m, k, size);
    n :| RecoversTo(d, r, s, ops, a, n);
    e, q := RecoverDisk(d, r, s), RecoverNext(d, r, s);
  }

  lemma ReadingParts(d: Disk, r: Recovery, ops: seq<Op>, a: nat, m: nat)
    requires RecoveringOk(d, r, ops, a, m) && r.stage.ReadingLogs?
    ensures RestOfLogs(d, r, ops, m) && m <= |ops| < MAX_SEQUENCE_NUMBER && r.done <= |BatchesOf(d, r.log)|
  {
  }

  /** DBImpl::RecoverLogFile: batches go to a memtable, which becomes a table
      when it is full and at the end of the log. */
  method RecoverLogFile(d0: Disk, r0: Recovery, full: seq<Entry> -> bool, size: seq<Entry> -> nat,
                        ghost ops: seq<Op>, ghost a: nat, ghost m0: nat)
    returns (d: Disk, r: Recovery, ghost m: nat, ghost parts: seq<seq<Batch>>, ghost left: seq<Batch>)
    requires RecoveringOk(d0, r0, ops, a, m0) && r0.stage.ReadingLogs? && r0.done == 0
    ensures RecoveringOk(d, r, ops, a, m) && r.stage.ReadingLogs? && d.logs == d0.logs && r.log == r0.log
    ensures SameStart(r, r0)
    ensures r.done == |BatchesOf(d, r.log)|
    ensures Flat(parts) + left == BatchesOf(d, r.log)
    ensures CutWhenFull(full, parts) && NotFullBefore(full, left, |left| + 1)
    ensures ContentsOf(r.written) == ContentsOf(r0.written) + TablesFor(parts + [left])
  {
    hide RecoveringOk, RestOfLogs, InBounds, InsertOps, MemOf, CutSoFar, CutWhenFull, NotFullBefore, Flat, ContentsOf,
        TablesFor;
    d, r, m := d0, r0, m0;
    parts := [];
    ghost var before, tables := ContentsOf(r0.written), [];
    var log := BatchesOf(d, r.log);
    var mem: seq<Entry> := [];
    var k := 0;
    NoBatches();
    assert log[r.done..r.done] == [];
    NothingCut(full, log);
    while r.done + k < |log|
      invariant RecoveringOk(d, r, ops, a, m) && r.stage.ReadingLogs? && d.logs == d0.logs && r.log == r0.log
      invariant SameStart(r, r0)
      invariant r.done + k <= |log|
      invariant InBounds(log[r.done..r.done + k]) && mem == MemOf(log[r.done..r.done + k])
      invariant CutSoFar(full, log, r.done, k, parts, tables) && ContentsOf(r.written) == before + tables
      decreases |log| - r.done - k
    {
      ReadingParts(d, r, ops, a, m);
      NextInBounds(d, r, ops, m, k + 1);
      var batch := log[r.done + k];
      OneMoreBatch(log[r.done..r.done + k + 1]);
      assert log[r.done..r.done + k + 1][..k] == log[r.done..r.done + k];
      mem := InsertOps(mem, batch.first, batch.ops);
      k := k + 1;
      OneBatchMore(full, log, r.done, k, parts, tables);
      if full(mem) {
        ghost var part := log[r.done..r.done + k];
        parts, tables := parts + [part], tables + OneTable(part);
        d, r, m := FlushRecovered(d, r, k, size(mem), ops, a, m);
        mem, k := [], 0;
        NoBatches();
        assert log[r.done..r.done] == [];
      }
    }
    left := log[r.done..r.done + k];
    LogIsCut(full, log, r.done, k, parts, tables);
    d, r, m := FlushRecovered(d, r, k, size(mem), ops, a, m);
  }

  /** The first `done` batches were cut into these parts, and what they made of
      tables; the next k are in the memtable. */
  ghost predicate CutSoFar(full: seq<Entry> -> bool, log: seq<Batch>, done: nat, k: nat, parts: seq<seq<Batch>>,
      tables: seq<seq<Entry>>)
  {
    && done + k <= |log| && Flat(parts) == log[..done] && CutWhenFull(full, parts) && tables == TablesFor(parts)
    && NotFullBefore(full, log[done..done + k], k + 1)
  }

  lemma NothingCut(full: seq<Entry> -> bool, log: seq<Batch>)
    ensures CutSoFar(full, log, 0, 0, [], [])
  {
  }

  lemma OneBatchMore(full: seq<Entry> -> bool, log: seq<Batch>, done: nat, k: nat, parts: seq<seq<Batch>>,
      tables: seq<seq<Entry>>)
    requires 0 < k && done + k <= |log| && CutSoFar(full, log, done, k - 1, parts, tables)
    requires InBounds(log[done..done + k])
    ensures var part := log[done..done + k];
      if full(MemOf(part)) then CutSoFar(full, log, done + k, 0, parts + [part], tables + OneTable(part))
      else CutSoFar(full, log, done, k, parts, tables)
  {
    hide InBounds, MemOf, CutWhenFull, Flat, TablesFor, OneTable;
    var part := log[done..done + k];
    OnePartMore(full, parts, part);
    assert log[..done] + part == log[..done + k];
    forall j | 0 < j < k
      ensures InBounds(part[..j]) && !full(MemOf(part[..j]))
    {
      PrefixOfPart(log, done, k, j);
    }
    assert part[..k] == part;
  }

  lemma PrefixOfPart(log: seq<Batch>, done: nat, k: nat, j: nat)
    requires j < k && done + k <= |log|
    ensures log[done..done + k - 1][..j] == log[done..done + k][..j]
  {
    assert log[done..done + k - 1][..j] == log[done..done + j];
    assert log[done..done + k][..j] == log[done..done + j];
  }

  lemma LogIsCut(full: seq<Entry> -> bool, log: seq<Batch>, done: nat, k: nat, parts: seq<seq<Batch>>,
      tables: seq<seq<Entry>>)
    requires CutSoFar(full, log, done, k, parts, tables) && done + k == |log|
    ensures var left := log[done..done + k];
      && Flat(parts) + left == log && CutWhenFull(full, parts) && NotFullBefore(full, left, |left| + 1)
      && tables + OneTable(left) == TablesFor(parts + [left])
  {
    hide CutWhenFull, Flat, TablesFor, OneTable;
    OnePartMore(full, parts, log[done..done + k]);
  }

  function MemOf(batches: seq<Batch>): seq<Entry>
    requires InBounds(batches)
  {
    InsertBatches([], batches)
  }

  lemma NoBatches()
    ensures InBounds([]) && MemOf([]) == []
  {
  }

  lemma OneMoreBatch(batches: seq<Batch>)
    requires batches != [] && InBounds(batches)
    ensures var n := |batches| - 1;
      && InBounds(batches[..n]) && batches[n].first + |batches[n].ops| <= MAX_SEQUENCE_NUMBER
      && MemOf(batches) == InsertOps(MemOf(batches[..n]), batches[n].first, batches[n].ops)
  {
  }

  lemma ReadingIsRecovery(d: Disk, r: Recovery, ops: seq<Op>, a: nat, m: nat)
    requires RecoveringOk(d, r, ops, a, m) && r.stage.RecordWritten?
    ensures r.baseNext in d.manifests
  {
  }

  lemma SnapshotIsThere(d: Disk, r: Recovery, ops: seq<Op>, a: nat, m: nat)
    requires RecoveringOk(d, r, ops, a, m) && r.stage.SnapshotWritten?
    ensures r.baseNext in d.manifests
  {
  }

  /** Whatever the crash left, opening brings up a database with exactly the
      history that was on disk, which holds exactly what the files held. */
  method Open(d0: Disk, full: seq<Entry> -> bool, size: seq<Entry> -> nat, ghost ops: seq<Op>, ghost a: nat)
    returns (d: Disk, r: Recovery)
    requires Durable(d0, ops, a)
    ensures r.stage.Switched? && |ops| < MAX_SEQUENCE_NUMBER && UpOk(d, Opened(r, ops), |ops|, |ops|)
    ensures HeadOk(d0) && a <= |ops| && Held(Opened(r, ops).db) == Held(DiskDb(d0, ops, a))
  {
    hide RecoveringOk, RestOfLogs, Durable, SwitchedOk, UpOk, Held, Recovered;
    DurableHead(d0, ops, a);
    d, r := d0, StartRecovery(d0);
    ghost var m := a;
    StartKeeps(d0, ops, a);
    ghost var top := SomeTop(d.logs, r.log);
    while true
      invariant RecoveringOk(d, r, ops, a, m) && r.stage.ReadingLogs? && r.done == 0
      invariant SameStart(r, StartRecovery(d0))
      invariant d.logs == d0.logs && BoundedBy(d.logs, top) && r.log < top
      decreases top - r.log
    {
      ghost var parts, left;
      d, r, m, parts, left := RecoverLogFile(d, r, full, size, ops, a, m);
      if exists n :: n in d.logs && n > r.log {
        NextLogKeeps(d, r, ops, a, m);
        r := RecoverNext(d, r, NextLog);
      } else {
        break;
      }
    }
    d, r := SwitchManifest(d, r, ops, a, m);
  }

  /** The rest of DB::Open: a new log, a new manifest, and CURRENT. */
  method SwitchManifest(d0: Disk, r0: Recovery, ghost ops: seq<Op>, ghost a: nat, ghost m: nat)
    returns (d: Disk, r: Recovery)
    requires RecoveringOk(d0, r0, ops, a, m) && CanRecover(d0, r0, CreateLog)
    ensures r.stage.Switched? && |ops| < MAX_SEQUENCE_NUMBER && UpOk(d, Opened(r, ops), |ops|, |ops|)
    ensures a <= |ops| && Held(Opened(r, ops).db) == Held(Image(r0.base, ops, a, r0.baseNext))
  {
    hide RecoveringOk, RestOfLogs, Durable, SwitchedOk, UpOk, RecoverDisk, TablesEdit, SnapshotRecord, AddEach, Shape,
        Held;
    d, r := d0, r0;
    CreateLogKeeps(d, r, ops, a, m);
    d, r := RecoverDisk(d, r, CreateLog), RecoverNext(d, r, CreateLog);
    ManifestStepKeeps(d, r, ops, a, m, WriteSnapshotRecord);
    d, r := RecoverDisk(d, r, WriteSnapshotRecord), RecoverNext(d, r, WriteSnapshotRecord);
    SnapshotIsThere(d, r, ops, a, m);
    ManifestStepKeeps(d, r, ops, a, m, AppendRecoveredRecord);
    d, r := RecoverDisk(d, r, AppendRecoveredRecord), RecoverNext(d, r, AppendRecoveredRecord);
    ReadingIsRecovery(d, r, ops, a, m);
    SetCurrentKeeps(d, r, ops, a, m);
    d, r := RecoverDisk(d, r, SetCurrent), RecoverNext(d, r, SetCurrent);
    SwitchedStage(d, r, ops, a);
    OpenedIsUp(d, r, ops, a);
    OpenedHolds(d, r, ops, a);
  }

  lemma SwitchedStage(d: Disk, r: Recovery, ops: seq<Op>, a: nat)
    requires SwitchedOk(d, r, ops, a)
    ensures r.stage.Switched? && |ops| < MAX_SEQUENCE_NUMBER
  {
  }

  lemma DurableHead(d: Disk, ops: seq<Op>, a: nat)
    requires Durable(d, ops, a)
    ensures HeadOk(d) && a <= |ops| < MAX_SEQUENCE_NUMBER
    ensures DiskDb(d, ops, a) == Image(StartRecovery(d).base, ops, a, StartRecovery(d).baseNext)
  {
    hide Recovered;
  }
}
