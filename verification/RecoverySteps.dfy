/** Every step of a recovery keeps the history recoverable, and its last one
    makes a database that holds exactly that history. */
module RecoverySteps {
  import opened InternalKeys
  import opened Versions
  import opened VersionEdits
  import opened ManifestReplay
  import opened History
  import opened LsmState
  import opened LsmVersions
  import opened LsmSteps
  import opened WriteAheadLog
  import opened Manifests
  import opened DurableState
  import opened DurableImage
  import opened DurableCommits
  import opened CrashRecovery

  lemma ImageLaterNext(v: Version, ops: seq<Op>, a: nat, n: nat, m: nat)
    requires a <= |ops| < MAX_SEQUENCE_NUMBER && Shape(Image(v, ops, a, n)) && n <= m
    ensures Shape(Image(v, ops, a, m)) && Held(Image(v, ops, a, m)) == Held(Image(v, ops, a, n))
  {
    hide VersionOk, AllFromHistory, Complete, Ordered, MemRange, Holds;
    var x, y := Image(v, ops, a, n), Image(v, ops, a, m);
    VersionOkLater(v, n, m);
    forall e ensures Holds(x, e) <==> Holds(y, e) {
      SameContentsHold(x, y, e);
    }
    SameHoldings(x, y);
    SameHeld(x, y);
    SameOrder(x, y);
    NothingRunning(y);
  }

  /** The memtable of an image, cut in two. */
  function SplitImage(v: Version, ops: seq<Op>, a: nat, m: nat, next: nat): Db
    requires a <= m <= |ops| <= MAX_SEQUENCE_NUMBER
  {
    Image(v, ops, a, next).(mem := MemRange(ops, m, |ops|), imm := Some(MemRange(ops, a, m)))
  }

  lemma SplitIsShaped(v: Version, ops: seq<Op>, a: nat, m: nat, next: nat)
    requires a <= m <= |ops| < MAX_SEQUENCE_NUMBER && Shape(Image(v, ops, a, next))
    ensures Shape(SplitImage(v, ops, a, m, next))
        && Held(SplitImage(v, ops, a, m, next)) == Held(Image(v, ops, a, next))
  {
    hide VersionOk, AllFromHistory, Complete, Ordered, MemRange, Holds;
    var x, y := Image(v, ops, a, next), SplitImage(v, ops, a, m, next);
    forall e ensures Holds(x, e) <==> Holds(y, e) {
      ImageHoldsSplit(v, ops, a, m, next, e);
    }
    SameHoldings(x, y);
    SameHeld(x, y);
    MemRangeHolds(ops, a, m);
    MemRangeHolds(ops, m, |ops|);
    SplitOrdered(v, ops, a, m, next);
    NothingRunning(y);
  }

  lemma ImageHoldsSplit(v: Version, ops: seq<Op>, a: nat, m: nat, next: nat, e: Entry)
    requires a <= m <= |ops| < MAX_SEQUENCE_NUMBER
    ensures Holds(Image(v, ops, a, next), e) <==> Holds(SplitImage(v, ops, a, m, next), e)
  {
    hide InVersion, FromHistory;
    MemRangeHolds(ops, a, m);
    MemRangeHolds(ops, m, |ops|);
    MemRangeHolds(ops, a, |ops|);
    assert InRange(ops, a, |ops|, e) <==> InRange(ops, a, m, e) || InRange(ops, m, |ops|, e);
  }

  lemma SplitOrdered(v: Version, ops: seq<Op>, a: nat, m: nat, next: nat)
    requires a <= m <= |ops| < MAX_SEQUENCE_NUMBER && Ordered(Image(v, ops, a, next))
    ensures Ordered(SplitImage(v, ops, a, m, next))
  {
    hide NewestFirst, InVersion, FromHistory, MemRange;
    var x, y := Image(v, ops, a, next), SplitImage(v, ops, a, m, next);
    MemRangeHolds(ops, a, m);
    MemRangeHolds(ops, m, |ops|);
    MemRangeHolds(ops, a, |ops|);
    forall e ensures (e in y.mem ==> e in x.mem && e.key.sqn > m) && (InImm(y, e) ==> e in x.mem && e.key.sqn <= m) {
      assert InRange(ops, a, |ops|, e) <==> InRange(ops, a, m, e) || InRange(ops, m, |ops|, e);
    }
    assert Stored(y.current) == Stored(x.current);
  }

  /** Moving the oldest logged operations into a level-0 table. */
  lemma ImageFlushed(v: Version, ops: seq<Op>, a: nat, m: nat, f: File, next: nat)
    requires a <= m <= |ops| < MAX_SEQUENCE_NUMBER && Shape(Image(v, ops, a, next))
    requires f.entries == MemRange(ops, a, m) && f.number >= next
    ensures Shape(Image(ApplyEdit(v, FlushEdit(0, f)), ops, m, f.number + 1))
    ensures Held(Image(ApplyEdit(v, FlushEdit(0, f)), ops, m, f.number + 1)) == Held(Image(v, ops, a, next))
  {
    hide Shape, Complete, MemRange, ApplyEdit, Holds, Held;
    SplitIsShaped(v, ops, a, m, next);
    var y := SplitImage(v, ops, a, m, next);
    assert CanFlush(y, 0, f);
    FlushKeepsShape(y, 0, f);
    SameHeld(y, Flush(y, 0, f));
    assert Flush(y, 0, f) == Image(ApplyEdit(v, FlushEdit(0, f)), ops, m, f.number + 1);
  }

  lemma ImageVersionOk(v: Version, ops: seq<Op>, a: nat, next: nat)
    requires a <= |ops| < MAX_SEQUENCE_NUMBER && Shape(Image(v, ops, a, next))
    ensures VersionOk(v, next) && StoredUpTo(v, |ops|)
  {
    hide VersionOk, Ordered, InVersion;
    var x := Image(v, ops, a, next);
    forall e | InVersion(v, e) ensures e.key.sqn <= |ops| {
      assert Holds(x, e);
      assert FromHistory(ops, e);
    }
  }

  // ---- changes that do not matter to what is on disk ----

  lemma NewTableStaysDurable(d: Disk, ops: seq<Op>, a: nat, n: nat, es: seq<Entry>)
    requires Durable(d, ops, a) && n >= NextFile(Head(d)).value
    ensures Durable(d.(tables := d.tables[n := es]), ops, a)
  {
    hide Shape, Held, StoredUpTo, LogsHold, Recovered;
    var records := Head(d);
    assert VersionOk(Recovered(records), NextFile(records).value)
        by { ImageVersionOk(Recovered(records), ops, a, NextFile(records).value); }
    forall f | InSomeLevel(Recovered(records), f) ensures FilePresent(d.(tables := d.tables[n := es]), f) {
      NumberedBelow(Recovered(records), NextFile(records).value, f);
    }
  }

  lemma NumberedBelow(v: Version, next: nat, f: File)
    requires VersionOk(v, next) && InSomeLevel(v, f)
    ensures f.number < next
  {
  }

  lemma EmptyLogStaysDurable(d: Disk, ops: seq<Op>, a: nat, n: nat)
    requires Durable(d, ops, a) && n !in d.logs
    ensures Durable(d.(logs := d.logs[n := []]), ops, a)
  {
    hide Shape, Held, StoredUpTo, Recovered, Stream, Chain, OpsOf;
    var logs, more, ln := d.logs, d.logs[n := []], LogNumber(Head(d)).value;
    forall top: nat | BoundedBy(more, top) && ln <= top
      ensures Chain(Stream(more, ln, top), a) && OpsOf(Stream(more, ln, top)) == ops[a..]
    {
      assert forall k :: k in logs ==> k in more;
      assert BoundedBy(logs, top);
      StreamSame(logs, more, ln, top);
    }
  }

  lemma OtherManifestStaysDurable(d: Disk, ops: seq<Op>, a: nat, n: nat, records: seq<Record>)
    requires Durable(d, ops, a) && n != d.currentManifest
    ensures Durable(d.(manifests := d.manifests[n := records]), ops, a)
  {
    hide Shape, Held, StoredUpTo, Recovered, LogsHold;
  }

  // ---- the steps ----

  lemma StartKeeps(d: Disk, ops: seq<Op>, a: nat)
    requires Durable(d, ops, a)
    ensures RecoveringOk(d, StartRecovery(d), ops, a, a)
  {
    hide Shape, Held, StoredUpTo, Recovered, Chain, OpsOf, TablesPresent;
    var r := StartRecovery(d);
    ImageVersionOk(r.base, ops, a, r.baseNext);
    ImageLaterNext(r.base, ops, a, r.baseNext, r.nextFile);
    forall top: nat | BoundedBy(d.logs, top) && r.log < top
      ensures BatchesOf(d, r.log)[0..] + Stream(d.logs, r.log + 1, top) == Stream(d.logs, r.log, top)
    {
    }
  }

  lemma NextLogKeeps(d: Disk, r: Recovery, ops: seq<Op>, a: nat, m: nat)
    requires RecoveringOk(d, r, ops, a, m) && CanRecover(d, r, NextLog)
    ensures RecoveringOk(d, RecoverNext(d, r, NextLog), ops, a, m)
  {
    hide Shape, Held, Durable, HeadOk, Recovered, Chain, OpsOf, FilePresent, VersionOk, AddEach;
    var q := RecoverNext(d, r, NextLog);
    ImageLaterNext(AddEach(r.base, r.written), ops, m, r.nextFile, q.nextFile);
    forall top: nat | BoundedBy(d.logs, top) && q.log < top
      ensures BatchesOf(d, q.log)[0..] + Stream(d.logs, q.log + 1, top)
          == BatchesOf(d, r.log)[r.done..] + Stream(d.logs, r.log + 1, top)
    {
      assert BatchesOf(d, r.log)[r.done..] == [];
      assert BatchesOf(d, q.log)[0..] == BatchesOf(d, q.log);
    }
  }

  lemma CreateLogKeeps(d: Disk, r: Recovery, ops: seq<Op>, a: nat, m: nat)
    requires RecoveringOk(d, r, ops, a, m) && CanRecover(d, r, CreateLog)
    ensures m == |ops|
    ensures RecoveringOk(RecoverDisk(d, r, CreateLog), RecoverNext(d, r, CreateLog), ops, a, m)
  {
    hide Shape, Held, Durable, Recovered, Chain, OpsOf, VersionOk, AddEach;
    var e, q := RecoverDisk(d, r, CreateLog), RecoverNext(d, r, CreateLog);
    var n := Used(d, r.nextFile, r.log);
    NothingLeftInLogs(d, r, ops, m);
    ImageLaterNext(AddEach(r.base, r.written), ops, m, r.nextFile, q.nextFile);
    EmptyLogStaysDurable(d, ops, a, n);
  }

  lemma NothingLeftInLogs(d: Disk, r: Recovery, ops: seq<Op>, m: nat)
    requires m <= |ops| && RestOfLogs(d, r, ops, m)
    requires r.done == |BatchesOf(d, r.log)| && forall n :: n in d.logs ==> n <= r.log
    ensures m == |ops|
  {
    hide Chain;
    var top := r.log + 1;
    assert BoundedBy(d.logs, top);
    assert BatchesOf(d, r.log)[r.done..] + Stream(d.logs, r.log + 1, top) == [];
    NoOps([], 0);
  }

  lemma ManifestStepKeeps(d: Disk, r: Recovery, ops: seq<Op>, a: nat, m: nat, s: RecoveryStep)
    requires RecoveringOk(d, r, ops, a, m) && CanRecover(d, r, s)
        && (s.WriteSnapshotRecord? || s.AppendRecoveredRecord?)
    ensures RecoveringOk(RecoverDisk(d, r, s), RecoverNext(d, r, s), ops, a, m)
  {
    hide Shape, Held, Recovered, VersionOk, AddEach, TablesEdit, SnapshotRecord, LogsHold, StoredUpTo;
    var e, q := RecoverDisk(d, r, s), RecoverNext(d, r, s);
    assert r.baseNext != d.currentManifest;
    OtherManifestStaysDurable(d, ops, a, r.baseNext, e.manifests[r.baseNext]);
  }

  /** The batches taken next, and the operations in them. */
  lemma TakenBatches(d: Disk, r: Recovery, ops: seq<Op>, m: nat, k: nat)
    requires m <= |ops| < MAX_SEQUENCE_NUMBER && RestOfLogs(d, r, ops, m) && r.done + k <= |BatchesOf(d, r.log)|
    ensures var taken := BatchesOf(d, r.log)[r.done..r.done + k];
      var n := m + |OpsOf(taken)|;
      && Chain(taken, m) && n <= |ops| && ops[m..n] == OpsOf(taken)
      && RestOfLogs(d, r.(done := r.done + k), ops, n)
  {
    hide Stream, Chain, OpsOf;
    var log := BatchesOf(d, r.log);
    var taken := log[r.done..r.done + k];
    var n := m + |OpsOf(taken)|;
    var any := SomeTop(d.logs, r.log);
    TakenAt(d, r, ops, m, k, any);
    forall top: nat | BoundedBy(d.logs, top) && r.log < top
      ensures var rest := log[r.done + k..] + Stream(d.logs, r.log + 1, top); Chain(rest, n) && OpsOf(rest) == ops[n..]
    {
      TakenAt(d, r, ops, m, k, top);
    }
  }

  lemma SomeTop(logs: Logs, n: nat) returns (top: nat)
    ensures BoundedBy(logs, top) && n < top
  {
    top := n + 1;
    var left := logs.Keys;
    while left != {}
      invariant n < top && left <= logs.Keys
      invariant forall k :: k in logs && k !in left ==> k < top
    {
      var k :| k in left;
      left := left - {k};
      if top <= k { top := k + 1; }
    }
  }

  lemma TakenAt(d: Disk, r: Recovery, ops: seq<Op>, m: nat, k: nat, top: nat)
    requires m <= |ops| && RestOfLogs(d, r, ops, m) && r.done + k <= |BatchesOf(d, r.log)|
    requires BoundedBy(d.logs, top) && r.log < top
    ensures var taken := BatchesOf(d, r.log)[r.done..r.done + k];
      var rest := BatchesOf(d, r.log)[r.done + k..] + Stream(d.logs, r.log + 1, top);
      var n := m + |OpsOf(taken)|;
      && Chain(taken, m) && n <= |ops| && ops[m..n] == OpsOf(taken)
      && Chain(rest, n) && OpsOf(rest) == ops[n..]
  {
    hide Stream, Chain, OpsOf;
    var log := BatchesOf(d, r.log);
    var taken := log[r.done..r.done + k];
    var rest := log[r.done + k..] + Stream(d.logs, r.log + 1, top);
    assert log[r.done..] + Stream(d.logs, r.log + 1, top) == taken + rest;
    ChainJoin(taken, rest, m);
    OpsOfJoin(taken, rest);
    var n := m + |OpsOf(taken)|;
    assert ops[m..] == OpsOf(taken) + OpsOf(rest);
    assert ops[m..n] == ops[m..][..n - m] && ops[n..] == ops[m..][n - m..];
  }

  /** The step leads to a state that has put operations up to n into tables. */
  ghost predicate RecoversTo(d: Disk, r: Recovery, s: RecoveryStep, ops: seq<Op>, a: nat, n: nat)
    requires CanRecover(d, r, s)
  {
    (s.WriteLogTable? ==> Sorted(TableOf(d, r, s.k)))
        && RecoveringOk(RecoverDisk(d, r, s), RecoverNext(d, r, s), ops, a, n)
  }

  lemma WriteLogTableKeeps(d: Disk, r: Recovery, ops: seq<Op>, a: nat, m: nat, k: nat, size: nat)
    requires RecoveringOk(d, r, ops, a, m) && CanRecover(d, r, WriteLogTable(k, size))
    ensures exists n :: RecoversTo(d, r, WriteLogTable(k, size), ops, a, n)
  {
    hide Durable, Recovered, Stream, Chain, OpsOf, InsertBatches, MemRange, VersionOk, AddEach, Shape, Held,
        RestOfLogs, LastOf;
    var s := WriteLogTable(k, size);
    var taken := BatchesOf(d, r.log)[r.done..r.done + k];
    var n := m + |OpsOf(taken)|;
    TakenBatches(d, r, ops, m, k);
    BatchesMakeRange(ops, m, taken);
    MemRangeHolds(ops, m, n);
    LastOfChain(taken, m, a, r.maxSequence);
    var e, q := RecoverDisk(d, r, s), RecoverNext(d, r, s);
    if TableOf(d, r, k) == [] {
      EmptyRange(ops, m, n);
      assert Progress(e, q, ops, a, n);
      SameRest(d, r.(done := r.done + k), e, q, ops, n);
    } else {
      TableWrittenProgress(d, r, ops, a, m, n, q.written[|q.written| - 1], q);
      NewTableStaysDurable(d, ops, a, r.nextFile, TableOf(d, r, k));
      SameRest(d, r.(done := r.done + k), e, q, ops, n);
    }
    assert RecoversTo(d, r, s, ops, a, n);
  }

  lemma EmptyRange(ops: seq<Op>, m: nat, n: nat)
    requires m <= n <= |ops| <= MAX_SEQUENCE_NUMBER && MemRange(ops, m, n) == []
    ensures m == n
  {
    if m < n { RangeHasLast(ops, m, n); }
  }

  lemma RangeHasLast(ops: seq<Op>, m: nat, n: nat)
    requires m < n <= |ops| <= MAX_SEQUENCE_NUMBER
    ensures MemRange(ops, m, n) != []
  {
    hide AddToMem;
    RangeUnfold(ops, m, n);
    assert EntryOf(ops, n) in AddToMem(MemRange(ops, m, n - 1), EntryOf(ops, n));
  }

  lemma SameRest(d: Disk, r: Recovery, e: Disk, q: Recovery, ops: seq<Op>, n: nat)
    requires n <= |ops| && RestOfLogs(d, r, ops, n)
    requires e.logs == d.logs && q.log == r.log && q.done == r.done && q.nextFile >= r.nextFile
    ensures RestOfLogs(e, q, ops, n)
  {
    hide Stream, Chain, OpsOf;
  }

  lemma TableWrittenProgress(d: Disk, r: Recovery, ops: seq<Op>, a: nat, m: nat, n: nat, f: File, q: Recovery)
    requires Progress(d, r, ops, a, m) && m <= n <= |ops|
    requires f.number == r.nextFile && f.entries == MemRange(ops, m, n)
    requires q == r.(done := q.done, maxSequence := q.maxSequence, written := r.written + [f],
        nextFile := r.nextFile + 1)
    requires q.maxSequence <= n && (n > a ==> q.maxSequence == n)
    ensures Progress(d.(tables := d.tables[f.number := f.entries]), q, ops, a, n)
  {
    hide Shape, Held, VersionOk, MemRange, ApplyEdit, AddEach, Increasing;
    ImageFlushed(AddEach(r.base, r.written), ops, m, n, f, r.nextFile);
    OneMoreTable(r.base, r.written, f, r.baseNext, r.nextFile);
  }

  lemma OneMoreTable(v: Version, files: seq<File>, f: File, lo: nat, hi: nat)
    requires Increasing(files, lo, hi) && lo <= hi == f.number
    ensures AddEach(v, files + [f]) == ApplyEdit(AddEach(v, files), FlushEdit(0, f))
    ensures Increasing(files + [f], lo, hi + 1)
    ensures forall g :: g in files ==> g.number < hi
  {
    hide ApplyEdit;
    assert (files + [f])[..|files|] == files;
  }

  // ---- the switch to the new manifest ----

  lemma NewManifest(v: Version, next: nat, files: seq<File>, hi: nat, r: Record)
    requires VersionOk(v, next) && Increasing(files, next, hi) && next <= hi && r.edit == TablesEdit(files)
    ensures var records := [SnapshotRecord(v), r];
      && EntersOnce(records) && Recovered(records) == AddEach(v, files)
      && StartedWith(records, v, files)
  {
    hide VersionOk, Recovered, ApplyEdit, AddEach, DistinctNumbers, SnapshotRecord, EverIn, AddedAt, LevelFiles;
    var first := [SnapshotRecord(v)];
    RecoverSnapshot(v, next);
    IncreasingDistinct(files, next, hi);
    NoneIsDistinct();
    forall l | 0 <= l < NUM_LEVELS
      ensures AddedAt(r.edit.added, l) == if l == 0 then files else []
      ensures DifferentNumbers(EverIn(first, l), AddedAt(r.edit.added, l))
    {
      AddedAtLevel(files, 0, l);
      SortedNumbered(v, next, l);
    }
    RecoverAppended(first, r);
    AddTogether(v, next, files, hi);
    assert first + [r] == [SnapshotRecord(v), r];
    forall l | 0 <= l < NUM_LEVELS ensures EverIn([SnapshotRecord(v), r], l) == v.files[l] + if l == 0 then files
        else [] {
      AppendedEdits(first, r, l);
    }
  }

  lemma NewCounters(v: Version, r: Record)
    requires r.logNumber.Some? && r.nextFile.Some? && r.lastSequence.Some?
    ensures var records := [SnapshotRecord(v), r];
      LogNumber(records) == r.logNumber && NextFile(records) == r.nextFile && LastSequence(records) == r.lastSequence
  {
    var first := [SnapshotRecord(v)];
    assert first + [r] == [SnapshotRecord(v), r];
    CountersOfAppend(first, r);
  }

  lemma OnlyNewLog(d: Disk, r: Recovery, ops: seq<Op>, newLog: nat)
    requires NewLogOk(d, r, newLog)
    ensures LogsHold(d.logs, newLog, ops, |ops|)
  {
    forall top: nat | BoundedBy(d.logs, top) && newLog <= top
      ensures Chain(Stream(d.logs, newLog, top), |ops|) && OpsOf(Stream(d.logs, newLog, top)) == ops[|ops|..]
    {
      StreamBeyond(d.logs, newLog, top);
    }
  }

  lemma WrittenPresent(d: Disk, v: Version, next: nat, files: seq<File>, hi: nat)
    requires VersionOk(v, next) && Increasing(files, next, hi) && next <= hi
    requires TablesPresent(d, v) && forall f :: f in files ==> FilePresent(d, f)
    ensures TablesPresent(d, AddEach(v, files))
  {
    hide VersionOk, AddEach, FilePresent;
    AddEachFiles(v, next, files, hi);
    forall f | InSomeLevel(AddEach(v, files), f) ensures FilePresent(d, f) {
      var l :| 0 <= l < NUM_LEVELS && f in AddEach(v, files).files[l];
      assert HasAlso(v, AddEach(v, files), files, l);
    }
  }

  lemma SetCurrentKeeps(d: Disk, r: Recovery, ops: seq<Op>, a: nat, m: nat)
    requires RecoveringOk(d, r, ops, a, m) && CanRecover(d, r, SetCurrent)
    ensures SwitchedOk(RecoverDisk(d, r, SetCurrent), RecoverNext(d, r, SetCurrent), ops, a)
  {
    hide Shape, Held, Recovered, VersionOk, AddEach, TablesEdit, SnapshotRecord, LogsHold, StoredUpTo, LogNumber,
        NextFile, LastSequence, TablesPresent,
         FilePresent;
    var e, q := RecoverDisk(d, r, SetCurrent), RecoverNext(d, r, SetCurrent);
    var newLog, w := r.stage.newLog, AddEach(r.base, r.written);
    var rec := RecoveredRecord(r, newLog);
    NewManifest(r.base, r.baseNext, r.written, r.nextFile, rec);
    NewCounters(r.base, rec);
    OnlyNewLog(e, q, ops, newLog);
    ImageVersionOk(w, ops, |ops|, r.nextFile);
    assert TablesPresent(e, w) && TablesPresent(e, r.base) by {
      SameTables(d, e, r.base);
      SamePresent(d, e, r.written);
      WrittenPresent(e, r.base, r.baseNext, r.written, r.nextFile);
    }
    SamePresent(d, e, r.written);
  }

  lemma SameTables(d: Disk, e: Disk, v: Version)
    requires e.tables == d.tables && TablesPresent(d, v)
    ensures TablesPresent(e, v)
  {
  }

  lemma SamePresent(d: Disk, e: Disk, files: seq<File>)
    requires e.tables == d.tables && forall f :: f in files ==> FilePresent(d, f)
    ensures forall f :: f in files ==> FilePresent(e, f)
  {
  }

  // ---- the database that comes up ----

  /** DB::Open once everything is on disk. */
  function Opened(r: Recovery, ops: seq<Op>): Process
    requires r.stage.Switched? && |ops| <= MAX_SEQUENCE_NUMBER
  {
    Process(Image(AddEach(r.base, r.written), ops, |ops|, r.nextFile), r.nextFile, r.stage.newLog, r.stage.newLog,
        r.baseNext,
            None, Idle, [], [])
  }

  ghost predicate StartedWith(records: seq<Record>, base: Version, written: seq<File>) {
    forall l :: 0 <= l < NUM_LEVELS ==> EverIn(records, l) == base.files[l] + if l == 0 then written else []
  }

  lemma OpenedOnlyDown(r: Recovery, records: seq<Record>, l: nat, m: nat, f: File, h: File)
    requires VersionOk(r.base, r.baseNext) && Increasing(r.written, r.baseNext, r.nextFile) && r.baseNext <= r.nextFile
    requires StartedWith(records, r.base, r.written)
    requires l < m < NUM_LEVELS && f in AddEach(r.base, r.written).files[l] && h in EverIn(records, m)
    ensures f.number != h.number
  {
    hide EverIn, AddEach, FilesSorted, WellShaped;
    AddEachFiles(r.base, r.baseNext, r.written, r.nextFile);
    assert HasAlso(r.base, AddEach(r.base, r.written), r.written, l);
    assert EverIn(records, m) == r.base.files[m] + [] == r.base.files[m];
    SortedNumbered(r.base, r.baseNext, m);
  }

  lemma OpenedNumbers(r: Recovery, p: Process, records: seq<Record>)
    requires Shape(p.db) && p.task.Idle? && p.outputs == [] && p.db.current == AddEach(r.base, r.written)
        && p.nextFile == r.nextFile
    requires VersionOk(r.base, r.baseNext) && Increasing(r.written, r.baseNext, r.nextFile) && r.baseNext <= r.nextFile
    requires StartedWith(records, r.base, r.written)
    ensures NumbersUsed(p, records)
  {
    hide Shape, Held, EverIn, AddEach, VersionOk;
    forall l, f | 0 <= l < NUM_LEVELS && f in EverIn(records, l)
      ensures f.number < p.nextFile && NotProduced(p, f.number) {
      SortedNumbered(r.base, r.baseNext, l);
    }
    forall l, m, f, h | 0 <= l < m < NUM_LEVELS && f in p.db.current.files[l] && h in EverIn(records, m)
      ensures f.number != h.number {
      OpenedOnlyDown(r, records, l, m, f, h);
    }
  }

  lemma OpenedIsUp(d: Disk, r: Recovery, ops: seq<Op>, a: nat)
    requires SwitchedOk(d, r, ops, a)
    ensures UpOk(d, Opened(r, ops), |ops|, |ops|)
  {
    hide Shape, Held, Complete, Recovered, AddEach, TablesEdit, SnapshotRecord, LogsHold, LogNumber, NextFile,
        LastSequence, Increasing, EntersOnce,
         NumbersUsed, VersionOk, InSomeLevel, StoredUpTo, EverIn;
    var p, records := Opened(r, ops), Head(d);
    var rec := RecoveredRecord(r, r.stage.newLog);
    NewManifest(r.base, r.baseNext, r.written, r.nextFile, rec);
    NewCounters(r.base, rec);
    ImageVersionOk(p.db.current, ops, |ops|, r.nextFile);
    OpenedNumbers(r, p, records);
    assert MemRange(ops, |ops|, |ops|) == [];
    assert MemOk(p, |ops|, |ops|);
    OpenedTables(d, r, ops);
    assert LogsOk(d, p, |ops|, |ops|) by {
      assert ops[|ops|..] + [] == [];
      NoOps([], 0);
    }
  }

  /** The database that comes up holds what the version and the logs did. */
  lemma OpenedHolds(d: Disk, r: Recovery, ops: seq<Op>, a: nat)
    requires SwitchedOk(d, r, ops, a)
    ensures a <= |ops| && Held(Opened(r, ops).db) == Held(Image(r.base, ops, a, r.baseNext))
  {
    hide Shape, Held, AddEach, Durable;
  }

  /** What the files say once CURRENT names the new manifest. */
  lemma SwitchedHolds(d: Disk, r: Recovery, ops: seq<Op>, a: nat)
    requires SwitchedOk(d, r, ops, a)
    ensures HeadOk(d) && a <= |ops| && Held(DiskDb(d, ops, |ops|)) == Held(Image(r.base, ops, a, r.baseNext))
  {
    hide Shape, Held, AddEach, Recovered, VersionOk, TablesEdit, SnapshotRecord, LogNumber, NextFile, LastSequence,
        Increasing, EntersOnce,
         EverIn, StoredUpTo, LogsHold, TablesPresent, FilePresent;
    var rec := RecoveredRecord(r, r.stage.newLog);
    NewManifest(r.base, r.baseNext, r.written, r.nextFile, rec);
    NewCounters(r.base, rec);
  }

  /** What the files say while CURRENT still names the old one. */
  lemma RecoveringHolds(d: Disk, r: Recovery, ops: seq<Op>, a: nat, m: nat)
    requires RecoveringOk(d, r, ops, a, m)
    ensures HeadOk(d) && a <= |ops| < MAX_SEQUENCE_NUMBER && DiskDb(d, ops, a) == Image(r.base, ops, a, r.baseNext)
  {
    hide Shape, Held, AddEach, Recovered, Durable;
  }

  lemma OpenedTables(d: Disk, r: Recovery, ops: seq<Op>)
    requires |ops| < MAX_SEQUENCE_NUMBER && r.stage.Switched?
        && Shape(Image(AddEach(r.base, r.written), ops, |ops|, r.nextFile))
    requires VersionOk(r.base, r.baseNext) && Increasing(r.written, r.baseNext, r.nextFile) && r.baseNext < r.nextFile
    requires TablesPresent(d, r.base) && forall f :: f in r.written ==> FilePresent(d, f)
    ensures TablesOk(d, Opened(r, ops))
  {
    hide Shape, Held, Complete, AddEach, FilePresent, Increasing, VersionOk, InSomeLevel;
    var p := Opened(r, ops);
    ImageVersionOk(p.db.current, ops, |ops|, r.nextFile);
    WrittenPresent(d, r.base, r.baseNext, r.written, r.nextFile);
    forall f | Needed(p, f) ensures f.number < p.nextFile && FilePresent(d, f) {
      NumberedBelow(p.db.current, r.nextFile, f);
    }
  }
}
