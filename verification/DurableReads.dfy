/** Runs with crashes.  A crash and the recovery after it change no read; no
    acknowledged batch is ever lost; and as long as no compaction loses a
    deletion, every read is what the acknowledged operations made of the map. */
module DurableReads {
  import opened InternalKeys
  import opened Versions
  import opened History
  import opened LsmState
  import opened LsmSteps
  import opened LostDeletion
  import opened LsmRuns
  import opened WriteAheadLog
  import opened DurableState
  import opened DurableImage
  import opened DurableSteps
  import opened CrashRecovery
  import opened RecoverySteps
  import opened DurableRuns

  ghost predicate Fine(x: Sys) {
    exists h :: SysOk(x, h)
  }

  ghost predicate StepsTo(x: Sys, e: Event, y: Sys) {
    Fine(x) ==> HasFiles(x) && |x.acked + x.unacked| < MAX_SEQUENCE_NUMBER && CanHappen(x, e) && y == Happen(x, e)
  }

  ghost predicate IsDurableRun(states: seq<Sys>, events: seq<Event>) {
    && |states| == |events| + 1 && Fine(states[0])
    && forall i :: 0 <= i < |events| ==> StepsTo(states[i], events[i], states[i + 1])
  }

  /** No flush goes where the compaction in progress will write across it. */
  ghost predicate AllApart(states: seq<Sys>, events: seq<Event>) {
    |states| == |events| + 1 && forall i :: 0 <= i < |events| ==> EventApart(states[i], events[i])
  }

  ghost predicate EventLosesNothing(x: Sys, e: Event) {
    e.Run? && x.proc.Up? ==> StepLosesNothing(x.proc.p, e.step)
  }

  /** No compaction that is installed lets a deleted value come back. */
  ghost predicate AllLoseNothing(states: seq<Sys>, events: seq<Event>) {
    |states| == |events| + 1 && forall i :: 0 <= i < |events| ==> EventLosesNothing(states[i], events[i])
  }

  ghost predicate EventClosed(x: Sys, e: Event) {
    e.Run? && x.proc.Up? ==> StepClosed(x.proc.p, e.step)
  }

  ghost predicate AllClosed(states: seq<Sys>, events: seq<Event>) {
    |states| == |events| + 1 && forall i :: 0 <= i < |events| ==> EventClosed(states[i], events[i])
  }

  lemma {:induction false} RunStaysFine(states: seq<Sys>, events: seq<Event>, i: nat)
    requires IsDurableRun(states, events) && AllApart(states, events) && i < |states|
    ensures Fine(states[i])
  {
    hide SysOk, CanHappen, Happen, HasFiles, EventApart;
    if i > 0 {
      RunStaysFine(states, events, i - 1);
      assert StepsTo(states[i - 1], events[i - 1], states[i]) && EventApart(states[i - 1], events[i - 1]);
      var h :| SysOk(states[i - 1], h);
      var k := HappenKeeps(states[i - 1], events[i - 1], h);
    }
  }

  // ---- crashes change no read ----

  /** Nothing but crashes and recoveries happens from i to j. */
  ghost predicate OnlyRecovers(events: seq<Event>, i: nat, j: nat) {
    i < j <= |events| && forall k :: i <= k < j ==> !events[k].Run?
  }

  lemma {:induction false} HeldThroughRecovery(states: seq<Sys>, events: seq<Event>, i: nat, j: nat, h: iset<Entry>)
    requires IsDurableRun(states, events) && AllApart(states, events) && OnlyRecovers(events, i, j)
    requires SysOk(states[i], h)
    ensures SysOk(states[j], h) && states[j].acked + states[j].unacked == states[i].acked + states[i].unacked
    ensures states[j].proc.Up? ==> Held(states[j].proc.p.db) == h && states[j].unacked == []
    decreases j - i
  {
    hide SysOk, CanHappen, Happen, HasFiles, EventApart, Held;
    if j > i + 1 {
      HeldThroughRecovery(states, events, i, j - 1, h);
    }
    var x, e := states[j - 1], events[j - 1];
    assert Fine(x);
    assert StepsTo(x, e, states[j]) && EventApart(x, e);
    var k := HappenKeeps(x, e, h);
    RecoveryEvent(x, e, h);
  }

  lemma RecoveryEvent(x: Sys, e: Event, h: iset<Entry>)
    requires SysOk(x, h) && CanHappen(x, e) && !e.Run?
    ensures HasFiles(x)
    ensures var y := Happen(x, e);
      && y.acked + y.unacked == x.acked + x.unacked
      && (y.proc.Up? ==> Held(y.proc.p.db) == h && y.unacked == [])
  {
    hide Held, UpHolds, DownHolds, RecoveryHolds, CanRecover, HeadOk, StartRecovery, RecoverDisk, RecoverNext, Opened;
    UpHasFiles(x, h);
    if e.Open? {
      OpenHolds(x, h);
      assert x.acked + x.unacked + [] == x.acked + x.unacked;
    }
  }

  lemma HeldBeforeCrash(x: Sys, h: iset<Entry>)
    requires SysOk(x, h) && x.proc.Up?
    ensures Shape(x.proc.p.db) && TaskOk(x.proc.p) && |x.proc.p.db.ops| + |Pending(x.proc.p)| < MAX_SEQUENCE_NUMBER
    ensures AfterDb(x.proc.p).ops == x.proc.p.db.ops && Held(Future(x.proc.p)) == h
  {
    hide Held, Future, AfterDb;
    var a, g :| UpHolds(x.disk, x.proc.p, a, g, h);
    UpParts(x.disk, x.proc.p, a, g);
  }

  /** Whenever a process dies and the database is up again, with no step of a
      process between, every read at every snapshot returns what it would have
      returned in the process that died, once the change and the batch that had
      reached its files were in memory too; whatever compactions did before. */
  lemma CrashChangesNoRead(states: seq<Sys>, events: seq<Event>, i: nat, j: nat, user: UserKey, s: SequenceNumber,
      r: GetResult)
    requires IsDurableRun(states, events) && AllApart(states, events) && OnlyRecovers(events, i, j)
    requires states[i].proc.Up? && states[j].proc.Up?
    ensures states[j].acked == states[i].acked + states[i].unacked
    ensures var p := states[i].proc.p;
      && Shape(p.db) && TaskOk(p) && |p.db.ops| + |Pending(p)| < MAX_SEQUENCE_NUMBER && AfterDb(p).ops == p.db.ops
      && (Reads(states[j].proc.p.db, user, s, r) <==> Reads(Future(p), user, s, r))
  {
    hide SysOk, Held, Reads, StepsTo, EventApart, Future, AfterDb;
    RunStaysFine(states, events, i);
    var h :| SysOk(states[i], h);
    HeldBeforeCrash(states[i], h);
    HeldThroughRecovery(states, events, i, j, h);
    assert states[j].acked + [] == states[j].acked;
    SameReads(states[j].proc.p.db, Future(states[i].proc.p), user, s, r);
  }

  // ---- no acknowledged operation is lost ----

  /** What is acknowledged only ever grows, and by whole batches: the one being
      acknowledged, or the one a crash left whole in the log. */
  lemma AckedByBatches(x: Sys, e: Event, h: iset<Entry>)
    requires SysOk(x, h) && HasFiles(x) && CanHappen(x, e)
    ensures var y := Happen(x, e); y.acked == x.acked || (y.acked == x.acked + x.unacked && y.unacked == [])
  {
    hide CanHappen, HasFiles, DownHolds, UpHolds, RecoveryHolds;
  }

  /** No acknowledged operation is lost, however often the process dies. */
  lemma {:induction false} AcknowledgedSurvive(states: seq<Sys>, events: seq<Event>, i: nat, j: nat)
    requires IsDurableRun(states, events) && AllApart(states, events) && i <= j < |states|
    ensures states[i].acked <= states[j].acked
  {
    hide SysOk, CanHappen, Happen, HasFiles, EventApart;
    if i < j {
      AcknowledgedSurvive(states, events, i, j - 1);
      RunStaysFine(states, events, j - 1);
      assert StepsTo(states[j - 1], events[j - 1], states[j]);
      var h :| SysOk(states[j - 1], h);
      AckedByBatches(states[j - 1], events[j - 1], h);
    }
  }

  /** DeleteObsoleteFiles included, no step of any run removes a table that the
      process, a reader, a compaction or a recovery may still need, nor a log or
      manifest that a recovery would read. */
  lemma NothingNeededIsMissing(states: seq<Sys>, events: seq<Event>, i: nat)
    requires IsDurableRun(states, events) && AllApart(states, events) && i < |states|
    ensures exists a :: Durable(states[i].disk, states[i].acked + states[i].unacked, a)
    ensures states[i].proc.Up? ==>
      && Shape(states[i].proc.p.db) && TaskOk(states[i].proc.p)
      && forall f :: Needed(states[i].proc.p, f) ==> FilePresent(states[i].disk, f)
  {
    hide Durable, IsDurableRun, AllApart, Held;
    RunStaysFine(states, events, i);
    var h :| SysOk(states[i], h);
    AlwaysDurable(states[i], h);
    var a :| DownHolds(states[i].disk, states[i].acked + states[i].unacked, a, h);
    assert Durable(states[i].disk, states[i].acked + states[i].unacked, a);
    if states[i].proc.Up? {
      var b, g :| UpHolds(states[i].disk, states[i].proc.p, b, g, h);
    }
  }

  // ---- completeness, when no compaction loses a deletion ----

  /** The entries h suffice to answer every read of the history `ops`. */
  ghost predicate Suffices(h: iset<Entry>, ops: seq<Op>) {
    |ops| <= MAX_SEQUENCE_NUMBER && forall db: Db ::
        db.ops == ops && db.floor == |ops| && Held(db) == h ==> ReadsRight(db)
  }

  ghost predicate ProcessRight(p: Process) {
    |p.db.ops| <= MAX_SEQUENCE_NUMBER && ReadsRight(p.db) && (p.task.Logged? ==> LosesNothing(p.db, p.task.action))
  }

  ghost predicate SysRight(x: Sys, h: iset<Entry>) {
    if x.proc.Up? then ProcessRight(x.proc.p) else Suffices(h, x.acked + x.unacked)
  }

  lemma AfterIsRight(p: Process)
    requires Shape(p.db) && TaskOk(p) && ProcessRight(p)
    ensures |AfterDb(p).ops| <= MAX_SEQUENCE_NUMBER && ReadsRight(AfterDb(p)) && Shape(AfterDb(p))
  {
    hide Shape, ReadsRight, Enabled, Apart, LosesNothing;
    HistoryFits(p.db);
    if p.task.Logged? {
      assert Enabled(p.db, p.task.action) && Apart(p.db, p.task.action);
      NextKeepsShape(p.db, p.task.action);
      NextKeepsReadsExactly(p.db, p.task.action);
    }
  }

  lemma FutureSuffices(p: Process)
    requires Shape(p.db) && TaskOk(p) && ProcessRight(p) && |p.db.ops| + |Pending(p)| < MAX_SEQUENCE_NUMBER
    ensures AfterDb(p).ops == p.db.ops && Suffices(Held(Future(p)), p.db.ops + Pending(p))
  {
    hide Shape, ReadsRight, Held, AfterDb, ProcessRight, WriteAll;
    AfterKeepsShape(p);
    AfterIsRight(p);
    var n := WriteAll(AfterDb(p), Pending(p));
    WriteAllKeepsShape(AfterDb(p), Pending(p));
    assert n.floor <= |n.ops| by { FloorWithin(n); }
    forall db: Db | db.ops == n.ops && db.floor == |n.ops| && Held(db) == Held(n) ensures ReadsRight(db) {
      SameHeldReads(n, db);
    }
  }

  lemma FloorWithin(db: Db)
    requires Shape(db)
    ensures db.floor <= |db.ops|
  {
  }

  /** Operations that come later, and versions that move, do not bring a deleted
      value back. */
  lemma StillLosesNothing(x: Db, y: Db, a: Action)
    requires LosesNothing(x, a) && x.current == y.current && x.running == y.running && |x.ops| <= |y.ops|
    requires forall e :: Holds(x, e) ==> Holds(y, e)
    requires forall e :: Holds(y, e) ==> Holds(x, e) || e.key.sqn > |x.ops|
    ensures LosesNothing(y, a)
  {
    hide Holds, LeftOut, ObsoleteTombstone, InInputs;
    if a.InstallOutputs? {
      forall user, d, e | Resurrects(y, user, d, e) ensures Resurrects(x, user, d, e) {
        assert NewestHeld(x, user, x.running.value.smallestSnapshot, d);
      }
    }
  }

  /** Steps that leave version and compaction alone keep a logged change as
      harmless as it was. */
  lemma StepKeepsTask(p: Process, s: Step)
    requires Shape(p.db) && TaskOk(p) && CanStep(p, s) && |p.db.ops| + |Pending(p)| < MAX_SEQUENCE_NUMBER
    requires p.task.Logged? && !s.InstallChange? && LosesNothing(p.db, p.task.action)
    ensures var q := NextProcess(p, s); q.task.Logged? ==> LosesNothing(q.db, q.task.action)
  {
    hide Shape, LosesNothing, Enabled, Apart, Live, CanFlush, Next, WriteAll, Holds;
    var q := NextProcess(p, s);
    match s {
      case ApplyBatch =>
        var more := p.inflight.value;
        WriteAllIs(p.db, more);
        forall e
          ensures Holds(p.db, e) ==> Holds(q.db, e)
          ensures Holds(q.db, e) ==> Holds(p.db, e) || e.key.sqn > |p.db.ops|
        {
          WriteAllAdds(p.db, more, e);
        }
      case SwitchLog =>
        SwitchKeepsReads(p.db);
        forall e ensures Holds(p.db, e) <==> Holds(q.db, e) { InHeld(p.db, q.db, e); }
      case InMemory(x) =>
        InMemoryChanges(p.db, x);
        InMemoryLosesNothing(p.db, x);
        OthersHoldTheSame(p.db, x);
        forall e ensures Holds(p.db, e) <==> Holds(q.db, e) { InHeld(p.db, q.db, e); }
      case _ =>
    }
    if q.task.Logged? { StillLosesNothing(p.db, q.db, q.task.action); }
  }

  lemma SwitchKeepsReads(db: Db)
    requires Shape(db) && db.imm.None?
    ensures |db.ops| <= MAX_SEQUENCE_NUMBER && Held(db) == Held(Switch(db)) && Switch(db).ops == db.ops
    ensures ReadsRight(db) ==> ReadsRight(Switch(db))
  {
    hide Shape, ReadsRight, Held;
    OthersHoldTheSame(db, SwitchMemTable);
    KeepsReads(db, SwitchMemTable);
  }

  lemma InHeld(a: Db, b: Db, e: Entry)
    requires Held(a) == Held(b)
    ensures Holds(a, e) <==> Holds(b, e)
  {
    hide Holds;
    assert e in Held(a) <==> e in Held(b);
  }

  lemma StepKeepsRight(p: Process, s: Step)
    requires Shape(p.db) && TaskOk(p) && CanStep(p, s) && |p.db.ops| + |Pending(p)| < MAX_SEQUENCE_NUMBER
    requires ProcessRight(p) && StepLosesNothing(p, s)
    ensures ProcessRight(NextProcess(p, s))
  {
    hide Shape, ReadsRight, LosesNothing, Enabled, Apart, Live, CanFlush, Next, WriteAll;
    var q := NextProcess(p, s);
    if p.task.Logged? && !s.InstallChange? { StepKeepsTask(p, s); }
    HistoryFits(p.db);
    match s
    case ApplyBatch =>
      WriteAllKeepsShape(p.db, p.inflight.value);
    case SwitchLog => SwitchKeepsReads(p.db);
    case InMemory(x) =>
      InMemoryLosesNothing(p.db, x);
      NextKeepsReadsExactly(p.db, x);
    case InstallChange =>
      AfterIsRight(p);
    case _ =>
  }

  lemma InMemoryLosesNothing(db: Db, x: Action)
    requires StaysInMemory(x)
    ensures Apart(db, x) && LosesNothing(db, x)
  {
  }

  lemma HappenKeepsRight(x: Sys, e: Event, h: iset<Entry>)
    requires SysOk(x, h) && SysRight(x, h) && CanHappen(x, e) && EventApart(x, e) && EventLosesNothing(x, e)
    ensures HasFiles(x) && SysRight(Happen(x, e), h)
  {
    hide Shape, ReadsRight, Held, Future, TaskOk, CanStep, NextProcess, NextDisk, DownHolds, RecoveryHolds, Suffices,
        ProcessRight, CanRecover,
         StepLosesNothing, UpHolds, RecoverDisk, RecoverNext, StartRecovery, Opened, Durable, HeadOk;
    UpHasFiles(x, h);
    match e
    case Run(s) => StepKeepsRight(x.proc.p, s);
    case Crash =>
      if x.proc.Up? {
        HeldBeforeCrash(x, h);
        FutureSuffices(x.proc.p);
      }
    case Start =>
    case Recover(s) =>
    case Open => OpenKeepsRight(x, h);
  }

  lemma OpenKeepsRight(x: Sys, h: iset<Entry>)
    requires SysOk(x, h) && CanHappen(x, Open) && Suffices(h, x.acked + x.unacked)
    ensures HasFiles(x) && SysRight(Happen(x, Open), h)
  {
    hide Shape, ReadsRight, Held, AddEach, RecoveryHolds;
    OpenHolds(x, h);
  }

  lemma {:induction false} RunStaysRight(states: seq<Sys>, events: seq<Event>, h0: iset<Entry>, i: nat)
      returns (h: iset<Entry>)
    requires IsDurableRun(states, events) && AllApart(states, events) && AllLoseNothing(states, events) && i < |states|
    requires SysOk(states[0], h0) && SysRight(states[0], h0)
    ensures SysOk(states[i], h) && SysRight(states[i], h)
  {
    hide SysOk, SysRight, CanHappen, Happen, HasFiles, EventApart, EventLosesNothing;
    h := h0;
    if i > 0 {
      h := RunStaysRight(states, events, h0, i - 1);
      var x, e := states[i - 1], events[i - 1];
      assert Fine(x);
      assert StepsTo(x, e, states[i]) && EventApart(x, e) && EventLosesNothing(x, e);
      HappenKeepsRight(x, e, h);
      var k := HappenKeeps(x, e, h);
      HeldOfStep(x, e, h, k);
      h := k;
    }
  }

  /** For a running process completeness does not depend on h. */
  lemma HeldOfStep(x: Sys, e: Event, h: iset<Entry>, k: iset<Entry>)
    requires HasFiles(x) && CanHappen(x, e) && |x.acked + x.unacked| < MAX_SEQUENCE_NUMBER
    requires SysRight(Happen(x, e), h) && (!e.Run? ==> k == h)
    ensures SysRight(Happen(x, e), k)
  {
    hide CanHappen, HasFiles, Suffices, ProcessRight;
  }

  /** While the database is up, every read, now or at a snapshot taken since it
      came up and not released, returns what so many of the acknowledged
      operations made of the map; those acknowledged before any crash included. */
  lemma ReadsSurviveCrashes(states: seq<Sys>, events: seq<Event>, h0: iset<Entry>, i: nat, j: nat, user: UserKey,
      s: SequenceNumber)
    requires IsDurableRun(states, events) && AllApart(states, events) && AllLoseNothing(states, events)
    requires SysOk(states[0], h0) && SysRight(states[0], h0)
    requires i <= j < |states| && states[j].proc.Up?
    requires s == |states[j].acked| || s in states[j].proc.p.db.snapshots
    ensures states[i].acked <= states[j].acked && s <= |states[j].acked|
    ensures Reads(states[j].proc.p.db, user, s, ReadAt(states[j].acked, s, user))
  {
    hide IsDurableRun, AllApart, AllLoseNothing, SysOk, SysRight;
    AcknowledgedSurvive(states, events, i, j);
    var h := RunStaysRight(states, events, h0, j);
    UpReads(states[j], h, user, s);
  }

  lemma UpReads(x: Sys, h: iset<Entry>, user: UserKey, s: SequenceNumber)
    requires SysOk(x, h) && SysRight(x, h) && x.proc.Up?
    requires s == |x.acked| || s in x.proc.p.db.snapshots
    ensures s <= |x.acked| && Reads(x.proc.p.db, user, s, ReadAt(x.acked, s, user))
  {
    hide Shape, ReadsRight, TaskOk, Reads, Held, Future, AfterDb, LosesNothing, ReadAt;
    HeldBeforeCrash(x, h);
    var db := x.proc.p.db;
    assert db.ops == x.acked;
    SnapshotsAreUsable(db);
    RightAt(db, user, s);
  }

  lemma RightAt(db: Db, user: UserKey, s: SequenceNumber)
    requires |db.ops| <= MAX_SEQUENCE_NUMBER && ReadsRight(db) && db.floor <= s <= |db.ops|
    ensures Reads(db, user, s, ReadAt(db.ops, s, user))
  {
  }

  /** Installing only right-closed compactions is enough. */
  lemma ClosedEventsLoseNothing(states: seq<Sys>, events: seq<Event>)
    requires IsDurableRun(states, events) && AllApart(states, events) && AllClosed(states, events)
    ensures AllLoseNothing(states, events)
  {
    hide SysOk, CanHappen, Happen, HasFiles, EventApart, LosesNothing, LowerClosed, Shape;
    forall i | 0 <= i < |events| ensures EventLosesNothing(states[i], events[i]) {
      RunStaysFine(states, events, i);
      var h :| SysOk(states[i], h);
      assert EventClosed(states[i], events[i]);
      if events[i].Run? && states[i].proc.Up? && events[i].step.LogChange? {
        HeldBeforeCrash(states[i], h);
        ClosedLosesNothing(states[i].proc.p.db, events[i].step.action);
      }
    }
  }

  /** A new database is where every such run can start. */
  lemma NewDbIsRight()
    ensures SysOk(NEW_DB, iset{}) && SysRight(NEW_DB, iset{})
  {
    hide Durable;
    NewDbIsOk();
    var none: seq<Op> := [];
    assert none + none == none;
    forall db: Db | db.ops == none && db.floor == 0 && Held(db) == iset{} ensures ReadsRight(db) {
      EmptyReadsRight(db);
    }
  }

  lemma EmptyReadsRight(db: Db)
    requires db.ops == [] && Held(db) == iset{}
    ensures ReadsRight(db)
  {
    hide Holds;
    forall e ensures !Holds(db, e) { assert e in Held(db) <==> Holds(db, e); }
    forall user: UserKey, s: nat | db.floor <= s <= |db.ops| ensures Reads(db, user, s, ReadAt(db.ops, s, user)) {
      assert NoneHeld(db, user, s) && db.ops[..s] == [];
    }
  }
}
