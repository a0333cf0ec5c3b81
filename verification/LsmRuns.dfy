/** Whole runs of the database. */
module LsmRuns {
  import opened InternalKeys
  import opened Versions
  import opened InputSelection
  import opened CompactionSetup
  import opened ManifestReplay
  import opened History
  import opened LsmState
  import opened LsmVersions
  import opened LsmOrder
  import opened LsmSteps
  import opened LsmCompaction
  import opened LostDeletion

  datatype Action =
    | WriteOp(op: Op)
    | SwitchMemTable
    | FlushTo(level: nat, file: File)
    | FlushEmpty
    | NewSnapshot
    | DropSnapshot(i: nat)
    | BeginCompaction(c: Compaction)
    | InstallOutputs(outputs: seq<File>, next: nat)
    | MoveFile(c: Compaction)

  /** What the code establishes before each action. */
  ghost predicate Enabled(db: Db, a: Action) {
    match a
    case WriteOp(op) => |db.ops| + 1 < MAX_SEQUENCE_NUMBER
    case SwitchMemTable => db.imm.None?
    case FlushTo(level, file) => CanFlush(db, level, file)
    case FlushEmpty => db.imm == Some([])
    case NewSnapshot => true
    case DropSnapshot(i) => i < |db.snapshots|
    case BeginCompaction(c) => db.running.None? && Selected(db.current, c)
    case InstallOutputs(outputs, next) => CanInstall(db, outputs, next)
    case MoveFile(c) => CanMove(db, c)
  }

  ghost function Next(db: Db, a: Action): Db
    requires Shape(db) && Enabled(db, a)
  {
    match a
    case WriteOp(op) => Write(db, op)
    case SwitchMemTable => Switch(db)
    case FlushTo(level, file) => Flush(db, level, file)
    case FlushEmpty => FlushNothing(db)
    case NewSnapshot => TakeSnapshot(db)
    case DropSnapshot(i) => ReleaseSnapshot(db, i)
    case BeginCompaction(c) => Begin(db, c)
    case InstallOutputs(outputs, next) => Install(db, outputs, next)
    case MoveFile(c) => Move(db, c)
  }

  /** The hypothesis under which an installation loses no deletion. */
  ghost predicate LowerClosed(db: Db, a: Action) {
    a.InstallOutputs? ==>
      db.running.Some? && db.running.value.c.level + 1 < NUM_LEVELS && LowerInputsClosed(db.current, db.running.value.c)
  }

  /** The hypothesis under which a flush leaves levels disjoint. */
  ghost predicate Apart(db: Db, a: Action) {
    a.FlushTo? ==> FlushApart(db, a.level, a.file)
  }

  lemma NextKeepsShape(db: Db, a: Action)
    requires Shape(db) && Enabled(db, a) && Apart(db, a)
    ensures Shape(Next(db, a)) && db.ops <= Next(db, a).ops
    ensures Complete(db) && LowerClosed(db, a) ==> Complete(Next(db, a))
  {
    HistoryFits(db);
    hide Shape, Complete, CanFlush, FlushApart, CanInstall, CanMove, Selected, LowerInputsClosed;
    match a
    case WriteOp(op) => WriteKeepsShape(db, op);
    case SwitchMemTable => SwitchKeepsShape(db);
    case FlushTo(level, file) => FlushKeepsShape(db, level, file);
    case FlushEmpty => FlushNothingKeepsShape(db);
    case NewSnapshot => SnapshotsKeepShape(db);
    case DropSnapshot(i) => SnapshotsKeepShape(db);
    case BeginCompaction(c) => BeginKeepsShape(db, c);
    case InstallOutputs(outputs, next) =>
      InstallKeepsShape(db, outputs, next);
      if Complete(db) && LowerClosed(db, a) { InstallKeepsInv(db, outputs, next); }
    case MoveFile(c) => MoveKeepsShape(db, c);
  }

  /** An installation after which no deleted value is seen again. */
  ghost predicate LosesNothing(db: Db, a: Action) {
    a.InstallOutputs? ==>
      && db.running.Some? && db.running.value.c.level + 1 < NUM_LEVELS
      && db.running.value.smallestSnapshot <= |db.ops| && NoneResurrects(db)
  }

  lemma ClosedLosesNothing(db: Db, a: Action)
    requires Shape(db) && LowerClosed(db, a)
    ensures LosesNothing(db, a)
  {
    hide VersionOk, Ordered, AllFromHistory, Replaceable, DeepEnough, LowerInputsClosed, Resurrects;
    if a.InstallOutputs? {
      forall user, d, e ensures !Resurrects(db, user, d, e) {
        ClosedInputsLoseNothing(db, user, d, e);
      }
    }
  }

  /** Actions that only move versions from one place to another. */
  lemma OthersHoldTheSame(db: Db, a: Action)
    requires Shape(db) && Enabled(db, a) && Apart(db, a) && !a.WriteOp? && !a.InstallOutputs?
    ensures Held(Next(db, a)) == Held(db) && Next(db, a).ops == db.ops && Next(db, a).floor == db.floor
  {
    hide CanFlush, FlushApart, CanMove, Selected, VersionOk, Ordered, AllFromHistory, RunningOk, InVersion, ApplyEdit;
    match a
    case SwitchMemTable =>
    case FlushTo(level, file) => FlushKeepsShape(db, level, file);
    case FlushEmpty =>
    case NewSnapshot =>
    case DropSnapshot(i) =>
    case BeginCompaction(c) =>
    case MoveFile(c) => MoveKeepsShape(db, c);
  }

  /** Actions other than writes and installations change no read. */
  lemma KeepsReads(db: Db, a: Action)
    requires Shape(db) && Enabled(db, a) && Apart(db, a) && !a.WriteOp? && !a.InstallOutputs?
    ensures |db.ops| <= MAX_SEQUENCE_NUMBER && |Next(db, a).ops| <= MAX_SEQUENCE_NUMBER
    ensures ReadsRight(db) ==> ReadsRight(Next(db, a))
  {
    HistoryFits(db);
    hide Shape, ReadsRight, Enabled, Apart, Next;
    OthersHoldTheSame(db, a);
    if ReadsRight(db) { SameHeldReads(db, Next(db, a)); }
  }

  /** If all reads are right, every action leaves them right, but for the
      installation of a compaction that lets a deleted value come back. */
  lemma NextKeepsReadsExactly(db: Db, a: Action)
    requires Shape(db) && Enabled(db, a) && Apart(db, a) && ReadsRight(db)
    ensures |Next(db, a).ops| <= MAX_SEQUENCE_NUMBER
    ensures ReadsRight(Next(db, a)) <==> LosesNothing(db, a)
  {
    HistoryFits(db);
    NextKeepsShape(db, a);
    HistoryFits(Next(db, a));
    hide Shape, ReadsRight, Complete, CanFlush, FlushApart, CanInstall, CanMove, Selected, NoneResurrects, Write;
    match a
    case WriteOp(op) => WriteKeepsReads(db, op);
    case InstallOutputs(outputs, next) =>
      RunningIsBounded(db);
      InstallKeepsReadsExactly(db, outputs, next);
    case _ => KeepsReads(db, a);
  }

  lemma RunningIsBounded(db: Db)
    requires Shape(db)
    ensures db.running.Some? ==>
      db.running.value.c.level + 1 < NUM_LEVELS && db.running.value.smallestSnapshot <= |db.ops|
  {
    if db.running.Some? { RunningBounds(db); }
  }

  ghost predicate StepTo(db: Db, a: Action, n: Db) {
    Shape(db) ==> Enabled(db, a) && n == Next(db, a)
  }

  ghost predicate IsRun(states: seq<Db>, actions: seq<Action>) {
    && |states| == |actions| + 1
    && Shape(states[0])
    && forall i :: 0 <= i < |actions| ==> StepTo(states[i], actions[i], states[i + 1])
  }

  /** No flush drops a file where the compaction in progress will write across
      it. */
  ghost predicate FlushesApart(states: seq<Db>, actions: seq<Action>) {
    |states| == |actions| + 1 && forall i :: 0 <= i < |actions| ==> Apart(states[i], actions[i])
  }

  /** Only right-closed compactions are installed. */
  ghost predicate InstallsClosed(states: seq<Db>, actions: seq<Action>) {
    |states| == |actions| + 1 && forall i :: 0 <= i < |actions| ==> LowerClosed(states[i], actions[i])
  }

  const EMPTY := Db([], None, VersionRep([[], [], [], [], [], [], []]), 2, [], None, [], 0)

  /** A newly created database is where every run can start. */
  lemma EmptyIsValid()
    ensures Inv(EMPTY)
  {
    EmptyStoresNothing();
    assert forall l :: 0 <= l < NUM_LEVELS ==> EMPTY.current.files[l] == [];
    assert forall e :: !Holds(EMPTY, e);
  }

  lemma EmptyStoresNothing()
    ensures forall p, e :: !At(EMPTY.current, p, e)
    ensures forall e :: !InVersion(EMPTY.current, e)
  {
    assert forall l :: 0 <= l < NUM_LEVELS ==> EMPTY.current.files[l] == [];
    forall p, e ensures !At(EMPTY.current, p, e) {
      AtMeansFile(EMPTY.current, p, e);
    }
  }

  /** Newest-first order, disjoint levels and provenance hold in every run. */
  lemma {:induction false} RunKeepsShape(states: seq<Db>, actions: seq<Action>, i: nat, j: nat)
    requires IsRun(states, actions) && FlushesApart(states, actions) && i <= j < |states|
    ensures Shape(states[j]) && states[i].ops <= states[j].ops
  {
    hide Shape, Enabled, Next, Apart;
    if j > 0 {
      RunKeepsShape(states, actions, if i < j then i else i - 1, j - 1);
      assert StepTo(states[j - 1], actions[j - 1], states[j]) && Apart(states[j - 1], actions[j - 1]);
      NextKeepsShape(states[j - 1], actions[j - 1]);
    }
  }

  lemma {:induction false} ClosedRunKeepsInv(states: seq<Db>, actions: seq<Action>, i: nat)
    requires IsRun(states, actions) && Complete(states[0]) && i < |states|
    requires FlushesApart(states, actions) && InstallsClosed(states, actions)
    ensures Inv(states[i])
  {
    hide Shape, Complete, Enabled, Next, LowerClosed, Apart;
    RunKeepsShape(states, actions, 0, i);
    if i > 0 {
      ClosedRunKeepsInv(states, actions, i - 1);
      assert StepTo(states[i - 1], actions[i - 1], states[i]);
      assert LowerClosed(states[i - 1], actions[i - 1]) && Apart(states[i - 1], actions[i - 1]);
      NextKeepsShape(states[i - 1], actions[i - 1]);
    }
  }

  /** No installation lets a deleted value come back. */
  ghost predicate InstallsLoseNothing(states: seq<Db>, actions: seq<Action>) {
    |states| == |actions| + 1 && forall i :: 0 <= i < |actions| ==> LosesNothing(states[i], actions[i])
  }

  ghost predicate ReadsRightUpTo(states: seq<Db>, n: nat) {
    forall i :: 0 <= i < |states| && i <= n ==> |states[i].ops| <= MAX_SEQUENCE_NUMBER && ReadsRight(states[i])
  }

  lemma {:induction false} LosslessRun(states: seq<Db>, actions: seq<Action>, i: nat)
    requires IsRun(states, actions) && ReadsRight(states[0]) && i < |states|
    requires FlushesApart(states, actions) && forall k :: 0 <= k < i ==> LosesNothing(states[k], actions[k])
    ensures |states[i].ops| <= MAX_SEQUENCE_NUMBER && ReadsRight(states[i])
  {
    hide Shape, ReadsRight, Enabled, Next, LosesNothing, Apart;
    HistoryFits(states[0]);
    if i > 0 {
      LosslessRun(states, actions, i - 1);
      RunKeepsShape(states, actions, 0, i - 1);
      assert StepTo(states[i - 1], actions[i - 1], states[i]) && Apart(states[i - 1], actions[i - 1]);
      NextKeepsReadsExactly(states[i - 1], actions[i - 1]);
    }
  }

  /** In a run that starts with right reads, all reads stay right throughout if
      and only if no installation lets a deleted value come back. */
  lemma RunReadsExactly(states: seq<Db>, actions: seq<Action>)
    requires IsRun(states, actions) && ReadsRight(states[0]) && FlushesApart(states, actions)
    ensures ReadsRightUpTo(states, |actions|) <==> InstallsLoseNothing(states, actions)
  {
    hide Shape, ReadsRight, Enabled, Next, LosesNothing, Apart;
    if InstallsLoseNothing(states, actions) {
      forall i | 0 <= i < |states| ensures |states[i].ops| <= MAX_SEQUENCE_NUMBER && ReadsRight(states[i]) {
        LosslessRun(states, actions, i);
      }
    }
    if ReadsRightUpTo(states, |actions|) {
      forall i | 0 <= i < |actions| ensures LosesNothing(states[i], actions[i]) {
        RunKeepsShape(states, actions, 0, i);
        assert StepTo(states[i], actions[i], states[i + 1]) && Apart(states[i], actions[i]);
        NextKeepsReadsExactly(states[i], actions[i]);
      }
    }
  }

  /** Right-closed compactions are enough. */
  lemma ClosedInstallsLoseNothing(states: seq<Db>, actions: seq<Action>)
    requires IsRun(states, actions) && FlushesApart(states, actions) && InstallsClosed(states, actions)
    ensures InstallsLoseNothing(states, actions)
  {
    hide Shape, Enabled, Next, LosesNothing, LowerClosed, Apart;
    forall i | 0 <= i < |actions| ensures LosesNothing(states[i], actions[i]) {
      RunKeepsShape(states, actions, 0, i);
      ClosedLosesNothing(states[i], actions[i]);
    }
  }

  // ---- runs whose compactions are all chosen without a gap ----

  ghost predicate NoGap(c: Compaction) {
    Connected(c.inputs0 + c.inputs1)
  }

  ghost predicate CompactionsConnected(actions: seq<Action>) {
    forall i :: 0 <= i < |actions| && actions[i].BeginCompaction? ==> NoGap(actions[i].c)
  }

  ghost predicate RunningConnected(db: Db) {
    db.running.Some? ==> NoGap(db.running.value.c)
  }

  lemma ConnectedIsApart(db: Db, a: Action)
    requires Shape(db) && Enabled(db, a) && RunningConnected(db)
    ensures Apart(db, a)
    ensures (a.BeginCompaction? ==> NoGap(a.c)) ==> RunningConnected(Next(db, a))
  {
    hide VersionOk, Ordered, AllFromHistory, SnapshotsOk, Straddled, Connected, MaySkipTo, FreshOutputs, OutputsOf,
        Selected, ApplyEdit;
    if a.FlushTo? && db.running.Some? && a.level == db.running.value.c.level + 1 {
      InputsOfRunning(db);
      ConnectedInputsKeepFlushApart(db.current, a.file, db.running.value);
    }
  }

  lemma {:induction false} ConnectedRun(states: seq<Db>, actions: seq<Action>, i: nat)
    requires IsRun(states, actions) && states[0].running.None? && CompactionsConnected(actions) && i < |states|
    ensures Shape(states[i]) && RunningConnected(states[i])
  {
    hide Shape, Enabled, Next, Apart, NoGap;
    if i > 0 {
      ConnectedRun(states, actions, i - 1);
      assert StepTo(states[i - 1], actions[i - 1], states[i]);
      ConnectedIsApart(states[i - 1], actions[i - 1]);
      NextKeepsShape(states[i - 1], actions[i - 1]);
    }
  }

  /** If no compaction has a gap in its inputs, no flush can be straddled: the
      hypothesis FlushesApart is only about manual compactions. */
  lemma ConnectedRunsFlushApart(states: seq<Db>, actions: seq<Action>)
    requires IsRun(states, actions) && states[0].running.None? && CompactionsConnected(actions)
    ensures FlushesApart(states, actions)
  {
    hide Shape, Enabled, Next, Apart, RunningConnected, NoGap;
    forall i | 0 <= i < |actions| ensures Apart(states[i], actions[i]) {
      ConnectedRun(states, actions, i);
      assert StepTo(states[i], actions[i], states[i + 1]);
      ConnectedIsApart(states[i], actions[i]);
    }
  }

  /** At every point of a run that starts with right reads, flushes apart and
      lets no deleted value come back, a read at any snapshot that is still live
      returns what the plain map held after that many operations. */
  lemma ReadsFollowHistoryInRuns(states: seq<Db>, actions: seq<Action>, i: nat, user: UserKey, s: SequenceNumber)
    requires IsRun(states, actions) && ReadsRight(states[0]) && i < |states|
    requires FlushesApart(states, actions) && InstallsLoseNothing(states, actions)
    requires s == |states[i].ops| || s in states[i].snapshots
    ensures s <= |states[i].ops| && Reads(states[i], user, s, ReadAt(states[i].ops, s, user))
  {
    hide IsRun, FlushesApart, LosesNothing, Reads, ReadAt;
    LosslessRun(states, actions, i);
    RunKeepsShape(states, actions, 0, i);
    assert states[i].floor <= s <= |states[i].ops| by { SnapshotsAreUsable(states[i]); }
  }

  lemma SnapshotsAreUsable(db: Db)
    requires Shape(db)
    ensures db.floor <= |db.ops| && forall s :: s in db.snapshots ==> db.floor <= s <= |db.ops|
  {
  }

  /** A snapshot taken when the run was at i reads the same at every later point
      at which it has not been released. */
  lemma SnapshotsAreStable(states: seq<Db>, actions: seq<Action>, i: nat, j: nat, user: UserKey)
    requires IsRun(states, actions) && ReadsRight(states[0]) && i <= j < |states|
    requires FlushesApart(states, actions) && InstallsLoseNothing(states, actions)
    requires |states[i].ops| in states[j].snapshots && |states[i].ops| <= MAX_SEQUENCE_NUMBER
    ensures Reads(states[j], user, |states[i].ops|, Lookup(Replay(states[i].ops), user))
  {
    hide Shape, ReadsRight, StepTo, Reads, FlushesApart, InstallsLoseNothing;
    var s := |states[i].ops|;
    RunKeepsShape(states, actions, i, j);
    ReadsFollowHistoryInRuns(states, actions, j, user, s);
    assert states[j].ops[..s] == states[i].ops;
  }
}
