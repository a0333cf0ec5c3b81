/** The queue of writers: one leads, writes its batch together with those behind
    it, and answers for all of them. */
module GroupCommit {
  import opened Coding
  import opened WriteBatches

  /** A writer as the queue sees it; no updates: a request to switch memtables. */
  datatype Request = Request(id: nat, updates: Maybe<seq<Update>>, size: nat, sync: bool)

  const ONE_MB: nat := 0x10_0000
  const SMALL: nat := 0x2_0000

  function MaxSize(first: Request): nat {
    if first.size <= SMALL then first.size + SMALL else ONE_MB
  }

  function SizeOf(r: Request): nat {
    if r.updates.Just? then r.size else 0
  }

  /** May r join a group led by `first` that has `size` bytes already? */
  predicate Joins(first: Request, r: Request, size: nat) {
    !(r.sync && !first.sync) && (r.updates.Just? ==> size + r.size <= MaxSize(first))
  }

  /** How many writers of the queue BuildBatchGroup takes, n being in already. */
  function GroupLength(queue: seq<Request>, n: nat, size: nat): (m: nat)
    requires 0 < n <= |queue|
    ensures n <= m <= |queue|
    decreases |queue| - n
  {
    if n < |queue| && Joins(queue[0], queue[n], size) then GroupLength(queue, n + 1, size + SizeOf(queue[n])) else n
  }

  function UpdatesOf(r: Request): seq<Update> {
    if r.updates.Just? then r.updates.value else []
  }

  /** The updates of several writers, one writer after the other. */
  function Merged(rs: seq<Request>): seq<Update> {
    if rs == [] then [] else Merged(rs[..|rs| - 1]) + UpdatesOf(rs[|rs| - 1])
  }

  lemma {:induction false} MergedJoin(a: seq<Request>, b: seq<Request>)
    ensures Merged(a + b) == Merged(a) + Merged(b)
  {
    if b == [] {
      assert a + b == a;
    } else {
      var n := |b| - 1;
      assert (a + b)[..|a + b| - 1] == a + b[..n];
      MergedJoin(a, b[..n]);
    }
  }

  function TotalSize(rs: seq<Request>): nat {
    if rs == [] then 0 else TotalSize(rs[..|rs| - 1]) + SizeOf(rs[|rs| - 1])
  }

  /** No sync writer is in a group that will not be synced, the group stays
      within its size, and it is as long as the two rules allow. */
  lemma {:induction false} GroupIsGreedy(queue: seq<Request>, n: nat, size: nat)
    requires 0 < n <= |queue| && size == TotalSize(queue[..n])
    ensures var m := GroupLength(queue, n, size);
      && (forall i :: n <= i < m ==> !(queue[i].sync && !queue[0].sync))
      && (m > n ==> TotalSize(queue[..m]) <= MaxSize(queue[0]) || TotalSize(queue[..m]) == size)
      && (m < |queue| ==>
            || (queue[m].sync && !queue[0].sync)
            || (queue[m].updates.Just? && TotalSize(queue[..m]) + queue[m].size > MaxSize(queue[0])))
    decreases |queue| - n
  {
    if n < |queue| && Joins(queue[0], queue[n], size) {
      assert queue[..n + 1][..n] == queue[..n];
      GroupIsGreedy(queue, n + 1, size + SizeOf(queue[n]));
    }
  }

  // ---- BuildBatchGroup on the batches themselves ----

  /** A writer in the queue, with the caller's batch. */
  datatype Writer = Writer(id: nat, batch: WriteBatch?, sync: bool)

  ghost function AsRequest(w: Writer): Request
    reads w.batch
  {
    if w.batch == null then Request(w.id, Nothing, 0, w.sync)
    else Request(w.id, Just(w.batch.updates), |w.batch.rep|, w.sync)
  }

  ghost function Batches(writers: seq<Writer>): set<object> {
    set i | 0 <= i < |writers| && writers[i].batch != null :: writers[i].batch
  }

  ghost function Requests(writers: seq<Writer>): (r: seq<Request>)
    reads Batches(writers)
    ensures |r| == |writers| && forall i :: 0 <= i < |writers| ==> r[i] == AsRequest(writers[i])
  {
    if writers == [] then [] else Requests(writers[..|writers| - 1]) + [AsRequest(writers[|writers| - 1])]
  }

  /** DBImpl::BuildBatchGroup: the leader's own batch if it stays alone, else
      everything copied into tmpBatch; no caller's batch is touched. */
  method BuildBatchGroup(writers: seq<Writer>, tmpBatch: WriteBatch) returns (result: WriteBatch, last: nat)
    requires writers != [] && writers[0].batch != null
    requires forall i ::
        0 <= i < |writers| && writers[i].batch != null ==> writers[i].batch.Valid() && writers[i].batch != tmpBatch
    requires tmpBatch.Valid() && tmpBatch.updates == []
    modifies tmpBatch
    ensures 0 < last <= |writers|
    ensures last == GroupLength(Requests(writers), 1, |writers[0].batch.rep|)
    ensures result == tmpBatch || result == writers[0].batch
    ensures result.Valid() && result.updates == Merged(Requests(writers)[..last])
    ensures Requests(writers) == old(Requests(writers))
  {
    hide Contents, Merged, GroupLength, MaxSize;
    var first := writers[0];
    result := first.batch;
    var size: nat := |first.batch.rep|;
    var maxSize := ONE_MB;
    if size <= SMALL {
      maxSize := size + SMALL;
    }
    ghost var rs := Requests(writers);
    assert maxSize == MaxSize(rs[0]) by { MaxSizeIs(rs[0]); }
    MergedSnoc(rs, 0);
    last := 1;
    while last < |writers|
      invariant 0 < last <= |writers| && Requests(writers) == rs
      invariant GroupLength(rs, 1, |first.batch.rep|) == GroupLength(rs, last, size)
      invariant result == tmpBatch || (result == first.batch && tmpBatch.updates == [])
      invariant result.Valid() && tmpBatch.Valid() && result.updates == Merged(rs[..last])
    {
      var w := writers[last];
      GroupStep(rs, last, size);
      MergedSnoc(rs, last);
      if w.sync && !first.sync {
        break;
      }
      if w.batch != null {
        if size + |w.batch.rep| > maxSize {
          break;
        }
        size := size + |w.batch.rep|;
        result := Include(first.batch, result, w.batch, tmpBatch);
        assert Requests(writers) == rs;
      }
      last := last + 1;
    }
    if last == |writers| { GroupStep(rs, last, size); }
  }

  /** Appends one more batch, moving to the temporary batch first if need be. */
  method Include(first: WriteBatch, current: WriteBatch, b: WriteBatch, tmpBatch: WriteBatch)
      returns (result: WriteBatch)
    requires first.Valid() && b.Valid() && tmpBatch.Valid() && first != tmpBatch && b != tmpBatch
    requires current == tmpBatch || (current == first && tmpBatch.updates == [])
    modifies tmpBatch
    ensures result == tmpBatch && result.Valid() && result.updates == old(current.updates) + b.updates
  {
    hide Contents;
    result := current;
    if result == first {
      result := tmpBatch;
      result.Append(first);
    }
    result.Append(b);
  }

  lemma MaxSizeIs(first: Request)
    ensures MaxSize(first) == if first.size <= SMALL then first.size + SMALL else ONE_MB
  {
  }

  lemma GroupStep(queue: seq<Request>, n: nat, size: nat)
    requires 0 < n <= |queue|
    ensures GroupLength(queue, n, size) ==
      if n < |queue| && Joins(queue[0], queue[n], size) then GroupLength(queue, n + 1, size + SizeOf(queue[n])) else n
  {
  }

  lemma MergedSnoc(rs: seq<Request>, n: nat)
    requires n < |rs|
    ensures Merged(rs[..n + 1]) == Merged(rs[..n]) + UpdatesOf(rs[n])
    ensures n == 0 ==> Merged(rs[..1]) == UpdatesOf(rs[0])
  {
    assert rs[..n + 1][..n] == rs[..n];
  }

  // ---- the step system ----

  /** One pass of a leader: the writers it answered for, and whether it synced. */
  datatype Commit = Commit(members: seq<Request>, sync: bool)

  /** One log record: the number of its first update, and the updates. */
  datatype LogRecord = LogRecord(first: nat, updates: seq<Update>, synced: bool)

  /** How far the leader at the front of the queue has come. */
  datatype Stage = MakingRoom | Built(n: nat) | Appended(n: nat) | Synced(n: nat) | Inserted(n: nat)

  datatype State = State(queue: seq<Request>, leading: Maybe<Stage>, lastSequence: nat, log: seq<LogRecord>,
      mem: seq<Update>,
                         commits: seq<Commit>, arrived: seq<Request>, switched: seq<nat>)

  datatype Step =
    | Arrive(r: Request)       // writers_.push_back
    | Lead                     // the front writer stops waiting
    | SwitchMemtable           // MakeRoomForWrite, when forced or out of room
    | Build                    // BuildBatchGroup, still under the mutex
    | Append                   // log_->AddRecord, mutex released
    | SyncLog
    | Insert                   // InsertInto(updates, mem_)
    | Finish                   // SetLastSequence, pop and wake the group

  function GroupOf(queue: seq<Request>): nat
    requires queue != []
  {
    if queue[0].updates.Nothing? then 1 else GroupLength(queue, 1, queue[0].size)
  }

  predicate AtFront(s: State) {
    s.leading.Just? && s.queue != []
  }

  /** A record for the n writers in front. */
  predicate HasUpdates(s: State) {
    s.queue != [] && s.queue[0].updates.Just?
  }

  predicate Enabled(s: State, step: Step) {
    match step
    case Arrive(r) => true
    case Lead => s.leading.Nothing? && s.queue != []
    case SwitchMemtable => AtFront(s) && s.leading.value.MakingRoom?
    case Build => AtFront(s) && s.leading.value.MakingRoom?
        && (s.queue[0].updates.Nothing? ==> s.queue[0].id in s.switched)
    case Append => AtFront(s) && s.leading.value.Built? && HasUpdates(s) && s.leading.value.n <= |s.queue|
    case SyncLog => AtFront(s) && s.leading.value.Appended? && s.queue[0].sync && s.log != []
    case Insert =>
      AtFront(s) && (if s.queue[0].sync then s.leading.value.Synced? else s.leading.value.Appended?)
          && s.leading.value.n <= |s.queue|
    case Finish =>
      AtFront(s) && (if HasUpdates(s) then s.leading.value.Inserted? else s.leading.value.Built?)
          && s.leading.value.n <= |s.queue|
  }

  function Next(s: State, step: Step): State
    requires Enabled(s, step)
  {
    match step
    case Arrive(r) => s.(queue := s.queue + [r], arrived := s.arrived + [r])
    case Lead => s.(leading := Just(MakingRoom))
    case SwitchMemtable => s.(switched := s.switched + [s.queue[0].id])
    case Build => s.(leading := Just(Built(GroupOf(s.queue))))
    case Append =>
      var n := s.leading.value.n;
      s.(leading := Just(Appended(n)), log := s.log + [LogRecord(s.lastSequence + 1, Merged(s.queue[..n]), false)])
    case SyncLog =>
      s.(leading := Just(Synced(s.leading.value.n)),
          log := s.log[..|s.log| - 1] + [s.log[|s.log| - 1].(synced := true)])
    case Insert =>
      var n := s.leading.value.n;
      s.(leading := Just(Inserted(n)), mem := s.mem + Merged(s.queue[..n]))
    case Finish =>
      var n := s.leading.value.n;
      s.(leading := Nothing, queue := s.queue[n..], commits := s.commits + [Commit(s.queue[..n], s.queue[0].sync)],
         lastSequence := if HasUpdates(s) then s.lastSequence + |Merged(s.queue[..n])| else s.lastSequence)
  }

  /** Writers that have been answered, in order. */
  function Finished(commits: seq<Commit>): seq<Request> {
    if commits == [] then [] else Finished(commits[..|commits| - 1]) + commits[|commits| - 1].members
  }

  function Logged(log: seq<LogRecord>): seq<Update> {
    if log == [] then [] else Logged(log[..|log| - 1]) + log[|log| - 1].updates
  }

  /** Each record starts with the number after the last one before it. */
  predicate Consecutive(log: seq<LogRecord>) {
    forall i :: 0 <= i < |log| ==> log[i].first == |Logged(log[..i])| + 1
  }

  predicate CommitOk(c: Commit) {
    c.members != [] && c.sync == c.members[0].sync && (c.members[0].updates.Nothing? ==> |c.members| == 1)
  }

  predicate SyncKept(c: Commit) {
    forall i :: 0 <= i < |c.members| ==> (c.members[i].sync ==> c.sync)
  }

  /** Commits whose leader had updates left one record each, in order, synced if
      the leader asked for it. */
  function RecordsOf(commits: seq<Commit>): seq<LogRecord> {
    if commits == [] then []
    else
      var before := commits[..|commits| - 1];
      var c := commits[|commits| - 1];
      if c.members == [] || c.members[0].updates.Nothing? then RecordsOf(before)
      else RecordsOf(before) + [LogRecord(|Merged(Finished(before))| + 1, Merged(c.members), c.sync)]
  }

  /** What the active leader has already added to the log and the memtable. */
  function ActiveRecords(s: State): seq<LogRecord>
    requires s.leading.Just? ==> s.queue != []
    requires s.leading.Just? && !s.leading.value.MakingRoom? ==> s.leading.value.n <= |s.queue|
  {
    if s.leading.Nothing? || s.leading.value.MakingRoom? || s.leading.value.Built? then []
    else
      [LogRecord(s.lastSequence + 1, Merged(s.queue[..s.leading.value.n]), s.leading.value.Synced?
          || (s.leading.value.Inserted? && s.queue[0].sync))]
  }

  function ActiveUpdates(s: State): seq<Update>
    requires s.leading.Just? && !s.leading.value.MakingRoom? ==> s.leading.value.n <= |s.queue|
  {
    if s.leading.Just? && s.leading.value.Inserted? then Merged(s.queue[..s.leading.value.n]) else []
  }

  ghost predicate StageOk(s: State) {
    s.leading.Just? ==>
      && s.queue != []
      && (!s.leading.value.MakingRoom? ==>
            && 0 < s.leading.value.n <= |s.queue|
            && CommitOk(Commit(s.queue[..s.leading.value.n], s.queue[0].sync))
            && SyncKept(Commit(s.queue[..s.leading.value.n], s.queue[0].sync)))
      && (s.leading.value.Appended? || s.leading.value.Synced? || s.leading.value.Inserted?
          ==> s.queue[0].updates.Just?)
  }

  ghost predicate Inv(s: State) {
    && StageOk(s)
    && s.arrived == Finished(s.commits) + s.queue
    && (forall i :: 0 <= i < |s.commits| ==> CommitOk(s.commits[i]) && SyncKept(s.commits[i]))
    && s.lastSequence == |Merged(Finished(s.commits))|
    && s.log == RecordsOf(s.commits) + ActiveRecords(s)
    && s.mem == Merged(Finished(s.commits)) + ActiveUpdates(s)
  }

  lemma FinishedSnoc(commits: seq<Commit>, c: Commit)
    ensures Finished(commits + [c]) == Finished(commits) + c.members
    ensures Merged(Finished(commits + [c])) == Merged(Finished(commits)) + Merged(c.members)
    ensures RecordsOf(commits + [c]) == RecordsOf(commits) +
      if c.members == [] || c.members[0].updates.Nothing? then []
      else [LogRecord(|Merged(Finished(commits))| + 1, Merged(c.members), c.sync)]
  {
    hide Merged;
    assert (commits + [c])[..|commits|] == commits;
    MergedJoin(Finished(commits), c.members);
  }

  lemma LoneRequest(r: Request)
    ensures Merged([r]) == UpdatesOf(r)
  {
    assert [r][..0] == [];
  }

  lemma BuildKeeps(s: State)
    requires Inv(s) && Enabled(s, Build)
    ensures Inv(Next(s, Build))
  {
    hide Merged, Finished, RecordsOf;
    var n := GroupOf(s.queue);
    if s.queue[0].updates.Just? {
      FirstSize(s.queue);
      GroupIsGreedy(s.queue, 1, s.queue[0].size);
    }
  }

  lemma FirstSize(queue: seq<Request>)
    requires queue != [] && queue[0].updates.Just?
    ensures TotalSize(queue[..1]) == queue[0].size
  {
    assert queue[..1][..0] == [];
  }

  lemma SyncKeeps(s: State)
    requires Inv(s) && Enabled(s, SyncLog)
    ensures Inv(Next(s, SyncLog))
  {
    hide Merged, Finished, RecordsOf;
    var k := |RecordsOf(s.commits)|;
    assert s.log[..|s.log| - 1] == RecordsOf(s.commits);
  }

  lemma FinishKeeps(s: State)
    requires Inv(s) && Enabled(s, Finish)
    ensures Inv(Next(s, Finish))
  {
    hide Merged, Finished, RecordsOf;
    var n := s.leading.value.n;
    var c := Commit(s.queue[..n], s.queue[0].sync);
    FinishedSnoc(s.commits, c);
    assert s.queue == s.queue[..n] + s.queue[n..];
    if !HasUpdates(s) {
      assert s.queue[..1] == [s.queue[0]];
      LoneRequest(s.queue[0]);
    }
  }

  lemma ArriveKeeps(s: State, r: Request)
    requires Inv(s)
    ensures Inv(Next(s, Arrive(r)))
  {
    hide Merged, Finished, RecordsOf;
    var t := Next(s, Arrive(r));
    if s.leading.Just? && !s.leading.value.MakingRoom? {
      assert t.queue[..s.leading.value.n] == s.queue[..s.leading.value.n];
    }
  }

  lemma LeadKeeps(s: State, step: Step)
    requires Inv(s) && Enabled(s, step) && (step.Lead? || step.SwitchMemtable?)
    ensures Inv(Next(s, step))
  {
    hide Merged, Finished, RecordsOf, Logged;
  }

  lemma WorkKeeps(s: State, step: Step)
    requires Inv(s) && Enabled(s, step) && (step.Append? || step.Insert?)
    ensures Inv(Next(s, step))
  {
    hide Merged, Finished, RecordsOf, Logged;
    assert RecordsOf(s.commits) + [] == RecordsOf(s.commits);
    assert Merged(Finished(s.commits)) + [] == Merged(Finished(s.commits));
  }

  lemma GroupStepKeeps(s: State, step: Step)
    requires Inv(s) && Enabled(s, step)
    ensures Inv(Next(s, step))
  {
    hide Inv, Next, Enabled;
    match step
    case Arrive(r) => ArriveKeeps(s, r);
    case Build => BuildKeeps(s);
    case SyncLog => SyncKeeps(s);
    case Finish => FinishKeeps(s);
    case Lead => LeadKeeps(s, step);
    case SwitchMemtable => LeadKeeps(s, step);
    case Append => WorkKeeps(s, step);
    case Insert => WorkKeeps(s, step);
  }

  // ---- whole runs ----

  const START := State([], Nothing, 0, [], [], [], [], [])

  ghost predicate StepsTo(s: State, step: Step, t: State) {
    Inv(s) ==> Enabled(s, step) && t == Next(s, step)
  }

  ghost predicate IsRun(states: seq<State>, steps: seq<Step>) {
    && |states| == |steps| + 1 && states[0] == START
    && forall i :: 0 <= i < |steps| ==> StepsTo(states[i], steps[i], states[i + 1])
  }

  lemma StartIsOk()
    ensures Inv(START)
  {
  }

  lemma {:induction false} RunKeepsInv(states: seq<State>, steps: seq<Step>, i: nat)
    requires IsRun(states, steps) && i < |states|
    ensures Inv(states[i])
  {
    hide Inv, Enabled, Next;
    if i == 0 {
      StartIsOk();
    } else {
      RunKeepsInv(states, steps, i - 1);
      assert StepsTo(states[i - 1], steps[i - 1], states[i]);
      GroupStepKeeps(states[i - 1], steps[i - 1]);
    }
  }

  ghost predicate CommitsOk(commits: seq<Commit>) {
    forall i :: 0 <= i < |commits| ==> CommitOk(commits[i]) && SyncKept(commits[i])
  }

  /** The records are the updates of the answered writers in queue order, with
      consecutive numbers. */
  lemma {:induction false} RecordsInOrder(commits: seq<Commit>)
    requires CommitsOk(commits)
    ensures Logged(RecordsOf(commits)) == Merged(Finished(commits)) && Consecutive(RecordsOf(commits))
  {
    hide Merged, Logged, Finished, RecordsOf, Consecutive;
    if commits == [] {
      NothingMerged();
    } else {
      var before, c := commits[..|commits| - 1], commits[|commits| - 1];
      RecordsInOrder(before);
      FinishedSnoc(before, c);
      assert before + [c] == commits;
      if c.members[0].updates.Nothing? {
        LoneRequest(c.members[0]);
        assert c.members == [c.members[0]];
        assert RecordsOf(before) + [] == RecordsOf(before);
      } else {
        LoggedSnoc(RecordsOf(before), LogRecord(|Merged(Finished(before))| + 1, Merged(c.members), c.sync));
      }
    }
  }

  lemma NothingMerged()
    ensures Merged([]) == [] && Finished([]) == [] && RecordsOf([]) == [] && Logged([]) == [] && Consecutive([])
  {
  }

  lemma LoggedSnoc(log: seq<LogRecord>, r: LogRecord)
    requires Consecutive(log)
    ensures Logged(log + [r]) == Logged(log) + r.updates
    ensures r.first == |Logged(log)| + 1 ==> Consecutive(log + [r])
  {
    hide Logged;
    var all := log + [r];
    LoggedUnfold(all);
    assert all[..|log|] == log;
    forall i | 0 <= i < |all| && r.first == |Logged(log)| + 1 ensures all[i].first == |Logged(all[..i])| + 1 {
      if i < |log| {
        assert all[..i] == log[..i] && all[i] == log[i];
      }
    }
  }

  lemma LoggedUnfold(log: seq<LogRecord>)
    requires log != []
    ensures Logged(log) == Logged(log[..|log| - 1]) + log[|log| - 1].updates
  {
  }

  /** Whenever no leader is at work: every writer that ever arrived is either
      answered or still waiting, in order of arrival; log and memtable hold the
      updates of exactly the answered ones, once each and in that order, under
      consecutive numbers; lastSequence is the last of them. */
  lemma EachBatchOnceInOrder(states: seq<State>, steps: seq<Step>, i: nat)
    requires IsRun(states, steps) && i < |states| && states[i].leading.Nothing?
    ensures var s := states[i];
      && s.arrived == Finished(s.commits) + s.queue
      && s.mem == Merged(Finished(s.commits)) && Logged(s.log) == s.mem && Consecutive(s.log)
      && s.lastSequence == |s.mem|
  {
    var s := states[i];
    RunKeepsInv(states, steps, i);
    RecordsInOrder(s.commits);
    assert RecordsOf(s.commits) + [] == RecordsOf(s.commits);
    assert Merged(Finished(s.commits)) + [] == Merged(Finished(s.commits));
  }

  /** The record of a commit, and where it is in the log. */
  lemma {:induction false} RecordOfCommit(commits: seq<Commit>, k: nat)
    requires k < |commits| && commits[k].members != [] && commits[k].members[0].updates.Just?
    ensures exists j ::
      && 0 <= j < |RecordsOf(commits)|
      && RecordsOf(commits)[j] == LogRecord(|Merged(Finished(commits[..k]))| + 1, Merged(commits[k].members),
          commits[k].sync)
  {
    hide Merged, Finished;
    var n := |commits| - 1;
    if k == n {
      assert RecordsOf(commits)[|RecordsOf(commits)| - 1].synced == commits[k].sync;
    } else {
      RecordOfCommit(commits[..n], k);
      assert commits[..n][..k] == commits[..k];
      var j :| 0 <= j < |RecordsOf(commits[..n])| &&
        RecordsOf(commits[..n])[j] == LogRecord(|Merged(Finished(commits[..k]))| + 1, Merged(commits[k].members),
            commits[k].sync);
      assert RecordsOf(commits)[j] == RecordsOf(commits[..n])[j];
    }
  }

  /** A sync writer is only ever answered after the record with its updates has
      been synced. */
  lemma SyncWritersAreSynced(states: seq<State>, steps: seq<Step>, i: nat, k: nat, m: nat)
    requires IsRun(states, steps) && i < |states| && k < |states[i].commits| && m < |states[i].commits[k].members|
    requires states[i].commits[k].members[m].sync && states[i].commits[k].members[0].updates.Just?
    ensures exists j ::
        0 <= j < |states[i].log| && states[i].log[j].synced
        && states[i].log[j].updates == Merged(states[i].commits[k].members)
  {
    hide Merged, Finished;
    var s := states[i];
    RunKeepsInv(states, steps, i);
    assert CommitOk(s.commits[k]) && SyncKept(s.commits[k]);
    RecordOfCommit(s.commits, k);
    var j :| 0 <= j < |RecordsOf(s.commits)| &&
      RecordsOf(s.commits)[j] == LogRecord(|Merged(Finished(s.commits[..k]))| + 1, Merged(s.commits[k].members),
          s.commits[k].sync);
    assert s.log[j] == RecordsOf(s.commits)[j];
  }

  // ---- requests to switch the memtable ----

  ghost predicate SwitchInv(s: State) {
    && (forall k :: 0 <= k < |s.commits| ==>
          s.commits[k].members != [] && (s.commits[k].members[0].updates.Nothing?
              ==> s.commits[k].members[0].id in s.switched))
    && (s.leading.Just? && !s.leading.value.MakingRoom? && s.queue != [] && s.queue[0].updates.Nothing?
        ==> s.queue[0].id in s.switched)
  }

  /** A request without updates that leads has forced a switch before it is
      answered. */
  lemma {:induction false} LeadersForceASwitch(states: seq<State>, steps: seq<Step>, i: nat)
    requires IsRun(states, steps) && i < |states|
    ensures SwitchInv(states[i])
  {
    hide Merged, Finished, RecordsOf, Logged, SyncKept;
    if i > 0 {
      LeadersForceASwitch(states, steps, i - 1);
      RunKeepsInv(states, steps, i - 1);
      assert StepsTo(states[i - 1], steps[i - 1], states[i]);
    }
  }

  /** Every switch was forced by a writer that led. */
  ghost predicate SwitchersLed(s: State) {
    forall i :: 0 <= i < |s.switched| ==> Led(s, s.switched[i])
  }

  ghost predicate Led(s: State, id: nat) {
    || (exists k :: 0 <= k < |s.commits| && s.commits[k].members != [] && s.commits[k].members[0].id == id)
    || (s.leading.Just? && s.queue != [] && s.queue[0].id == id)
  }

  lemma StepKeepsLed(s: State, step: Step, id: nat)
    requires Inv(s) && Enabled(s, step) && Led(s, id)
    ensures Led(Next(s, step), id)
  {
    hide Merged, Finished, RecordsOf, Logged, SyncKept, GroupOf;
    var t := Next(s, step);
    if k :| 0 <= k < |s.commits| && s.commits[k].members != [] && s.commits[k].members[0].id == id {
      assert t.commits[k] == s.commits[k];
    } else if step.Finish? {
      assert t.commits[|s.commits|].members == s.queue[..s.leading.value.n];
    }
  }

  lemma {:induction false} OnlyLeadersSwitch(states: seq<State>, steps: seq<Step>, i: nat)
    requires IsRun(states, steps) && i < |states|
    ensures SwitchersLed(states[i])
  {
    hide Enabled, Next, Inv, Led;
    if i > 0 {
      OnlyLeadersSwitch(states, steps, i - 1);
      RunKeepsInv(states, steps, i - 1);
      assert StepsTo(states[i - 1], steps[i - 1], states[i]);
      var s, t := states[i - 1], states[i];
      forall j | 0 <= j < |t.switched| ensures Led(t, t.switched[j]) {
        SwitchedBefore(s, steps[i - 1], j);
        if j < |s.switched| { StepKeepsLed(s, steps[i - 1], s.switched[j]); }
      }
    }
  }

  lemma SwitchedBefore(s: State, step: Step, j: nat)
    requires Enabled(s, step) && j < |Next(s, step).switched|
    ensures if j < |s.switched| then Next(s, step).switched[j] == s.switched[j]
        else Led(Next(s, step), Next(s, step).switched[j])
  {
  }

  /** No two writers share an id. */
  predicate DistinctIds(rs: seq<Request>) {
    forall i, j :: 0 <= i < j < |rs| ==> rs[i].id != rs[j].id
  }

  /** Where a member of a commit is among the answered writers. */
  lemma {:induction false} FinishedAt(commits: seq<Commit>, k: nat, m: nat)
    requires k < |commits| && m < |commits[k].members|
    ensures |Finished(commits[..k])| + m < |Finished(commits)|
    ensures Finished(commits)[|Finished(commits[..k])| + m] == commits[k].members[m]
  {
    var n := |commits| - 1;
    if k < n {
      FinishedAt(commits[..n], k, m);
      assert commits[..n][..k] == commits[..k];
    }
  }

  lemma {:induction false} FinishedGrows(commits: seq<Commit>, j: nat, k: nat)
    requires j < k <= |commits|
    ensures |Finished(commits[..j])| + |commits[j].members| <= |Finished(commits[..k])|
  {
    var n := k - 1;
    assert commits[..k][..n] == commits[..n];
    if j < n { FinishedGrows(commits, j, n); }
  }

  /** A member that is not the first has no id of a first member. */
  lemma AbsorbedIsNoFirst(commits: seq<Commit>, j: nat, k: nat, m: nat)
    requires DistinctIds(Finished(commits)) && j < |commits| && commits[j].members != []
    requires k < |commits| && 0 < m < |commits[k].members|
    ensures commits[j].members[0].id != commits[k].members[m].id
  {
    hide Finished;
    FinishedAt(commits, j, 0);
    FinishedAt(commits, k, m);
    if j < k {
      FinishedGrows(commits, j, k);
    } else if k < j {
      FinishedGrows(commits, k, j);
    }
  }

  /** In every run in which no two writers share an id, an answered request
      without updates has forced a switch if and only if it led its commit: one
      that was taken into another writer's group is answered although nothing
      was switched for it. */
  lemma SwitchedExactlyIfLeading(states: seq<State>, steps: seq<Step>, i: nat, k: nat, m: nat)
    requires IsRun(states, steps) && i < |states| && DistinctIds(states[i].arrived)
    requires k < |states[i].commits| && m < |states[i].commits[k].members|
        && states[i].commits[k].members[m].updates.Nothing?
    ensures states[i].commits[k].members[m].id in states[i].switched <==> m == 0
  {
    hide IsRun, Merged, Finished, RecordsOf, Logged;
    var s := states[i];
    RunKeepsInv(states, steps, i);
    LeadersForceASwitch(states, steps, i);
    OnlyLeadersSwitch(states, steps, i);
    var id := s.commits[k].members[m].id;
    var done := Finished(s.commits);
    FinishedAt(s.commits, k, m);
    assert forall x :: 0 <= x < |done| ==> s.arrived[x] == done[x];
    assert s.queue != [] ==> s.arrived[|done|] == s.queue[0];
    assert s.queue != [] ==> s.queue[0].id != id;
    if m > 0 {
      forall j | 0 <= j < |s.commits| && s.commits[j].members != [] ensures s.commits[j].members[0].id != id {
        AbsorbedIsNoFirst(s.commits, j, k, m);
      }
      assert !Led(s, id);
    }
  }

  // ---- which requests are absorbed ----

  lemma SizeOfNext(queue: seq<Request>, n: nat)
    requires n < |queue|
    ensures TotalSize(queue[..n + 1]) == TotalSize(queue[..n]) + SizeOf(queue[n])
  {
    assert queue[..n + 1][..n] == queue[..n];
  }

  /** A waiting writer is taken if and only if it and all those before it may
      join. */
  lemma {:induction false} TakenExactly(queue: seq<Request>, n: nat, size: nat, i: nat)
    requires 0 < n <= i < |queue| && size == TotalSize(queue[..n])
    ensures i < GroupLength(queue, n, size) <==> forall j ::
        n <= j <= i ==> Joins(queue[0], queue[j], TotalSize(queue[..j]))
    decreases i - n
  {
    hide Joins, TotalSize;
    SizeOfNext(queue, n);
    if Joins(queue[0], queue[n], size) && n < i {
      TakenExactly(queue, n + 1, size + SizeOf(queue[n]), i);
    }
  }

  /** When the leader builds its group, a waiting request without updates is
      absorbed if and only if the leader has updates, all writers between them
      may join, and the request does not ask for a sync the leader will not do. */
  lemma AbsorbedExactly(s: State, i: nat)
    requires Inv(s) && Enabled(s, Build) && 0 < i < |s.queue| && s.queue[i].updates.Nothing?
    ensures i < Next(s, Build).leading.value.n <==>
      && s.queue[0].updates.Just?
      && (forall j :: 0 < j < i ==> Joins(s.queue[0], s.queue[j], TotalSize(s.queue[..j])))
      && !(s.queue[i].sync && !s.queue[0].sync)
  {
    hide Merged, Finished, RecordsOf, GroupLength, TotalSize;
    if s.queue[0].updates.Just? {
      FirstSize(s.queue);
      TakenExactly(s.queue, 1, s.queue[0].size, i);
      assert Joins(s.queue[0], s.queue[i], TotalSize(s.queue[..i])) <==> !(s.queue[i].sync && !s.queue[0].sync);
    }
  }

  lemma OneMoreStep(states: seq<State>, steps: seq<Step>, step: Step)
    requires IsRun(states, steps) && Enabled(states[|states| - 1], step)
    ensures IsRun(states + [Next(states[|states| - 1], step)], steps + [step])
  {
    hide Enabled, Next, Inv;
    var more, longer := states + [Next(states[|states| - 1], step)], steps + [step];
    forall i | 0 <= i < |longer| ensures StepsTo(more[i], longer[i], more[i + 1]) {
      if i < |steps| { assert StepsTo(states[i], steps[i], states[i + 1]); }
    }
  }

  /** A run in which that happens: writer 1 waits behind writer 0. */
  lemma AbsorbedRequestIsNotSwitched(u: Update) returns (states: seq<State>, steps: seq<Step>)
    ensures IsRun(states, steps)
    ensures Finished(states[|states| - 1].commits) == [Request(0, Just([u]), 1, false), Request(1, Nothing, 0, false)]
    ensures states[|states| - 1].leading.Nothing? && 1 !in states[|states| - 1].switched
  {
    hide IsRun, Merged, GroupLength, Finished;
    StartsRun();
    var a, b := Request(0, Just([u]), 1, false), Request(1, Nothing, 0, false);
    states, steps := [START], [];
    states, steps := Extend(states, steps, Arrive(a), START.(queue := [a], arrived := [a]));
    states, steps := Extend(states, steps, Arrive(b), START.(queue := [a, b], arrived := [a, b]));
    states, steps := Extend(states, steps, Lead, State([a, b], Just(MakingRoom), 0, [], [], [], [a, b], []));
    assert GroupOf([a, b]) == 2 by { GroupStep([a, b], 1, 1); GroupStep([a, b], 2, 1); }
    states, steps := Extend(states, steps, Build, State([a, b], Just(Built(2)), 0, [], [], [], [a, b], []));
    MergedPair(u);
    assert [a, b][..2] == [a, b];
    var log := [LogRecord(1, [u], false)];
    states, steps := Extend(states, steps, Append, State([a, b], Just(Appended(2)), 0, log, [], [], [a, b], []));
    states, steps := Extend(states, steps, Insert, State([a, b], Just(Inserted(2)), 0, log, [u], [], [a, b], []));
    states, steps := Extend(states, steps, Finish,
        State([], Nothing, 1, log, [u], [Commit([a, b], false)], [a, b], []));
    FinishedOne(Commit([a, b], false));
  }

  lemma FinishedOne(c: Commit)
    ensures Finished([c]) == c.members
  {
    assert [c][..0] == [];
  }

  lemma StartsRun()
    ensures IsRun([START], [])
  {
  }

  lemma MergedPair(u: Update)
    ensures Merged([Request(0, Just([u]), 1, false), Request(1, Nothing, 0, false)]) == [u]
  {
    var a, b := Request(0, Just([u]), 1, false), Request(1, Nothing, 0, false);
    assert [a, b][..1] == [a];
    LoneRequest(a);
  }

  lemma Extend(states: seq<State>, steps: seq<Step>, step: Step, next: State)
      returns (more: seq<State>, longer: seq<Step>)
    requires IsRun(states, steps) && Enabled(states[|states| - 1], step) && Next(states[|states| - 1], step) == next
    ensures IsRun(more, longer) && more[|more| - 1] == next
  {
    OneMoreStep(states, steps, step);
    more, longer := states + [next], steps + [step];
  }
}
