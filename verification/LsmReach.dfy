/** What a new database can come to, a step at a time.  Only runs in which no
    flush is straddled and no deletion is lost count as reaching. */
module LsmReach {
  import opened InternalKeys
  import opened Versions
  import opened CompactionSetup
  import opened VersionEdits
  import opened ManifestReplay
  import opened History
  import opened LsmState
  import opened LsmVersions
  import opened LsmOrder
  import opened LsmSteps
  import opened LsmCompaction
  import opened LsmRuns

  ghost predicate RunTo(states: seq<Db>, actions: seq<Action>, db: Db) {
    && LsmRuns.IsRun(states, actions) && FlushesApart(states, actions) && InstallsClosed(states, actions)
    && states[0] == EMPTY && states[|actions|] == db
  }

  ghost predicate Reachable(db: Db) {
    exists states, actions :: RunTo(states, actions, db)
  }

  lemma ReachableIsValid(db: Db)
    requires Reachable(db)
    ensures Inv(db)
  {
    hide Inv;
    var states, actions :| RunTo(states, actions, db);
    assert Complete(states[0]) by { EmptyIsValid(); }
    ClosedRunKeepsInv(states, actions, |actions|);
  }

  lemma EmptyIsReachable()
    ensures Reachable(EMPTY)
  {
    EmptyIsValid();
    assert RunTo([EMPTY], [], EMPTY);
  }

  ghost predicate Takes(db: Db, a: Action, n: Db) {
    Inv(db) ==> Enabled(db, a) && Apart(db, a) && LowerClosed(db, a) && n == Next(db, a)
  }

  lemma Step(db: Db, a: Action, n: Db)
    requires Reachable(db) && Takes(db, a, n)
    ensures Reachable(n)
  {
    hide Shape, Complete, Enabled, Apart, LowerClosed, Next;
    ReachableIsValid(db);
    var states, actions :| RunTo(states, actions, db);
    var more, further := states + [n], actions + [a];
    forall i | 0 <= i < |further|
      ensures StepTo(more[i], further[i], more[i + 1]) && Apart(more[i], further[i]) && LowerClosed(more[i], further[i])
    {
      if i < |actions| {
        assert more[i] == states[i] && more[i + 1] == states[i + 1] && further[i] == actions[i];
      }
    }
    assert RunTo(more, further, n);
  }

  // ---- steps with a known outcome ----

  lemma Put(db: Db, op: Op, n: Db)
    requires Reachable(db) && |db.ops| + 1 < MAX_SEQUENCE_NUMBER
    requires n == db.(ops := db.ops + [op], mem := AddToMem(db.mem, EntryOf(db.ops + [op], |db.ops| + 1)))
    ensures Reachable(n)
  {
    hide Inv, AddToMem;
    Step(db, WriteOp(op), n);
  }

  lemma Switched(db: Db)
    requires Reachable(db) && db.imm.None?
    ensures Reachable(Switch(db))
  {
    hide Inv;
    Step(db, SwitchMemTable, Switch(db));
  }

  lemma Snapshot(db: Db)
    requires Reachable(db)
    ensures Reachable(TakeSnapshot(db))
  {
    hide Inv;
    Step(db, NewSnapshot, TakeSnapshot(db));
  }

  lemma Release(db: Db, i: nat)
    requires Reachable(db) && i < |db.snapshots|
    ensures Reachable(ReleaseSnapshot(db, i))
  {
    hide Inv;
    Step(db, DropSnapshot(i), ReleaseSnapshot(db, i));
  }

  /** The files of w are those of v and f in `level`. */
  ghost predicate WithFile(v: Version, level: nat, f: File, w: Version) {
    level < NUM_LEVELS && forall l :: 0 <= l < NUM_LEVELS ==>
      FilesSorted(w.files[l]) && forall g :: g in w.files[l] <==> g in v.files[l] || (l == level && g == f)
  }

  lemma FlushGives(db: Db, level: nat, f: File, w: Version)
    requires Shape(db) && f.number >= db.nextFileNumber && WithFile(db.current, level, f, w)
    ensures ApplyEdit(db.current, FlushEdit(level, f)) == w
  {
    hide VersionOk, FilesSorted, ApplyEdit;
    FlushedFiles(db.current, level, f, db.nextFileNumber);
    var u := ApplyEdit(db.current, FlushEdit(level, f));
    forall l | 0 <= l < NUM_LEVELS ensures u.files[l] == w.files[l] {
      SameFilesSameOrder(u.files[l], w.files[l]);
    }
    assert u.files == w.files;
  }

  /** The memtable is switched and flushed to `level`. */
  lemma StoreFile(db: Db, level: nat, f: File, w: Version, n: Db)
    requires Reachable(db) && db.imm.None? && db.running.None? && db.mem == f.entries
    requires f.number >= db.nextFileNumber && MaySkipTo(db.current, level, f) && WithFile(db.current, level, f, w)
    requires n == db.(mem := [], current := w, nextFileNumber := f.number + 1)
    ensures Reachable(n)
  {
    hide Shape, Complete, ApplyEdit, MaySkipTo, WithFile;
    var m := Switch(db);
    Step(db, SwitchMemTable, m);
    ReachableIsValid(m);
    FlushGives(m, level, f, w);
    Step(m, FlushTo(level, f), n);
  }

  /** The files of w are those of v with the inputs replaced. */
  ghost predicate WithReplaced(v: Version, c: Compaction, outputs: seq<File>, w: Version) {
    forall l :: 0 <= l < NUM_LEVELS ==>
      && FilesSorted(w.files[l])
      && forall g :: g in w.files[l] <==> (g in v.files[l] && Stays(c, l, g)) || (l == c.level + 1 && g in outputs)
  }

  lemma InstallGives(v: Version, c: Compaction, outputs: seq<File>, before: nat, next: nat, w: Version)
    requires VersionOk(v, before) && InputsPresent(v, c) && FreshOutputs(v, c, outputs, next)
        && WithReplaced(v, c, outputs, w)
    ensures ApplyEdit(v, CompactionEdit(c, outputs)) == w
  {
    hide VersionOk, FilesSorted, ApplyEdit, InputsPresent, FreshOutputs, Stays;
    ReplacedFiles(v, c, outputs, before, next);
    var u := ApplyEdit(v, CompactionEdit(c, outputs));
    forall l | 0 <= l < NUM_LEVELS ensures u.files[l] == w.files[l] {
      SameFilesSameOrder(u.files[l], w.files[l]);
    }
    assert u.files == w.files;
  }

  lemma Started(db: Db, c: Compaction, s: SequenceNumber)
    requires Reachable(db) && db.running.None? && s == SmallestSnapshot(db) && Selected(db.current, c)
    ensures Reachable(db.(running := Some(Running(c, db.current, s))))
  {
    hide Shape, Complete, Selected;
    Step(db, BeginCompaction(c), db.(running := Some(Running(c, db.current, s))));
  }

  /** The compaction c of v may write `outputs`, which makes w. */
  ghost predicate Compacts(v: Version, c: Compaction, s: SequenceNumber, outputs: seq<File>, next: nat, w: Version) {
    && Selected(v, c)
    && FreshOutputs(v, c, outputs, next) && LevelSorted(outputs)
    && OutputsOf(Running(c, v, s), outputs) && WithReplaced(v, c, outputs, w)
    && LowerInputsClosed(v, c)
  }

  /** A compaction from beginning to end. */
  lemma Compact(db: Db, c: Compaction, s: SequenceNumber, outputs: seq<File>, next: nat, w: Version, n: Db)
    requires Reachable(db) && db.running.None? && s == SmallestSnapshot(db)
    requires Compacts(db.current, c, s, outputs, next, w) && db.nextFileNumber <= next
    requires n == db.(current := w, nextFileNumber := next, floor := s)
    ensures Reachable(n)
  {
    hide Shape, Complete, ApplyEdit, WithReplaced, Selected, FreshOutputs, OutputsOf, LevelSorted, LowerInputsClosed;
    var m := db.(running := Some(Running(c, db.current, s)));
    Started(db, c, s);
    ReachableIsValid(m);
    ShapeHasParts(m);
    InstallGives(m.current, c, outputs, m.nextFileNumber, next, w);
    Step(m, InstallOutputs(outputs, next), n);
  }

  lemma ShapeHasParts(db: Db)
    requires Shape(db)
    ensures VersionOk(db.current, db.nextFileNumber)
    ensures db.running.Some? ==> InputsPresent(db.current, db.running.value.c)
  {
    if db.running.Some? { InputsOfRunning(db); }
  }

  // ---- databases of two levels ----

  /** Only levels 1 and 2 hold files. */
  function TwoLevels(upper: seq<File>, lower: seq<File>): Version {
    VersionRep([[], upper, lower, [], [], [], []])
  }

  function Quiet(v: Version, next: nat, snapshots: seq<nat>, ops: seq<Op>, floor: nat): Db {
    Db([], None, v, next, snapshots, None, ops, floor)
  }

  lemma SmallLevels(f: File, g: File)
    ensures LevelSorted([]) && FilesSorted([])
    ensures LevelSorted([f]) && FilesSorted([f])
    ensures Less(Largest(f), Smallest(g)) ==> LevelSorted([f, g]) && FilesSorted([f, g])
  {
    if Less(Largest(f), Smallest(g)) {
      LevelIsFilesSorted([f, g]);
    }
  }

  lemma TwoLevelsWithFile(u: seq<File>, l: seq<File>, level: nat, f: File, u2: seq<File>, l2: seq<File>)
    requires FilesSorted(u2) && FilesSorted(l2) && FilesSorted([])
    requires forall g :: g in u2 <==> g in u || (level == 1 && g == f)
    requires forall g :: g in l2 <==> g in l || (level == 2 && g == f)
    requires 1 <= level <= 2
    ensures WithFile(TwoLevels(u, l), level, f, TwoLevels(u2, l2))
  {
    hide FilesSorted;
    var v, w := TwoLevels(u, l), TwoLevels(u2, l2);
    forall i | 0 <= i < NUM_LEVELS && i != 1 && i != 2 ensures v.files[i] == [] && w.files[i] == [] {
    }
  }

  lemma NoFiles(f: File)
    ensures EMPTY.current == TwoLevels([], []) && forall l :: 0 <= l < NUM_LEVELS ==> ClearOf(EMPTY.current.files[l], f)
  {
    assert forall l :: 0 <= l < NUM_LEVELS ==> EMPTY.current.files[l] == [];
  }

  /** A file may go to level 1 if that is empty, like level 0. */
  lemma ClearAbove(lower: seq<File>, f: File)
    ensures MaySkipTo(TwoLevels([], lower), 1, f)
  {
    assert TwoLevels([], lower).files[0] == [] && TwoLevels([], lower).files[1] == [];
  }

  /** All of level 1 compacted into level 2. */
  lemma Replaced(upper: seq<File>, lower: seq<File>, parents: seq<File>, outputs: seq<File>, l2: seq<File>)
    requires FilesSorted(l2) && FilesSorted([])
    requires forall g :: g in l2 <==> (g in lower && g !in parents) || g in outputs
    ensures WithReplaced(TwoLevels(upper, lower), Compaction(1, upper, parents, []), outputs, TwoLevels([], l2))
  {
    hide FilesSorted;
    var v, w := TwoLevels(upper, lower), TwoLevels([], l2);
    assert v.files[1] == upper && v.files[2] == lower && w.files[1] == [] && w.files[2] == l2;
    forall i | 0 <= i < NUM_LEVELS && i != 1 && i != 2 ensures v.files[i] == [] && w.files[i] == [] {
    }
  }

  /** Outputs with numbers that no file has. */
  lemma Fresh(upper: seq<File>, lower: seq<File>, parents: seq<File>, outputs: seq<File>, next: nat)
    requires DistinctNumbers(outputs) && forall o :: o in outputs ==> o.number < next
    requires forall g, o :: (g in upper || g in lower) && o in outputs ==> g.number < o.number
    ensures FreshOutputs(TwoLevels(upper, lower), Compaction(1, upper, parents, []), outputs, next)
  {
    hide DistinctNumbers;
    var v := TwoLevels(upper, lower);
    assert v.files[1] == upper && v.files[2] == lower;
    assert forall i :: 0 <= i < NUM_LEVELS && i != 1 && i != 2 ==> v.files[i] == [];
  }

  lemma TwoNumbers(f: File, g: File)
    requires f.number != g.number
    ensures DistinctNumbers([f, g])
  {
  }

  lemma OneNumber(f: File)
    ensures DistinctNumbers([f])
  {
  }
}
