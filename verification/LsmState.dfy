/** The state of a running database and the invariant that ties it to the list
    of operations it was given. */
module LsmState {
  import opened InternalKeys
  import opened Versions
  import opened VersionEdits
  import opened CompactionSetup
  import opened CompactionWork
  import opened History

  /** A background compaction between picking its inputs and installing its
      outputs.  `base` is its input version. */
  datatype Running = Running(c: Compaction, base: Version, smallestSnapshot: SequenceNumber)

  /** `floor` is the oldest snapshot a reader may still use; `ops` the history. */
  datatype Db = Db(mem: seq<Entry>, imm: Option<seq<Entry>>, current: Version, nextFileNumber: nat,
                   snapshots: seq<nat>, running: Option<Running>, ops: seq<Op>, floor: nat)

  ghost predicate InImm(db: Db, e: Entry) {
    db.imm.Some? && e in db.imm.value
  }

  ghost predicate Holds(db: Db, e: Entry) {
    e in db.mem || InImm(db, e) || InVersion(db.current, e)
  }

  /** All that is stored, wherever it lies. */
  ghost function Held(db: Db): iset<Entry> { iset e | Holds(db, e) }

  /** On a shared user key every entry of `newer` beats every entry of `older`. */
  ghost predicate NewerSets(newer: iset<Entry>, older: iset<Entry>) {
    forall e, f :: e in newer && f in older && e.key.user == f.key.user ==> e.key.sqn > f.key.sqn
  }

  ghost function Mem(db: Db): iset<Entry> { iset e | e in db.mem }

  ghost function Imm(db: Db): iset<Entry> { iset e | InImm(db, e) }

  ghost function Stored(v: Version): iset<Entry> { iset e | InVersion(v, e) }

  /** memtable > immutable memtable > level 0 by file number > level 1 > ... */
  ghost predicate Ordered(db: Db) {
    && NewestFirst(db.current)
    && NewerSets(Mem(db), Imm(db)) && NewerSets(Mem(db), Stored(db.current)) && NewerSets(Imm(db), Stored(db.current))
  }

  ghost predicate VersionOk(v: Version, nextFileNumber: nat) {
    && WellShaped(v)
    && (forall l :: 0 <= l < NUM_LEVELS ==> FilesSorted(v.files[l]))
    && NumbersOk(v, nextFileNumber)
  }

  /** File numbers identify files. */
  ghost predicate NumbersOk(v: Version, nextFileNumber: nat) {
    && (forall l, f :: 0 <= l < NUM_LEVELS && f in v.files[l] ==> f.number < nextFileNumber)
    && (forall l, m, f, g ::
          0 <= l < NUM_LEVELS && 0 <= m < NUM_LEVELS && f in v.files[l] && g in v.files[m] && f.number == g.number
          ==> l == m && f == g)
  }

  ghost predicate AllFromHistory(db: Db)
    requires |db.ops| <= MAX_SEQUENCE_NUMBER
  {
    forall e :: Holds(db, e) ==> FromHistory(db.ops, e)
  }

  ghost predicate NothingUpTo(db: Db, user: UserKey, q: nat) {
    forall e :: Holds(db, e) && e.key.user == user ==> e.key.sqn > q
  }

  /** The last write of a key is still stored, unless it was a deletion and
      nothing older is left for it to hide. */
  ghost predicate Retained(db: Db, user: UserKey, q: nat)
    requires q <= |db.ops| <= MAX_SEQUENCE_NUMBER
  {
    || q == 0
    || Holds(db, EntryOf(db.ops, q))
    || (db.ops[q - 1].kind.TypeDeletion? && NothingUpTo(db, user, q))
  }

  ghost predicate Complete(db: Db)
    requires |db.ops| <= MAX_SEQUENCE_NUMBER
  {
    forall user: UserKey, s: nat :: db.floor <= s <= |db.ops| ==> Retained(db, user, LastWrite(db.ops, user, s))
  }

  ghost predicate SnapshotsOk(db: Db) {
    && db.floor <= |db.ops|
    && (forall i :: 0 <= i < |db.snapshots| ==> db.floor <= db.snapshots[i] <= |db.ops|)
    && (forall i, j :: 0 <= i < j < |db.snapshots| ==> db.snapshots[i] <= db.snapshots[j])
  }

  // ---- a compaction in progress ----

  ghost predicate InInputs(c: Compaction, e: Entry) {
    InFiles(c.inputs0, e) || InFiles(c.inputs1, e)
  }

  ghost predicate FileAfter(g: File, c: Compaction) {
    forall e :: InInputs(c, e) ==> Less(e.key, Smallest(g))
  }

  ghost predicate FileBeforeAll(g: File, c: Compaction) {
    forall e :: InInputs(c, e) ==> Less(Largest(g), e.key)
  }

  ghost predicate SharesUserKey(g: File, inputs: seq<File>) {
    exists e, h :: e in g.entries && InFiles(inputs, h) && e.key.user == h.key.user
  }

  ghost predicate Outside(g: File, c: Compaction) {
    FileBeforeAll(g, c) || FileAfter(g, c)
  }

  /** No input has a user key in the range of g. */
  ghost predicate InGap(g: File, c: Compaction) {
    forall e :: InInputs(c, e) ==> e.key.user < Smallest(g).user || Largest(g).user < e.key.user
  }

  /** A file of the output level that stays: no input lies inside its range, and
      it has no user key of the upper ones. */
  ghost predicate Bystander(g: File, c: Compaction) {
    (Outside(g, c) || InGap(g, c)) && !SharesUserKey(g, c.inputs0)
  }

  /** An input entry that the drop loop may leave out because every reader
      already sees something newer. */
  ghost predicate Superseded(c: Compaction, e: Entry, smallestSnapshot: nat) {
    exists p :: InInputs(c, p) && p.key.user == e.key.user && e.key.sqn < p.key.sqn <= smallestSnapshot
  }

  ghost predicate ObsoleteTombstone(base: Version, c: Compaction, e: Entry, smallestSnapshot: nat) {
    e.key.kind.TypeDeletion? && e.key.sqn <= smallestSnapshot && BaseLevel(base, c.level, e.key.user)
  }

  /** An input entry that the drop loop keeps. */
  ghost predicate Survivor(r: Running, e: Entry) {
    && InInputs(r.c, e)
    && !Superseded(r.c, e, r.smallestSnapshot) && !ObsoleteTombstone(r.base, r.c, e, r.smallestSnapshot)
  }

  /** The compaction will keep entries on both sides of g. */
  ghost predicate Straddled(r: Running, g: File) {
    exists e, h :: Survivor(r, e) && Survivor(r, h) && e.key.user < Smallest(g).user && Largest(g).user < h.key.user
  }

  ghost predicate InputsPresent(v: Version, c: Compaction) {
    && c.level + 1 < NUM_LEVELS
    && (forall f :: f in c.inputs0 ==> f in v.files[c.level])
    && (forall f :: f in c.inputs1 ==> f in v.files[c.level + 1])
  }

  ghost predicate Replaceable(v: Version, c: Compaction) {
    && InputsPresent(v, c)
    && LeavesNothingOlder(v.files[c.level], c.inputs0)
    && (forall g :: g in v.files[c.level + 1] && g !in c.inputs1 ==> Bystander(g, c))
  }

  ghost predicate NoneStraddled(v: Version, r: Running) {
    r.c.level + 1 < NUM_LEVELS && forall g :: g in v.files[r.c.level + 1] && g !in r.c.inputs1 ==> !Straddled(r, g)
  }

  /** If the input version has no deeper file around an input's user key, the
      current version stores nothing of that key deeper down. */
  ghost predicate DeepEnough(v: Version, base: Version, c: Compaction) {
    forall h, e, l ::
      InInputs(c, h) && BaseLevel(base, c.level, h.key.user) && c.level + 2 <= l < NUM_LEVELS && InFiles(v.files[l], e)
      ==> e.key.user != h.key.user
  }

  ghost predicate RunningOk(db: Db) {
    db.running.Some? ==>
      var r := db.running.value;
      && WellShaped(r.base)
      && Replaceable(db.current, r.c) && NoneStraddled(db.current, r)
      && NoDuplicates(r.c.inputs0) && LevelSorted(r.c.inputs1)
      && r.c.inputs0 != []
      && DeepEnough(db.current, r.base, r.c)
      && db.floor <= r.smallestSnapshot <= |db.ops|
      && (forall i :: 0 <= i < |db.snapshots| ==> r.smallestSnapshot <= db.snapshots[i])
  }

  /** Everything but completeness: where entries lie, and where they come from. */
  ghost predicate Shape(db: Db) {
    && |db.ops| < MAX_SEQUENCE_NUMBER
    && VersionOk(db.current, db.nextFileNumber)
    && Sorted(db.mem) && (db.imm.Some? ==> Sorted(db.imm.value))
    && Ordered(db)
    && AllFromHistory(db)
    && SnapshotsOk(db)
    && RunningOk(db)
  }

  lemma HistoryFits(db: Db)
    requires Shape(db)
    ensures |db.ops| < MAX_SEQUENCE_NUMBER
  {
  }

  ghost predicate Inv(db: Db) {
    Shape(db) && Complete(db)
  }

  // ---- what readers see ----

  /** What a reader sees depends on what is held and on nothing else. */
  lemma SameReads(a: Db, b: Db, user: UserKey, s: SequenceNumber, r: GetResult)
    requires Held(a) == Held(b)
    ensures Reads(a, user, s, r) <==> Reads(b, user, s, r)
  {
    hide Holds;
    assert forall e :: Holds(a, e) <==> e in Held(a);
    assert forall e :: Holds(b, e) <==> e in Held(b);
    assert forall e :: NewestHeld(a, user, s, e) <==> NewestHeld(b, user, s, e);
  }

  ghost predicate NewestHeld(db: Db, user: UserKey, s: SequenceNumber, e: Entry) {
    && Holds(db, e) && Visible(e, user, s)
    && forall f :: Holds(db, f) && Visible(f, user, s) ==> f.key.sqn <= e.key.sqn
  }

  ghost predicate NoneHeld(db: Db, user: UserKey, s: SequenceNumber) {
    forall e :: Holds(db, e) ==> !Visible(e, user, s)
  }

  /** r is what the stored versions say about `user` at snapshot s. */
  ghost predicate Reads(db: Db, user: UserKey, s: SequenceNumber, r: GetResult) {
    (exists e :: NewestHeld(db, user, s, e) && r == Answer(e)) || (NoneHeld(db, user, s) && r == NotFound)
  }

  /** DBImpl::Get on any state at all: memtable, immutable memtable, version. */
  function DbGet(db: Db, user: UserKey, s: SequenceNumber): GetResult {
    if HitIn(db.mem, user, s).Some? then Answer(HitIn(db.mem, user, s).value)
    else if db.imm.Some? && HitIn(db.imm.value, user, s).Some? then Answer(HitIn(db.imm.value, user, s).value)
    else GetFrom(db.current, 0, user, s)
  }

  lemma ReadsIsFunctional(db: Db, user: UserKey, s: SequenceNumber, a: GetResult, b: GetResult)
    requires |db.ops| <= MAX_SEQUENCE_NUMBER && AllFromHistory(db)
    requires Reads(db, user, s, a) && Reads(db, user, s, b)
    ensures a == b
  {
  }

  /** The invariant makes every permitted read return what the plain map held
      after the first s operations. */
  lemma ReadsFollowHistory(db: Db, user: UserKey, s: SequenceNumber)
    requires Inv(db) && db.floor <= s <= |db.ops|
    ensures Reads(db, user, s, ReadAt(db.ops, s, user))
  {
    var q := LastWrite(db.ops, user, s);
    LastWriteDecides(db.ops, user, s);
    assert Retained(db, user, q);
    VisibleUpToLast(db, user, s);
    if q > 0 && Holds(db, EntryOf(db.ops, q)) {
      assert NewestHeld(db, user, s, EntryOf(db.ops, q));
    } else {
      assert NoneHeld(db, user, s);
    }
  }

  /** Every read at a sequence number that may still be used returns what the
      plain map held after so many operations. */
  ghost predicate ReadsRight(db: Db)
    requires |db.ops| <= MAX_SEQUENCE_NUMBER
  {
    forall user: UserKey, s: nat :: db.floor <= s <= |db.ops| ==> Reads(db, user, s, ReadAt(db.ops, s, user))
  }

  lemma CompleteReadsRight(db: Db)
    requires Inv(db)
    ensures ReadsRight(db)
  {
    hide Shape, Complete, Reads, ReadAt;
    HistoryFits(db);
    forall user: UserKey, s: nat | db.floor <= s <= |db.ops| ensures Reads(db, user, s, ReadAt(db.ops, s, user)) {
      ReadsFollowHistory(db, user, s);
    }
  }

  lemma VisibleUpToLast(db: Db, user: UserKey, s: SequenceNumber)
    requires |db.ops| <= MAX_SEQUENCE_NUMBER && AllFromHistory(db) && s <= |db.ops|
    ensures forall e :: Holds(db, e) && Visible(e, user, s) ==> 0 < e.key.sqn <= LastWrite(db.ops, user, s)
  {
    forall e | Holds(db, e) && Visible(e, user, s)
      ensures 0 < e.key.sqn <= LastWrite(db.ops, user, s)
    {
      assert FromHistory(db.ops, e);
      assert db.ops[e.key.sqn - 1].user == user;
    }
  }
}
