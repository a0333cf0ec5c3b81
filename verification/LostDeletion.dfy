/** DoCompactionWork drops a deletion when no level below the output level has
    its key, but never looks at output-level files that are not inputs.  Exactly
    when that makes a deleted value visible again. */
module LostDeletion {
  import opened InternalKeys
  import opened Versions
  import opened CompactionSetup
  import opened CompactionWork
  import opened ManifestReplay
  import opened History
  import opened LsmState
  import opened LsmVersions
  import opened LsmOrder
  import opened LsmCompaction

  /** e lies in an output-level file that is not an input. */
  ghost predicate LeftOut(v: Version, c: Compaction, e: Entry)
    requires c.level + 1 < NUM_LEVELS
  {
    exists g :: g in v.files[c.level + 1] && g !in c.inputs1 && e in g.entries
  }

  /** The newest version stored at or below the smallest snapshot is a deletion
      that the loop drops, and the newest of the older versions left out is a
      value. */
  ghost predicate Resurrects(db: Db, user: UserKey, d: Entry, e: Entry)
    requires db.running.Some? && db.running.value.c.level + 1 < NUM_LEVELS
    requires db.running.value.smallestSnapshot <= |db.ops|
  {
    var r := db.running.value;
    && InInputs(r.c, d) && NewestHeld(db, user, r.smallestSnapshot, d)
    && ObsoleteTombstone(r.base, r.c, d, r.smallestSnapshot)
    && LeftOut(db.current, r.c, e) && e.key.user == user && e.key.sqn < d.key.sqn && e.key.kind.TypeValue?
    && forall f :: LeftOut(db.current, r.c, f) && f.key.user == user && f.key.sqn < d.key.sqn ==> f.key.sqn <= e.key.sqn
  }

  /** After a tombstone d is dropped, anything of its key that is not newer lies
      in a file that was left out. */
  lemma OnlyLeftOutIsOlder(db: Db, outputs: seq<File>, next: nat, d: Entry, f: Entry)
    requires Shape(db) && CanInstall(db, outputs, next)
    requires InInputs(db.running.value.c, d)
    requires ObsoleteTombstone(db.running.value.base, db.running.value.c, d, db.running.value.smallestSnapshot)
    requires Holds(Install(db, outputs, next), f) && f.key.user == d.key.user && f.key.sqn <= d.key.sqn
    ensures db.running.value.c.level + 1 < NUM_LEVELS
    ensures LeftOut(db.current, db.running.value.c, f) && f.key.sqn < d.key.sqn
  {
    hide VersionOk, InInputs, FreshOutputs, RunningOk, Complete, Stays, BaseLevel, InVersion, ApplyEdit, FromHistory,
        NewestFirst,
         OutputsOf;
    var r := db.running.value;
    InputsOfRunning(db);
    InputIsStored(db.current, r.c, d);
    assert d in Stored(db.current) && Holds(db, d);
    assert f !in db.mem && !InImm(db, f) by {
      assert f in db.mem ==> f in Mem(db);
      assert InImm(db, f) ==> f in Imm(db);
    }
    ReplacedContents(db.current, r.c, outputs, db.nextFileNumber, next, f);
    InstalledHolds(db, outputs, next, f);
    assert !InFiles(outputs, f) by { DroppedNotOutput(db, outputs, d, f); }
    var l, g :| 0 <= l < NUM_LEVELS && g in db.current.files[l] && Stays(r.c, l, g) && f in g.entries;
    StayingOlderIsLeftOut(db, l, g, d, f);
  }

  lemma DroppedNotOutput(db: Db, outputs: seq<File>, d: Entry, f: Entry)
    requires |db.ops| <= MAX_SEQUENCE_NUMBER && AllFromHistory(db) && db.running.Some?
        && OutputsOf(db.running.value, outputs)
    requires InInputs(db.running.value.c, d) && Holds(db, d) && Holds(db, f)
    requires ObsoleteTombstone(db.running.value.base, db.running.value.c, d, db.running.value.smallestSnapshot)
    requires f.key.user == d.key.user && f.key.sqn <= d.key.sqn
    ensures !InFiles(outputs, f)
  {
    hide BaseLevel, InInputs, Holds, FromHistory;
    var r := db.running.value;
    if f.key.sqn == d.key.sqn {
      SameNumberSameEntry(db.ops, f, d);
    } else {
      assert Superseded(r.c, f, r.smallestSnapshot);
    }
  }

  lemma StayingOlderIsLeftOut(db: Db, l: nat, g: File, d: Entry, f: Entry)
    requires Shape(db) && db.running.Some?
    requires l < NUM_LEVELS && g in db.current.files[l] && Stays(db.running.value.c, l, g) && f in g.entries
    requires InInputs(db.running.value.c, d) && BaseLevel(db.running.value.base, db.running.value.c.level, d.key.user)
    requires f.key.user == d.key.user && f.key.sqn <= d.key.sqn
    ensures db.running.value.c.level + 1 < NUM_LEVELS
    ensures LeftOut(db.current, db.running.value.c, f) && f.key.sqn < d.key.sqn
  {
    hide VersionOk, Complete, BaseLevel, FromHistory, InVersion, LevelSorted, WellShaped, NewestFirst, DeepEnough;
    var r := db.running.value;
    var c := r.c;
    DistinctInHistory(db);
    if l <= c.level {
      var p := PlaceOf(l, g);
      assert FileAt(db.current, p, g) && LevelOf(p) == l;
      StaysAboveNewer(db.current, db.nextFileNumber, c, p, g, f, d);
    } else if l == c.level + 1 {
      LeftOutIsDifferent(db.current, db.nextFileNumber, c, g, f, d);
    } else {
      OtherKeysDeeper(db.current, r, d, l, f);
    }
  }

  lemma LeftOutIsDifferent(v: Version, next: nat, c: Compaction, g: File, f: Entry, d: Entry)
    requires VersionOk(v, next) && NewestFirst(v) && DistinctVersions(v) && InputsPresent(v, c)
    requires g in v.files[c.level + 1] && g !in c.inputs1 && f in g.entries
    requires InInputs(c, d) && f.key.user == d.key.user
    ensures f.key.sqn != d.key.sqn
  {
    hide VersionOk;
    if InFiles(c.inputs0, d) {
      var h :| h in c.inputs0 && d in h.entries;
      FilePlace(v, c.level, h, d);
      FilePlace(v, c.level + 1, g, f);
      assert Newer(PlaceOf(c.level, h), PlaceOf(c.level + 1, g));
    } else {
      var h :| h in c.inputs1 && d in h.entries;
      NoEntryTwice(v, next, c.level + 1, g, h, f, d);
    }
  }

  lemma LeftOutStays(db: Db, outputs: seq<File>, next: nat, e: Entry)
    requires Shape(db) && CanInstall(db, outputs, next) && db.running.value.c.level + 1 < NUM_LEVELS
    requires LeftOut(db.current, db.running.value.c, e)
    ensures Holds(Install(db, outputs, next), e)
  {
    hide VersionOk, FreshOutputs, Complete, InVersion, ApplyEdit, FromHistory, NewestFirst, OutputsOf;
    var c := db.running.value.c;
    InputsOfRunning(db);
    var g :| g in db.current.files[c.level + 1] && g !in c.inputs1 && e in g.entries;
    assert Stays(c, c.level + 1, g);
    ReplacedContents(db.current, c, outputs, db.nextFileNumber, next, e);
  }

  lemma {:induction false} NewestExists(db: Db, user: UserKey, s: SequenceNumber, bound: nat)
    requires forall e :: Holds(db, e) && Visible(e, user, s) ==> e.key.sqn <= bound
    requires !NoneHeld(db, user, s)
    ensures exists e :: NewestHeld(db, user, s, e)
  {
    hide Holds;
    if e :| Holds(db, e) && Visible(e, user, s) && e.key.sqn == bound {
      assert NewestHeld(db, user, s, e);
    } else {
      var e :| Holds(db, e) && Visible(e, user, s);
      NewestExists(db, user, s, bound - 1);
    }
  }

  lemma InputsAreHeld(db: Db, e: Entry)
    requires Shape(db) && db.running.Some? && InInputs(db.running.value.c, e)
    ensures Holds(db, e)
  {
    hide VersionOk, InVersion, FromHistory, Ordered, InInputs;
    InputsOfRunning(db);
    InputIsStored(db.current, db.running.value.c, e);
  }

  /** A version that was what readers from the smallest snapshot on see, and is
      not held any more, was a deletion the loop dropped. */
  lemma DroppedIsDeletion(db: Db, outputs: seq<File>, next: nat, user: UserKey, s: SequenceNumber, e: Entry)
    requires Shape(db) && CanInstall(db, outputs, next) && db.running.value.smallestSnapshot <= s
    requires NewestHeld(db, user, s, e) && !Holds(Install(db, outputs, next), e)
    ensures var r := db.running.value;
      InInputs(r.c, e) && ObsoleteTombstone(r.base, r.c, e, r.smallestSnapshot)
          && NewestHeld(db, user, r.smallestSnapshot, e)
  {
    hide VersionOk, FreshOutputs, Ordered, AllFromHistory, Install, Holds, InInputs, BaseLevel, LevelSorted;
    var r := db.running.value;
    InstalledHolds(db, outputs, next, e);
    forall p | InInputs(r.c, p) && p.key.user == e.key.user ensures !(e.key.sqn < p.key.sqn <= r.smallestSnapshot) {
      InputsAreHeld(db, p);
    }
    assert !Superseded(r.c, e, r.smallestSnapshot);
    assert InFiles(outputs, e) <==> Survivor(r, e);
  }

  ghost predicate NoneResurrects(db: Db)
    requires db.running.Some? && db.running.value.c.level + 1 < NUM_LEVELS
    requires db.running.value.smallestSnapshot <= |db.ops|
  {
    forall user, d, e :: !Resurrects(db, user, d, e)
  }

  /** If no value comes back, a reader sees after an installation what it saw
      before. */
  lemma ReadsCarryOver(db: Db, outputs: seq<File>, next: nat, user: UserKey, s: SequenceNumber, r: GetResult)
    requires Shape(db) && db.running.Some? && CanInstall(db, outputs, next) && db.running.value.smallestSnapshot <= s
    requires db.running.value.c.level + 1 < NUM_LEVELS && db.running.value.smallestSnapshot <= |db.ops|
    requires NoneResurrects(db) && Reads(db, user, s, r)
    ensures Reads(Install(db, outputs, next), user, s, r)
  {
    hide Shape, CanInstall, Install, Holds, Resurrects, Visible;
    var n := Install(db, outputs, next);
    forall f | Holds(n, f) ensures Holds(db, f) { InstalledFromDb(db, outputs, next, f); }
    if e :| NewestHeld(db, user, s, e) && r == Answer(e) {
      if Holds(n, e) {
        assert NewestHeld(n, user, s, e);
      } else {
        DroppedIsDeletion(db, outputs, next, user, s, e);
        DeletionStays(db, outputs, next, user, s, e);
      }
    } else {
      assert NoneHeld(n, user, s);
    }
  }

  lemma InstalledFromDb(db: Db, outputs: seq<File>, next: nat, f: Entry)
    requires Shape(db) && CanInstall(db, outputs, next) && Holds(Install(db, outputs, next), f)
    ensures Holds(db, f)
  {
    hide VersionOk, FreshOutputs, Ordered, AllFromHistory, Install, Holds;
    InstalledHolds(db, outputs, next, f);
  }

  lemma DeletionStays(db: Db, outputs: seq<File>, next: nat, user: UserKey, s: SequenceNumber, d: Entry)
    requires Shape(db) && db.running.Some? && CanInstall(db, outputs, next) && db.running.value.smallestSnapshot <= s
    requires db.running.value.c.level + 1 < NUM_LEVELS && db.running.value.smallestSnapshot <= |db.ops|
    requires NoneResurrects(db) && NewestHeld(db, user, s, d)
    requires var r := db.running.value;
      InInputs(r.c, d) && ObsoleteTombstone(r.base, r.c, d, r.smallestSnapshot)
          && NewestHeld(db, user, r.smallestSnapshot, d)
    ensures Answer(d) == NotFound && Reads(Install(db, outputs, next), user, s, NotFound)
  {
    hide Shape, CanInstall, Install, Holds, InInputs, LeftOut, BaseLevel;
    var r := db.running.value;
    var n := Install(db, outputs, next);
    if !NoneHeld(n, user, s) {
      NewestExists(n, user, s, s);
      var e :| NewestHeld(n, user, s, e);
      InstalledFromDb(db, outputs, next, e);
      OnlyLeftOutIsOlder(db, outputs, next, d, e);
      forall f | LeftOut(db.current, r.c, f) && f.key.user == user && f.key.sqn < d.key.sqn
        ensures f.key.sqn <= e.key.sqn
      {
        LeftOutStays(db, outputs, next, f);
      }
      assert !Resurrects(db, user, d, e);
      assert Answer(e) == NotFound;
    }
  }

  lemma ResurrectedIsRead(db: Db, outputs: seq<File>, next: nat, user: UserKey, d: Entry, e: Entry)
    requires Shape(db) && db.running.Some? && CanInstall(db, outputs, next)
    requires db.running.value.c.level + 1 < NUM_LEVELS && db.running.value.smallestSnapshot <= |db.ops|
    requires Resurrects(db, user, d, e)
    ensures Reads(db, user, db.running.value.smallestSnapshot, NotFound)
    ensures Reads(Install(db, outputs, next), user, db.running.value.smallestSnapshot, Found(e.value))
  {
    hide Shape, CanInstall, Install, Holds, InInputs, LeftOut, BaseLevel;
    var s := db.running.value.smallestSnapshot;
    var n := Install(db, outputs, next);
    assert Answer(d) == NotFound;
    LeftOutStays(db, outputs, next, e);
    forall f | Holds(n, f) && Visible(f, user, s) ensures f.key.sqn <= e.key.sqn {
      InstalledFromDb(db, outputs, next, f);
      OnlyLeftOutIsOlder(db, outputs, next, d, f);
    }
    assert NewestHeld(n, user, s, e) && Answer(e) == Found(e.value);
  }

  lemma AnswersAgree(db: Db, user: UserKey, s: SequenceNumber, a: GetResult, b: GetResult)
    requires Shape(db) && Reads(db, user, s, a) && Reads(db, user, s, b)
    ensures a == b
  {
    hide VersionOk, Ordered, RunningOk, SnapshotsOk, Reads, AllFromHistory;
    ReadsIsFunctional(db, user, s, a, b);
  }

  lemma SomeAnswer(db: Db, user: UserKey, s: SequenceNumber) returns (r: GetResult)
    ensures Reads(db, user, s, r)
  {
    hide Holds;
    if NoneHeld(db, user, s) {
      r := NotFound;
    } else {
      NewestExists(db, user, s, s);
      var e :| NewestHeld(db, user, s, e);
      r := Answer(e);
    }
  }

  /** Readers at s or later cannot tell the two apart. */
  ghost predicate SameReadsFrom(a: Db, b: Db, s: nat) {
    forall user: UserKey, t: SequenceNumber, r: GetResult :: s <= t ==> (Reads(a, user, t, r) <==> Reads(b, user, t, r))
  }

  /** Whatever was read before, right or wrong, installing a compaction changes
      no read at any snapshot that can still be used if and only if no dropped
      deletion was all that hid a value in a file left out of the inputs. */
  lemma InstallChangesNoReadExactly(db: Db, outputs: seq<File>, next: nat)
    requires Shape(db) && db.running.Some? && CanInstall(db, outputs, next)
    requires db.running.value.c.level + 1 < NUM_LEVELS && db.running.value.smallestSnapshot <= |db.ops|
    ensures SameReadsFrom(db, Install(db, outputs, next), db.running.value.smallestSnapshot) <==> NoneResurrects(db)
  {
    hide Shape, CanInstall, Install, Reads, Resurrects;
    var s, n := db.running.value.smallestSnapshot, Install(db, outputs, next);
    assert Shape(n) by { InstallKeepsShape(db, outputs, next); }
    if NoneResurrects(db) {
      forall user: UserKey, t: SequenceNumber, r: GetResult | s <= t
        ensures Reads(db, user, t, r) <==> Reads(n, user, t, r)
      {
        var a := SomeAnswer(db, user, t);
        ReadsCarryOver(db, outputs, next, user, t, a);
        if Reads(n, user, t, r) { AnswersAgree(n, user, t, a, r); }
        if Reads(db, user, t, r) { AnswersAgree(db, user, t, a, r); }
      }
    }
    forall user, d, e | Resurrects(db, user, d, e) ensures !SameReadsFrom(db, n, s) {
      ResurrectedIsRead(db, outputs, next, user, d, e);
      if Reads(n, user, s, NotFound) { AnswersAgree(n, user, s, NotFound, Found(e.value)); }
    }
  }

  /** So reads that were all right stay so under exactly the same condition. */
  lemma InstallKeepsReadsExactly(db: Db, outputs: seq<File>, next: nat)
    requires Shape(db) && ReadsRight(db) && db.running.Some? && CanInstall(db, outputs, next)
    requires db.running.value.c.level + 1 < NUM_LEVELS && db.running.value.smallestSnapshot <= |db.ops|
    ensures ReadsRight(Install(db, outputs, next)) <==> NoneResurrects(db)
  {
    hide Shape, CanInstall, Reads, Resurrects, ReadAt;
    var s, n := db.running.value.smallestSnapshot, Install(db, outputs, next);
    assert db.floor <= s && |db.ops| <= MAX_SEQUENCE_NUMBER by { FloorRises(db); }
    assert Shape(n) by { InstallKeepsShape(db, outputs, next); }
    InstallChangesNoReadExactly(db, outputs, next);
    if NoneResurrects(db) {
      forall user: UserKey, t: nat | n.floor <= t <= |n.ops| ensures Reads(n, user, t, ReadAt(n.ops, t, user)) {
        assert Reads(db, user, t, ReadAt(db.ops, t, user));
      }
    }
    forall user, d, e | Resurrects(db, user, d, e) ensures !ReadsRight(n) {
      ResurrectedIsRead(db, outputs, next, user, d, e);
      assert Reads(db, user, s, ReadAt(db.ops, s, user));
      AnswersAgree(db, user, s, NotFound, ReadAt(db.ops, s, user));
      if Reads(n, user, s, NotFound) { AnswersAgree(n, user, s, NotFound, Found(e.value)); }
    }
  }

  lemma FloorRises(db: Db)
    requires Shape(db) && db.running.Some?
    ensures db.floor <= db.running.value.smallestSnapshot && |db.ops| <= MAX_SEQUENCE_NUMBER
  {
  }

  /** Lower inputs closed on the right rule every such loss out. */
  lemma ClosedInputsLoseNothing(db: Db, user: UserKey, d: Entry, e: Entry)
    requires Shape(db) && db.running.Some? && db.running.value.c.level + 1 < NUM_LEVELS
    requires db.running.value.smallestSnapshot <= |db.ops|
    requires LowerInputsClosed(db.current, db.running.value.c)
    ensures !Resurrects(db, user, d, e)
  {
    hide VersionOk, InVersion, FromHistory, NewestFirst, Ordered, Complete, LevelSorted, BaseLevel, LowerInputsClosed,
        InInputs, Replaceable;
    var c := db.running.value.c;
    DistinctInHistory(db);
    if InInputs(c, d) && LeftOut(db.current, c, e) && e.key.user == d.key.user {
      var g :| g in db.current.files[c.level + 1] && g !in c.inputs1 && e in g.entries;
      LeftOutIsNewer(db.current, c, g, e, d);
    }
  }
}
