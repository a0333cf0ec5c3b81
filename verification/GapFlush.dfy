/** A memtable flushed in the middle of a compaction, to the level the compaction
    writes to: exactly when that level stays disjoint. */
module GapFlush {
  import opened InternalKeys
  import opened Versions
  import opened CompactionSetup
  import opened CompactionWork
  import opened CompactionFiles
  import opened VersionEdits
  import opened ManifestReplay
  import opened LsmState
  import opened LsmVersions
  import opened LsmOrder
  import opened LsmSteps
  import opened LsmCompaction
  import opened Database

  /** The output level once the compaction has been installed as well. */
  function OutputLevel(db: Db, level: nat, f: File, outputs: seq<File>, next: nat): seq<File>
    requires db.running.Some? && level < NUM_LEVELS
  {
    Install(Flush(db, level, f), outputs, next).current.files[level]
  }

  /** Whatever outputs the compaction makes, the level stays disjoint. */
  ghost predicate StaysDisjoint(db: Db, level: nat, f: File)
    requires db.running.Some? && level < NUM_LEVELS
  {
    forall outputs, next :: CanInstall(Flush(db, level, f), outputs, next)
        ==> LevelSorted(OutputLevel(db, level, f, outputs, next))
  }

  ghost predicate Situation(db: Db, f: File) {
    Shape(db) && db.running.Some? && db.running.value.c.level + 1 < NUM_LEVELS
        && CanFlush(db, db.running.value.c.level + 1, f)
  }

  lemma InputOnOneSide(db: Db, f: File, e: Entry)
    requires Situation(db, f) && InInputs(db.running.value.c, e)
    ensures e.key.user < Smallest(f).user || Largest(f).user < e.key.user
  {
    hide VersionOk, Ordered, AllFromHistory, SnapshotsOk, RunningOk, MaySkipTo, InInputs;
    InputsOfRunning2(db);
    FlushedIsBystander(db.current, f, db.running.value.c);
  }

  lemma InputsOfRunning2(db: Db)
    requires Shape(db) && db.running.Some?
    ensures InputsPresent(db.current, db.running.value.c) && VersionOk(db.current, db.nextFileNumber)
  {
    InputsOfRunning(db);
  }

  /** The version after the flush, and its output level after the compaction. */
  lemma FilesAfterBoth(db: Db, f: File, outputs: seq<File>, next: nat)
    requires Situation(db, f)
    ensures var level := db.running.value.c.level + 1;
      && VersionOk(Flush(db, level, f).current, f.number + 1)
          && InputsPresent(Flush(db, level, f).current, db.running.value.c)
      && (CanInstall(Flush(db, level, f), outputs, next) ==>
            && FilesSorted(OutputLevel(db, level, f, outputs, next))
            && forall g :: g in OutputLevel(db, level, f, outputs, next) <==>
                 (g in db.current.files[level] && Stays(db.running.value.c, level, g)) || g == f || g in outputs)
  {
    hide VersionOk, Ordered, AllFromHistory, SnapshotsOk, RunningOk, ApplyEdit, LevelSorted, OutputsOf, FilesSorted,
        Stays, FreshOutputs;
    var c := db.running.value.c;
    var level := c.level + 1;
    InputsOfRunning2(db);
    SkipLevel(db.current, level, f);
    FlushKeepsVersionOk(db.current, level, f, db.nextFileNumber);
    FlushedFiles(db.current, level, f, db.nextFileNumber);
    FlushedIsNoInput(db, f);
    if CanInstall(Flush(db, level, f), outputs, next) {
      ReplacedFiles(Flush(db, level, f).current, c, outputs, f.number + 1, next);
    }
  }

  lemma FlushedIsNoInput(db: Db, f: File)
    requires Situation(db, f)
    ensures f !in db.current.files[db.running.value.c.level + 1]
        && Stays(db.running.value.c, db.running.value.c.level + 1, f)
  {
    hide Ordered, AllFromHistory, SnapshotsOk, WellShaped, FilesSorted;
    InputsOfRunning2(db);
  }

  // ---- no survivors on both sides ----

  lemma OutputOnOneSide(db: Db, f: File, outputs: seq<File>, o: File)
    requires Situation(db, f) && OutputsOf(db.running.value, outputs) && o in outputs && !Straddled(db.running.value, f)
    ensures Separated(f, o) && Separated(o, f)
  {
    hide Shape, CanFlush, InInputs, Superseded, ObsoleteTombstone;
    var r := db.running.value;
    var first, last := o.entries[0], o.entries[|o.entries| - 1];
    assert InFiles(outputs, first) && InFiles(outputs, last);
    assert Survivor(r, first) && Survivor(r, last);
    InputOnOneSide(db, f, first);
    InputOnOneSide(db, f, last);
    EntriesInRange(f, f.entries[0]);
    EntriesInRange(o, first);
  }

  lemma PairsAfterBoth(db: Db, f: File, outputs: seq<File>, g: File, h: File)
    requires Situation(db, f) && OutputsOf(db.running.value, outputs) && LevelSorted(outputs)
        && !Straddled(db.running.value, f)
    requires var c := db.running.value.c;
      && ((g in db.current.files[c.level + 1] && Stays(c, c.level + 1, g)) || g == f || g in outputs)
      && ((h in db.current.files[c.level + 1] && Stays(c, c.level + 1, h)) || h == f || h in outputs)
    requires g != h
    ensures Separated(g, h)
  {
    hide Ordered, AllFromHistory, SnapshotsOk, VersionOk, FilesSorted, LevelSorted, Separated, Straddled, OutputsOf,
        LeavesNothingOlder,
         RunningOk, Replaceable, MaySkipTo;
    var c := db.running.value.c;
    var level := c.level + 1;
    assert LevelSorted(db.current.files[level]) && Replaceable(db.current, c) by { LevelOfShape(db); }
    SkipLevel(db.current, level, f);
    OutputsAreInputs(db.running.value, outputs);
    NoOutputAroundHere(db, outputs);
    if g == f || h == f {
      var o := if g == f then h else g;
      if o in outputs {
        OutputOnOneSide(db, f, outputs, o);
      } else {
        ClearIsSeparated(f, o);
      }
    } else {
      ReplacedSeparated(db.current, c, outputs, level, g, h);
    }
  }

  lemma NoOutputAroundHere(db: Db, outputs: seq<File>)
    requires Shape(db) && db.running.Some? && OutputsOf(db.running.value, outputs)
    ensures NoneAround(db.current, db.running.value.c, outputs)
  {
    NoOutputAround(db, outputs);
  }

  lemma LevelOfShape(db: Db)
    requires Shape(db) && db.running.Some?
    ensures var c := db.running.value.c;
        Replaceable(db.current, c) && c.level + 1 < NUM_LEVELS && LevelSorted(db.current.files[c.level + 1])
  {
    hide LevelSorted;
  }

  // ---- survivors on both sides ----

  ghost function Survivors(r: Running, es: seq<Entry>): (kept: seq<Entry>)
    ensures forall e :: e in kept <==> e in es && Survivor(r, e)
  {
    if es == [] then []
    else
      var rest := Survivors(r, es[1..]);
      assert forall e :: e in es <==> e == es[0] || e in es[1..];
      if Survivor(r, es[0]) then [es[0]] + rest else rest
  }

  lemma {:induction false} SurvivorsSorted(r: Running, es: seq<Entry>)
    requires OneVersionEach(es)
    ensures Sorted(Survivors(r, es))
  {
    hide Survivor;
    if es != [] {
      SurvivorsSorted(r, es[1..]);
      var rest := Survivors(r, es[1..]);
      forall j | 0 <= j < |rest| ensures Less(es[0].key, rest[j].key) {
        assert rest[j] in rest;
        var k :| 0 <= k < |es[1..]| && es[1..][k] == rest[j];
        assert es[k + 1] == rest[j];
      }
    }
  }

  /** All survivors as the entries of one file. */
  lemma FileOfAll(db: Db, number: nat, some: Entry) returns (o: File)
    requires Shape(db) && db.running.Some? && Survivor(db.running.value, some)
    ensures o.number == number && forall e :: e in o.entries <==> Survivor(db.running.value, e)
  {
    hide Shape, MergeAll, Superseded, ObsoleteTombstone, OneVersionEach, InInputs;
    var r := db.running.value;
    var input := MergeAll(r.c.inputs0 + r.c.inputs1);
    MergedInputs(db);
    SurvivorsSorted(r, input);
    var kept := Survivors(r, input);
    assert some in kept;
    o := FileMeta(number, 0, kept);
  }

  lemma FileOfAllIsOutput(r: Running, o: File)
    requires forall e :: e in o.entries <==> Survivor(r, e)
    ensures OutputsOf(r, [o])
  {
    hide InInputs, Superseded, ObsoleteTombstone;
    EntriesOfOne(o);
  }

  /** The compaction may put all survivors into one file. */
  lemma OneFileOfAll(db: Db, f: File) returns (o: File, next: nat)
    requires Situation(db, f) && Straddled(db.running.value, f)
    ensures CanInstall(Flush(db, db.running.value.c.level + 1, f), [o], next)
    ensures forall e :: e in o.entries <==> Survivor(db.running.value, e)
  {
    hide Shape, ApplyEdit, LevelSorted, MaySkipTo, VersionOk, FreshOutputs, OutputsOf, InputsPresent, Survivor;
    var r := db.running.value;
    var n := Flush(db, r.c.level + 1, f);
    var some := SomeSurvivor(r, f);
    o := FileOfAll(db, f.number + 1, some);
    next := f.number + 2;
    LoneFileIsLevel(o);
    FileOfAllIsOutput(r, o);
    assert VersionOk(n.current, o.number) by { FilesAfterBoth(db, f, [o], next); }
    LoneFileIsFresh(n.current, r.c, o, next);
  }

  lemma SomeSurvivor(r: Running, f: File) returns (e: Entry)
    requires Straddled(r, f)
    ensures Survivor(r, e)
  {
    hide Survivor;
    var h;
    e, h :| Survivor(r, e) && Survivor(r, h) && e.key.user < Smallest(f).user && Largest(f).user < h.key.user;
  }

  lemma EntriesOfOne(o: File)
    ensures forall x :: InFiles([o], x) <==> x in o.entries
  {
    assert [o][0] in [o];
  }

  lemma LoneFileIsLevel(o: File)
    ensures LevelSorted([o]) && DistinctNumbers([o])
  {
  }

  lemma LoneFileIsFresh(v: Version, c: Compaction, o: File, next: nat)
    requires VersionOk(v, o.number) && o.number < next
    ensures FreshOutputs(v, c, [o], next)
  {
    hide WellShaped, FilesSorted;
  }

  /** Flushing into the output level of the compaction in progress leaves that
      level disjoint, whatever outputs the compaction makes, if and only if no
      two entries that the compaction keeps lie on different sides of the
      flushed file. */
  lemma GapFlushIsSafeExactly(db: Db, f: File)
    requires Shape(db) && db.running.Some? && db.running.value.c.level + 1 < NUM_LEVELS
    requires CanFlush(db, db.running.value.c.level + 1, f)
    ensures StaysDisjoint(db, db.running.value.c.level + 1, f) <==> FlushApart(db, db.running.value.c.level + 1, f)
  {
    hide Shape, CanFlush, Straddled, LevelSorted, FilesSorted, Separated, Flush, Install, OutputLevel, FreshOutputs;
    var r := db.running.value;
    var level := r.c.level + 1;
    if !Straddled(r, f) {
      forall outputs, next | CanInstall(Flush(db, level, f), outputs, next)
        ensures LevelSorted(OutputLevel(db, level, f, outputs, next)) {
        InstallsSameCompaction(db, level, f, outputs, next);
        FilesAfterBoth(db, f, outputs, next);
        var files := OutputLevel(db, level, f, outputs, next);
        forall g, h | g in files && h in files && g != h ensures Separated(g, h) {
          PairsAfterBoth(db, f, outputs, g, h);
        }
        PairwiseLevel(files);
      }
    } else {
      var o, next := OneFileOfAll(db, f);
      FilesAfterBoth(db, f, [o], next);
      var files := OutputLevel(db, level, f, [o], next);
      StraddlingFile(r, f, o);
      if LevelSorted(files) {
        LevelIsSeparated(files, f, o);
      }
    }
  }

  lemma InstallsSameCompaction(db: Db, level: nat, f: File, outputs: seq<File>, next: nat)
    requires db.running.Some? && CanInstall(Flush(db, level, f), outputs, next)
    ensures OutputsOf(db.running.value, outputs) && LevelSorted(outputs)
  {
    hide OutputsOf, LevelSorted, FreshOutputs, ApplyEdit;
  }

  lemma StraddlingFile(r: Running, f: File, o: File)
    requires Straddled(r, f) && forall e :: e in o.entries <==> Survivor(r, e)
    ensures !Separated(f, o) && f != o
  {
    hide Survivor;
    var e, h :| Survivor(r, e) && Survivor(r, h) && e.key.user < Smallest(f).user && Largest(f).user < h.key.user;
    EntriesInRange(o, e);
    EntriesInRange(o, h);
    EntriesInRange(f, f.entries[0]);
  }
}
