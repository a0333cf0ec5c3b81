/** Manifest files: what VersionSet::Recover makes of one, and what appending
    a record to it does. */
module Manifests {
  import opened Versions
  import opened VersionEdits
  import opened ManifestReplay
  import opened LsmState

  /** One record: changes to the files, and counters that a later record
      replaces. */
  datatype Record = Record(edit: VersionEdit, logNumber: Option<nat>, nextFile: Option<nat>, lastSequence: Option<nat>)

  function LevelEdits(records: seq<Record>, l: nat): (r: seq<LevelEdit>)
    ensures |r| == |records|
  {
    if records == [] then []
    else LevelEdits(records[..|records| - 1], l) + [LevelPart(records[|records| - 1].edit, l)]
  }

  /** Recover: all records through one builder per level, then SaveTo. */
  function Recovered(records: seq<Record>): Version {
    VersionRep(seq(NUM_LEVELS, l requires 0 <= l < NUM_LEVELS => SaveLevel([],
        ApplyAll(NOTHING, LevelEdits(records, l)))))
  }

  function Latest(before: Option<nat>, now: Option<nat>): Option<nat> {
    if now.Some? then now else before
  }

  function LogNumber(records: seq<Record>): Option<nat> {
    if records == [] then None else Latest(LogNumber(records[..|records| - 1]), records[|records| - 1].logNumber)
  }

  function NextFile(records: seq<Record>): Option<nat> {
    if records == [] then None else Latest(NextFile(records[..|records| - 1]), records[|records| - 1].nextFile)
  }

  function LastSequence(records: seq<Record>): Option<nat> {
    if records == [] then None else Latest(LastSequence(records[..|records| - 1]), records[|records| - 1].lastSequence)
  }

  lemma CountersOfAppend(records: seq<Record>, r: Record)
    ensures LogNumber(records + [r]) == Latest(LogNumber(records), r.logNumber)
    ensures NextFile(records + [r]) == Latest(NextFile(records), r.nextFile)
    ensures LastSequence(records + [r]) == Latest(LastSequence(records), r.lastSequence)
  {
    assert (records + [r])[..|records|] == records;
  }

  /** Files that some record has put into level l. */
  function EverIn(records: seq<Record>, l: nat): seq<File> {
    AllAdded(LevelEdits(records, l))
  }

  /** Nothing enters a level twice. */
  ghost predicate EntersOnce(records: seq<Record>) {
    forall l :: 0 <= l < NUM_LEVELS ==> DistinctNumbers(EverIn(records, l))
  }

  lemma AppendedEdits(records: seq<Record>, r: Record, l: nat)
    ensures LevelEdits(records + [r], l) == LevelEdits(records, l) + [LevelPart(r.edit, l)]
    ensures EverIn(records + [r], l) == EverIn(records, l) + AddedAt(r.edit.added, l)
  {
    assert (records + [r])[..|records|] == records;
    var edits := LevelEdits(records, l);
    assert (edits + [LevelPart(r.edit, l)])[..|edits|] == edits;
  }

  /** The files a record adds are new to their levels. */
  ghost predicate AddsNew(records: seq<Record>, edit: VersionEdit) {
    forall l :: 0 <= l < NUM_LEVELS ==>
      DistinctNumbers(AddedAt(edit.added, l)) && DifferentNumbers(EverIn(records, l), AddedAt(edit.added, l))
  }

  lemma DistinctJoin(a: seq<File>, b: seq<File>)
    requires DistinctNumbers(a) && DistinctNumbers(b) && DifferentNumbers(a, b)
    ensures DistinctNumbers(a + b)
  {
    forall i, j | 0 <= i < j < |a + b| ensures (a + b)[i].number != (a + b)[j].number {
      if i < |a| { assert a[i] in a; }
      if j >= |a| { assert b[j - |a|] in b; }
    }
  }

  lemma InstallLast(edits: seq<LevelEdit>, last: LevelEdit)
    ensures InstallEach([], edits + [last]) == InstallOne(InstallEach([], edits), last)
  {
    assert (edits + [last])[..|edits|] == edits;
  }

  lemma LevelRecovered(records: seq<Record>, l: nat)
    requires EntersOnce(records) && l < NUM_LEVELS
    ensures Recovered(records).files[l] == InstallEach([], LevelEdits(records, l))
    ensures FilesSorted(Recovered(records).files[l])
  {
    EmptySorted();
    assert [] + EverIn(records, l) == EverIn(records, l);
    ReplayEqualsInstalls([], LevelEdits(records, l));
  }

  /** Recovering a longer manifest is applying its last record to the version
      recovered from the shorter one. */
  lemma RecoverAppended(records: seq<Record>, r: Record)
    requires EntersOnce(records) && AddsNew(records, r.edit)
    ensures EntersOnce(records + [r])
    ensures Recovered(records + [r]) == ApplyEdit(Recovered(records), r.edit)
  {
    hide DistinctNumbers, DifferentNumbers, InstallOne, InstallEach, LevelEdits, AllAdded, LevelPart, AddedAt,
        SaveLevel;
    var all := records + [r];
    forall l | 0 <= l < NUM_LEVELS ensures DistinctNumbers(EverIn(all, l)) {
      AppendedEdits(records, r, l);
      DistinctJoin(EverIn(records, l), AddedAt(r.edit.added, l));
    }
    forall l | 0 <= l < NUM_LEVELS ensures Recovered(all).files[l] == ApplyEdit(Recovered(records), r.edit).files[l] {
      AppendedEdits(records, r, l);
      LevelRecovered(records, l);
      LevelRecovered(all, l);
      InstallLast(LevelEdits(records, l), LevelPart(r.edit, l));
    }
  }

  // ---- a manifest that starts with a snapshot ----

  function LevelFiles(files: seq<File>, l: nat): seq<(nat, File)> {
    if files == [] then [] else [(l, files[0])] + LevelFiles(files[1..], l)
  }

  /** WriteSnapshot: every file of the version, level by level. */
  function AllFiles(v: Version, l: nat): seq<(nat, File)>
    requires l <= NUM_LEVELS
    decreases NUM_LEVELS - l
  {
    if l == NUM_LEVELS then [] else LevelFiles(v.files[l], l) + AllFiles(v, l + 1)
  }

  function SnapshotRecord(v: Version): Record {
    Record(VersionEdit({}, AllFiles(v, 0)), None, None, None)
  }

  lemma {:induction false} AddedAtJoin(a: seq<(nat, File)>, b: seq<(nat, File)>, l: nat)
    ensures AddedAt(a + b, l) == AddedAt(a, l) + AddedAt(b, l)
  {
    if a == [] {
      assert a + b == b;
    } else {
      assert (a + b)[1..] == a[1..] + b && (a + b)[0] == a[0];
      AddedAtJoin(a[1..], b, l);
    }
  }

  lemma {:induction false} AddedAtLevel(files: seq<File>, m: nat, l: nat)
    ensures AddedAt(LevelFiles(files, m), l) == if l == m then files else []
  {
    if files != [] {
      AddedAtLevel(files[1..], m, l);
      assert LevelFiles(files, m)[1..] == LevelFiles(files[1..], m);
    }
  }

  lemma {:induction false} AddedOfAll(v: Version, m: nat, l: nat)
    requires m <= NUM_LEVELS && l < NUM_LEVELS
    ensures AddedAt(AllFiles(v, m), l) == if l >= m then v.files[l] else []
    decreases NUM_LEVELS - m
  {
    if m < NUM_LEVELS {
      AddedOfAll(v, m + 1, l);
      AddedAtJoin(LevelFiles(v.files[m], m), AllFiles(v, m + 1), l);
      AddedAtLevel(v.files[m], m, l);
    }
  }

  lemma DistinctOfNumbers(v: Version, next: nat, l: nat)
    requires VersionOk(v, next) && l < NUM_LEVELS
    ensures DistinctNumbers(v.files[l])
  {
    var files := v.files[l];
    forall i, j | 0 <= i < j < |files| ensures files[i].number != files[j].number {
      assert FileBefore(files[i], files[j]);
      assert files[i] in files && files[j] in files;
    }
  }

  /** Recovering a snapshot gives the version back. */
  lemma RecoverSnapshot(v: Version, next: nat)
    requires VersionOk(v, next)
    ensures EntersOnce([SnapshotRecord(v)]) && Recovered([SnapshotRecord(v)]) == v
    ensures forall l :: 0 <= l < NUM_LEVELS ==> EverIn([SnapshotRecord(v)], l) == v.files[l]
  {
    hide DistinctNumbers, SaveLevel, InstallOne, LevelEdits, AllAdded, WellShaped, NumbersOk, AddedAt, AllFiles;
    var r := SnapshotRecord(v);
    forall l | 0 <= l < NUM_LEVELS
      ensures EverIn([r], l) == v.files[l] && DistinctNumbers(v.files[l])
      ensures LevelEdits([r], l) == [LevelEdit({}, v.files[l])]
    {
      assert [] + [r] == [r];
      AppendedEdits([], r, l);
      NoEdits(l);
      AddedOfAll(v, 0, l);
      DistinctOfNumbers(v, next, l);
      assert LevelPart(r.edit, l).deleted == {};
      assert [] + v.files[l] == v.files[l];
    }
    forall l | 0 <= l < NUM_LEVELS ensures Recovered([r]).files[l] == v.files[l] {
      LevelRecovered([r], l);
      assert [] + [LevelEdit({}, v.files[l])] == [LevelEdit({}, v.files[l])];
      InstallLast([], LevelEdit({}, v.files[l]));
      NothingInstalled();
      SnapshotRestores(v.files[l]);
    }
    assert Recovered([r]).files == v.files;
  }

  lemma NoEdits(l: nat)
    ensures LevelEdits([], l) == [] && EverIn([], l) == []
  {
  }

  lemma NothingInstalled()
    ensures InstallEach([], []) == []
  {
  }

  /** An edit without changes leaves a version alone. */
  lemma EmptyEdit(v: Version, next: nat)
    requires VersionOk(v, next)
    ensures ApplyEdit(v, VersionEdit({}, [])) == v
  {
    hide WellShaped, NumbersOk, SaveLevel;
    var none := VersionEdit({}, []);
    forall l | 0 <= l < NUM_LEVELS ensures InstallOne(v.files[l], LevelPart(none, l)) == v.files[l] {
      assert LevelPart(none, l) == LevelEdit({}, []);
      EditedLevel(v.files[l], LevelEdit({}, []));
      SameFilesSameOrder(InstallOne(v.files[l], LevelEdit({}, [])), v.files[l]);
    }
    assert ApplyEdit(v, none).files == v.files;
  }
}
