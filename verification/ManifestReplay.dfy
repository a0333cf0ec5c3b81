/** VersionSet::Recover against LogAndApply: one builder that swallows every
    edit of a manifest, against one version per edit. */
module ManifestReplay {
  import opened Versions
  import opened VersionEdits

  /** VersionSet::Recover applies every edit to the same builder. */
  function ApplyAll(s: LevelState, edits: seq<LevelEdit>): LevelState {
    if edits == [] then s
    else Apply(ApplyAll(s, edits[..|edits| - 1]), edits[|edits| - 1])
  }

  /** VersionSet::LogAndApply saves a version after every edit. */
  function InstallEach(base: seq<File>, edits: seq<LevelEdit>): seq<File> {
    if edits == [] then base
    else InstallOne(InstallEach(base, edits[..|edits| - 1]), edits[|edits| - 1])
  }

  function InstallOne(base: seq<File>, edit: LevelEdit): seq<File> {
    SaveLevel(base, Apply(NOTHING, edit))
  }

  ghost function Numbers(files: seq<File>): set<nat> {
    set f | f in files :: f.number
  }

  ghost predicate DistinctNumbers(files: seq<File>) {
    forall i, j :: 0 <= i < j < |files| ==> files[i].number != files[j].number
  }

  function AllAdded(edits: seq<LevelEdit>): seq<File> {
    if edits == [] then [] else AllAdded(edits[..|edits| - 1]) + edits[|edits| - 1].added
  }

  /** Every file enters the level at most once.  That is how the database uses
      its levels; ReplayExact says what replaying a manifest needs. */
  ghost predicate EnterOnce(base: seq<File>, edits: seq<LevelEdit>) {
    DistinctNumbers(base + AllAdded(edits))
  }

  lemma AddFilesContents(s: LevelState, added: seq<File>)
    requires FilesSorted(s.added) && DistinctNumbers(added) && DifferentNumbers(s.added, added)
    ensures var r := AddFiles(s, added);
      && FilesSorted(r.added)
      && (forall f :: f in r.added <==> f in s.added || f in added)
      && r.deleted == s.deleted - Numbers(added)
    decreases |added|
  {
    if added != [] {
      var f := added[0];
      var next := LevelState(s.deleted - {f.number}, InsertFile(s.added, f));
      HeadAndTail(added);
      InsertFileSorted(s.added, f);
      InsertedNew(s.added, f);
      hide FilesSorted, InsertFile, DistinctNumbers;
      AddFilesContents(next, added[1..]);
    }
  }

  lemma HeadAndTail(files: seq<File>)
    requires files != [] && DistinctNumbers(files)
    ensures DistinctNumbers(files[1..])
    ensures forall g :: g in files <==> g == files[0] || g in files[1..]
    ensures forall g :: g in files[1..] ==> g.number != files[0].number
    ensures Numbers(files) == {files[0].number} + Numbers(files[1..])
  {
    assert files[0] in files;
    assert forall g :: g in files <==> g == files[0] || g in files[1..];
  }

  lemma InsertedNew(files: seq<File>, f: File)
    requires forall g :: g in files ==> g.number != f.number
    ensures forall g :: g in InsertFile(files, f) <==> g in files || g == f
  {
  }

  lemma EmptySorted()
    ensures FilesSorted([])
  {
  }

  lemma DistinctSplit(a: seq<File>, b: seq<File>)
    ensures DistinctNumbers(a + b) ==> DistinctNumbers(a) && DistinctNumbers(b) && DifferentNumbers(a, b)
  {
    if DistinctNumbers(a + b) {
      forall f, g | f in a && g in b ensures f.number != g.number {
        var i :| 0 <= i < |a| && a[i] == f;
        var j :| 0 <= j < |b| && b[j] == g;
        assert (a + b)[i] == f && (a + b)[|a| + j] == g;
      }
      assert forall i :: 0 <= i < |a| ==> (a + b)[i] == a[i];
      assert forall i :: 0 <= i < |b| ==> (a + b)[|a| + i] == b[i];
    }
  }

  lemma SavedContents(base: seq<File>, s: LevelState)
    requires FilesSorted(base) && FilesSorted(s.added) && DifferentNumbers(base, s.added)
    ensures FilesSorted(SaveLevel(base, s))
    ensures forall f :: f in SaveLevel(base, s) <==> (f in base || f in s.added) && f.number !in s.deleted
  {
    MergeSorted(base, s.added);
    DropDeletedSorted(MergeFiles(base, s.added), s.deleted);
  }

  /** A new file cannot be confused with a file of the base or of the builder. */
  lemma StepAgrees(base: seq<File>, s: LevelState, edit: LevelEdit)
    requires FilesSorted(base) && FilesSorted(s.added) && DifferentNumbers(base, s.added)
    requires DistinctNumbers(edit.added) && DifferentNumbers(base, edit.added) && DifferentNumbers(s.added, edit.added)
    ensures SaveLevel(base, Apply(s, edit)) == InstallOne(SaveLevel(base, s), edit)
    ensures FilesSorted(InstallOne(SaveLevel(base, s), edit))
    ensures forall f :: f in Apply(s, edit).added <==> f in s.added || f in edit.added
    ensures FilesSorted(Apply(s, edit).added)
  {
    hide FilesSorted, SaveLevel;
    var current := SaveLevel(base, s);
    SavedContents(base, s);
    EmptySorted();
    AddFilesContents(LevelState(s.deleted + edit.deleted, s.added), edit.added);
    AddFilesContents(LevelState(NOTHING.deleted + edit.deleted, NOTHING.added), edit.added);
    var together, single := Apply(s, edit), Apply(NOTHING, edit);
    SavedContents(base, together);
    SavedContents(current, single);
    forall f ensures f in SaveLevel(base, together) <==> f in SaveLevel(current, single) {
      if f in edit.added {
        assert f.number in Numbers(edit.added);
      } else if f in base || f in s.added {
        assert f.number !in Numbers(edit.added);
      }
    }
    SameFilesSameOrder(SaveLevel(base, together), SaveLevel(current, single));
  }

  /** Replaying a manifest through one builder rebuilds the level that installing
      its edits one at a time produced. */
  lemma {:induction false} ReplayEqualsInstalls(base: seq<File>, edits: seq<LevelEdit>)
    requires FilesSorted(base) && EnterOnce(base, edits)
    ensures SaveLevel(base, ApplyAll(NOTHING, edits)) == InstallEach(base, edits)
    ensures FilesSorted(InstallEach(base, edits))
    ensures FilesSorted(ApplyAll(NOTHING, edits).added)
    ensures forall f :: f in ApplyAll(NOTHING, edits).added <==> f in AllAdded(edits)
  {
    DistinctSplit(base, AllAdded(edits));
    if edits == [] {
      SavedContents(base, NOTHING);
      SameFilesSameOrder(SaveLevel(base, NOTHING), base);
    } else {
      var front, last := edits[..|edits| - 1], edits[|edits| - 1];
      assert base + AllAdded(edits) == base + AllAdded(front) + last.added;
      DistinctSplit(base + AllAdded(front), last.added);
      DistinctSplit(base, AllAdded(front));
      ReplayEqualsInstalls(base, front);
      StepAgrees(base, ApplyAll(NOTHING, front), last);
    }
  }

  /** VersionSet::WriteSnapshot starts a manifest with one edit that adds every
      file: replayed from nothing it gives the level back. */
  lemma SnapshotThenEdits(level: seq<File>, edits: seq<LevelEdit>)
    requires FilesSorted(level) && EnterOnce(level, edits)
    ensures SaveLevel([], ApplyAll(NOTHING, [LevelEdit({}, level)] + edits)) == InstallEach(level, edits)
  {
    var snapshot := LevelEdit({}, level);
    var all := [snapshot] + edits;
    AllAddedPrepend(snapshot, edits);
    assert [] + AllAdded(all) == level + AllAdded(edits);
    EmptySorted();
    ReplayEqualsInstalls([], all);
    InstallPrepend([], snapshot, edits);
    DistinctSplit(level, AllAdded(edits));
    SnapshotRestores(level);
  }

  lemma SnapshotRestores(level: seq<File>)
    requires FilesSorted(level) && DistinctNumbers(level)
    ensures InstallOne([], LevelEdit({}, level)) == level
  {
    hide FilesSorted, DistinctNumbers, SaveLevel;
    var snapshot := LevelEdit({}, level);
    EmptySorted();
    AddFilesContents(LevelState(NOTHING.deleted + snapshot.deleted, []), level);
    SavedContents([], Apply(NOTHING, snapshot));
    SameFilesSameOrder(InstallOne([], snapshot), level);
  }

  lemma {:induction false} AllAddedPrepend(first: LevelEdit, edits: seq<LevelEdit>)
    ensures AllAdded([first] + edits) == first.added + AllAdded(edits)
  {
    var all := [first] + edits;
    if edits == [] {
      assert all[..|all| - 1] == [];
    } else {
      assert all[..|all| - 1] == [first] + edits[..|edits| - 1];
      AllAddedPrepend(first, edits[..|edits| - 1]);
    }
  }

  lemma {:induction false} InstallPrepend(base: seq<File>, first: LevelEdit, edits: seq<LevelEdit>)
    ensures InstallEach(base, [first] + edits) == InstallEach(InstallOne(base, first), edits)
  {
    hide InstallOne;
    var all := [first] + edits;
    if edits == [] {
      assert all[..|all| - 1] == [];
    } else {
      assert all[..|all| - 1] == [first] + edits[..|edits| - 1];
      InstallPrepend(base, first, edits[..|edits| - 1]);
    }
  }

  // ---- edits to a whole version ----

  /** Deleted files as (level, number) pairs; new files with their level. */
  datatype VersionEdit = VersionEdit(deleted: set<(nat, nat)>, added: seq<(nat, File)>)

  function AddedAt(added: seq<(nat, File)>, level: nat): seq<File> {
    if added == [] then []
    else (if added[0].0 == level then [added[0].1] else []) + AddedAt(added[1..], level)
  }

  function LevelPart(edit: VersionEdit, level: nat): LevelEdit {
    LevelEdit(set d | d in edit.deleted && d.0 == level :: d.1, AddedAt(edit.added, level))
  }

  /** VersionSet::LogAndApply, as far as the files of the new version go. */
  function ApplyEdit(v: Version, edit: VersionEdit): (r: Version) {
    VersionRep(seq(NUM_LEVELS, l requires 0 <= l < NUM_LEVELS => InstallOne(v.files[l], LevelPart(edit, l))))
  }

  /** The files of an edited level, and that they are in order. */
  lemma EditedLevel(files: seq<File>, edit: LevelEdit)
    requires FilesSorted(files) && DistinctNumbers(edit.added) && DifferentNumbers(files, edit.added)
    ensures FilesSorted(InstallOne(files, edit))
    ensures forall f :: f in InstallOne(files, edit) <==> (f in files && f.number !in edit.deleted) || f in edit.added
  {
    hide FilesSorted, DistinctNumbers, SaveLevel;
    EmptySorted();
    AddFilesContents(LevelState(NOTHING.deleted + edit.deleted, NOTHING.added), edit.added);
    SavedContents(files, Apply(NOTHING, edit));
    assert forall f :: f in edit.added ==> f.number in Numbers(edit.added);
    assert forall f :: f in files ==> f.number !in Numbers(edit.added);
  }

  method LogAndApply(v: Version, edit: VersionEdit) returns (r: Version)
    ensures r == ApplyEdit(v, edit)
  {
    var files: seq<seq<File>> := [];
    for level := 0 to NUM_LEVELS
      invariant |files| == level
      invariant forall l :: 0 <= l < level ==> files[l] == InstallOne(v.files[l], LevelPart(edit, l))
    {
      var saved := SaveTo(v.files[level], Apply(NOTHING, LevelPart(edit, level)));
      files := files + [saved];
    }
    r := VersionRep(files);
    assert r.files == ApplyEdit(v, edit).files;
  }
}
