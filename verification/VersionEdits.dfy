/** VersionSet::Builder: turning a version and a list of edits into the sorted
    file lists of a new version, and replaying a manifest. */
module VersionEdits {
  import opened InternalKeys
  import opened Versions

  /** BySmallestKey: smallest key first, ties by file number. */
  predicate FileBefore(f: File, g: File) {
    || Less(Smallest(f), Smallest(g))
    || (Smallest(f) == Smallest(g) && f.number < g.number)
  }

  ghost predicate FilesSorted(files: seq<File>) {
    forall i, j :: 0 <= i < j < |files| ==> FileBefore(files[i], files[j])
  }

  /** Edits to one level: numbers of deleted files, and new files. */
  datatype LevelEdit = LevelEdit(deleted: set<nat>, added: seq<File>)

  /** What a builder has accumulated for one level; `added` is an ordered set. */
  datatype LevelState = LevelState(deleted: set<nat>, added: seq<File>)

  const NOTHING := LevelState({}, [])

  function InsertFile(files: seq<File>, f: File): (r: seq<File>)
    ensures forall g :: g in files ==> g in r
    ensures forall g :: g in r ==> g in files || g == f
    ensures f in r || exists g :: g in files && Smallest(g) == Smallest(f) && g.number == f.number
  {
    if files == [] || FileBefore(f, files[0]) then [f] + files
    else if FileBefore(files[0], f) then
      var rest := InsertFile(files[1..], f);
      assert forall g :: g in files <==> g == files[0] || g in files[1..];
      [files[0]] + rest
    else
      assert files[0] in files;
      files
  }

  lemma InsertFileSorted(files: seq<File>, f: File)
    requires FilesSorted(files)
    ensures FilesSorted(InsertFile(files, f))
  {
    if files == [] || FileBefore(f, files[0]) {
    } else if FileBefore(files[0], f) {
      InsertFileSorted(files[1..], f);
      var rest := InsertFile(files[1..], f);
      forall j | 0 <= j < |rest| ensures FileBefore(files[0], rest[j]) {
        assert rest[j] in rest;
        if rest[j] != f {
          var k :| 0 <= k < |files[1..]| && files[1..][k] == rest[j];
        }
      }
    }
  }

  function AddFiles(s: LevelState, added: seq<File>): LevelState
    decreases |added|
  {
    if added == [] then s
    else AddFiles(LevelState(s.deleted - {added[0].number}, InsertFile(s.added, added[0])), added[1..])
  }

  /** Builder::Apply, one level: deletions are noted first, then every new file
      cancels a deletion of its number. */
  function Apply(s: LevelState, edit: LevelEdit): LevelState {
    AddFiles(LevelState(s.deleted + edit.deleted, s.added), edit.added)
  }

  function MergeFiles(base: seq<File>, added: seq<File>): (r: seq<File>)
    ensures forall f :: f in r <==> f in base || f in added
  {
    if base == [] then added
    else if added == [] then base
    else if FileBefore(added[0], base[0]) then
      var rest := MergeFiles(base, added[1..]);
      assert forall f :: f in added <==> f == added[0] || f in added[1..];
      [added[0]] + rest
    else
      var rest := MergeFiles(base[1..], added);
      assert forall f :: f in base <==> f == base[0] || f in base[1..];
      [base[0]] + rest
  }

  function DropDeleted(files: seq<File>, deleted: set<nat>): (r: seq<File>)
    ensures forall f :: f in r <==> f in files && f.number !in deleted
  {
    if files == [] then []
    else if files[0].number in deleted then DropDeleted(files[1..], deleted)
    else [files[0]] + DropDeleted(files[1..], deleted)
  }

  /** The files of the new version's level. */
  function SaveLevel(base: seq<File>, s: LevelState): seq<File> {
    DropDeleted(MergeFiles(base, s.added), s.deleted)
  }

  lemma MergeTakesBase(base: seq<File>, added: seq<File>, deleted: set<nat>)
    requires base != [] && (added == [] || !FileBefore(added[0], base[0]))
    ensures DropDeleted(MergeFiles(base, added), deleted) ==
            (if base[0].number in deleted then [] else [base[0]]) + DropDeleted(MergeFiles(base[1..], added), deleted)
  {
    assert MergeFiles(base, added) == [base[0]] + MergeFiles(base[1..], added);
  }

  lemma MergeTakesAdded(base: seq<File>, added: seq<File>, deleted: set<nat>)
    requires added != [] && (base == [] || FileBefore(added[0], base[0]))
    ensures DropDeleted(MergeFiles(base, added), deleted) ==
            (if added[0].number in deleted then [] else [added[0]]) + DropDeleted(MergeFiles(base, added[1..]), deleted)
  {
    assert MergeFiles(base, added) == [added[0]] + MergeFiles(base, added[1..]);
  }

  /** What is still to come when b base files and a added files are done. */
  function Remaining(base: seq<File>, s: LevelState, b: nat, a: nat): seq<File>
    requires b <= |base| && a <= |s.added|
  {
    DropDeleted(MergeFiles(base[b..], s.added[a..]), s.deleted)
  }

  function Kept(f: File, deleted: set<nat>): seq<File> {
    if f.number in deleted then [] else [f]
  }

  lemma RemainingSteps(base: seq<File>, s: LevelState, b: nat, a: nat, files: seq<File>)
    requires b <= |base| && a <= |s.added|
    ensures b < |base| && (a == |s.added| || !FileBefore(s.added[a], base[b])) ==>
      files + Remaining(base, s, b, a) == (files + Kept(base[b], s.deleted)) + Remaining(base, s, b + 1, a)
    ensures a < |s.added| && (b == |base| || FileBefore(s.added[a], base[b])) ==>
      files + Remaining(base, s, b, a) == (files + Kept(s.added[a], s.deleted)) + Remaining(base, s, b, a + 1)
    ensures b == |base| && a == |s.added| ==> Remaining(base, s, b, a) == []
    ensures Remaining(base, s, 0, 0) == SaveLevel(base, s)
  {
    hide FileBefore, MergeFiles, DropDeleted;
    assert base[0..] == base && s.added[0..] == s.added;
    if b < |base| && (a == |s.added| || !FileBefore(s.added[a], base[b])) {
      assert base[b..][1..] == base[b + 1..];
      MergeTakesBase(base[b..], s.added[a..], s.deleted);
      Reassociate(files, Kept(base[b], s.deleted), Remaining(base, s, b + 1, a));
    } else if a < |s.added| {
      assert s.added[a..][1..] == s.added[a + 1..];
      MergeTakesAdded(base[b..], s.added[a..], s.deleted);
      Reassociate(files, Kept(s.added[a], s.deleted), Remaining(base, s, b, a + 1));
    } else {
      assert base[b..] == [] && s.added[a..] == [];
      NothingToMerge(s.deleted);
    }
  }

  lemma Reassociate<T>(a: seq<T>, b: seq<T>, c: seq<T>)
    ensures a + (b + c) == (a + b) + c
  {
  }

  lemma NothingToMerge(deleted: set<nat>)
    ensures DropDeleted(MergeFiles([], []), deleted) == []
  {
  }

  /** Builder::SaveTo for one level: before each added file come the base files
      that do not sort after it; MaybeAddFile skips deleted ones. */
  method SaveTo(base: seq<File>, s: LevelState) returns (files: seq<File>)
    ensures files == SaveLevel(base, s)
  {
    hide Remaining, SaveLevel, FileBefore, Kept;
    RemainingSteps(base, s, 0, 0, []);
    files := [];
    var b, a := 0, 0;
    while a < |s.added|
      invariant 0 <= a <= |s.added| && 0 <= b <= |base|
      invariant SaveLevel(base, s) == files + Remaining(base, s, b, a)
    {
      var f := s.added[a];
      while b < |base| && !FileBefore(f, base[b])
        invariant b <= |base|
        invariant SaveLevel(base, s) == files + Remaining(base, s, b, a)
      {
        RemainingSteps(base, s, b, a, files);
        files := MaybeAddFile(files, base[b], s.deleted);
        b := b + 1;
      }
      RemainingSteps(base, s, b, a, files);
      files := MaybeAddFile(files, f, s.deleted);
      a := a + 1;
    }
    while b < |base|
      invariant b <= |base|
      invariant SaveLevel(base, s) == files + Remaining(base, s, b, a)
    {
      RemainingSteps(base, s, b, a, files);
      files := MaybeAddFile(files, base[b], s.deleted);
      b := b + 1;
    }
    RemainingSteps(base, s, b, a, files);
  }

  method MaybeAddFile(files: seq<File>, f: File, deleted: set<nat>) returns (r: seq<File>)
    ensures r == files + Kept(f, deleted)
  {
    if f.number in deleted {
      r := files;
    } else {
      r := files + [f];
    }
  }

  // ---- order and contents of the saved level ----

  ghost predicate DifferentNumbers(a: seq<File>, b: seq<File>) {
    forall f, g :: f in a && g in b ==> f.number != g.number
  }

  lemma TailSorted(files: seq<File>)
    requires FilesSorted(files) && files != []
    ensures FilesSorted(files[1..]) && forall g :: g in files[1..] ==> FileBefore(files[0], g)
  {
  }

  lemma {:induction false} MergeSorted(base: seq<File>, added: seq<File>)
    requires FilesSorted(base) && FilesSorted(added) && DifferentNumbers(base, added)
    ensures FilesSorted(MergeFiles(base, added))
    decreases |base| + |added|
  {
    hide FilesSorted, FileBefore;
    if base == [] || added == [] {
    } else if FileBefore(added[0], base[0]) {
      TailSorted(added);
      MergeSorted(base, added[1..]);
      TailSorted(base);
      BeforeAll(added[0], base);
      PrependSorted(added[0], MergeFiles(base, added[1..]), base, added[1..]);
    } else {
      assert base[0] in base && added[0] in added;
      TailSorted(base);
      MergeSorted(base[1..], added);
      TailSorted(added);
      NotBeforeIsAfter(base[0], added[0]);
      BeforeAll(base[0], added);
      PrependSorted(base[0], MergeFiles(base[1..], added), base[1..], added);
    }
  }

  lemma NotBeforeIsAfter(f: File, g: File)
    requires !FileBefore(g, f) && f.number != g.number
    ensures FileBefore(f, g)
  {
  }

  lemma BeforeAll(f: File, files: seq<File>)
    requires FilesSorted(files) && files != [] && FileBefore(f, files[0])
    ensures forall g :: g in files ==> FileBefore(f, g)
  {
  }

  lemma PrependSorted(f: File, rest: seq<File>, a: seq<File>, b: seq<File>)
    requires FilesSorted(rest) && (forall g :: g in rest <==> g in a || g in b)
    requires forall g :: g in a || g in b ==> FileBefore(f, g)
    ensures FilesSorted([f] + rest)
  {
    forall j | 0 <= j < |rest| ensures FileBefore(f, rest[j]) {
      assert rest[j] in rest;
    }
  }

  lemma DropDeletedSorted(files: seq<File>, deleted: set<nat>)
    requires FilesSorted(files)
    ensures FilesSorted(DropDeleted(files, deleted))
  {
    if files != [] {
      DropDeletedSorted(files[1..], deleted);
      var rest := DropDeleted(files[1..], deleted);
      forall j | 0 <= j < |rest| ensures FileBefore(files[0], rest[j]) {
        assert rest[j] in rest;
        var k :| 0 <= k < |files[1..]| && files[1..][k] == rest[j];
      }
    }
  }

  predicate Separated(f: File, g: File) {
    Less(Largest(f), Smallest(g)) || Less(Largest(g), Smallest(f))
  }

  /** Files in order of their smallest keys whose ranges are pairwise disjoint
      form a proper level. */
  lemma SeparatedIsLevel(files: seq<File>)
    requires FilesSorted(files)
    requires forall i, j :: 0 <= i < j < |files| ==> Separated(files[i], files[j])
    ensures LevelSorted(files)
  {
    forall i, j | 0 <= i < j < |files| ensures Less(Largest(files[i]), Smallest(files[j])) {
      assert FileBefore(files[i], files[j]) && Separated(files[i], files[j]);
      EntriesInRange(files[i], files[i].entries[0]);
      EntriesInRange(files[j], files[j].entries[0]);
    }
  }

  lemma LevelIsFilesSorted(files: seq<File>)
    requires LevelSorted(files)
    ensures FilesSorted(files)
  {
    forall i, j | 0 <= i < j < |files| ensures FileBefore(files[i], files[j]) {
      EntriesInRange(files[i], files[i].entries[0]);
    }
  }

  lemma SameFilesSameOrder(a: seq<File>, b: seq<File>)
    requires FilesSorted(a) && FilesSorted(b)
    requires forall f :: f in a <==> f in b
    ensures a == b
  {
    HasMember(a);
    HasMember(b);
    if a != [] {
      FirstIsLeast(a, b[0]);
      FirstIsLeast(b, a[0]);
      assert a[0] == b[0];
      forall f ensures f in a[1..] <==> f in b[1..] {
        TailMember(a, f);
        TailMember(b, f);
      }
      SameFilesSameOrder(a[1..], b[1..]);
    }
  }

  lemma HasMember(files: seq<File>)
    ensures files != [] ==> files[0] in files
    ensures files != [] ==> exists f :: f in files
  {
    if files != [] {
      assert files[0] in files;
    }
  }

  lemma FirstIsLeast(a: seq<File>, f: File)
    requires FilesSorted(a) && f in a
    ensures a != [] && (f == a[0] || FileBefore(a[0], f))
  {
  }

  lemma TailMember(a: seq<File>, f: File)
    requires FilesSorted(a) && a != []
    ensures f in a[1..] <==> f in a && f != a[0]
  {
    if f in a[1..] {
      var k :| 0 <= k < |a[1..]| && a[1..][k] == f;
      assert FileBefore(a[0], a[k + 1]);
    }
  }
}
