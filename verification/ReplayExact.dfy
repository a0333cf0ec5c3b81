/** Exactly when replaying a manifest through one builder rebuilds what installing
    its edits one by one made.  Recover starts from the empty version. */
module ReplayExact {
  import opened Versions
  import opened VersionEdits
  import opened ManifestReplay

  /** A file number stands for one file. */
  ghost predicate NumbersIdentify(files: seq<File>) {
    forall f, g :: f in files && g in files && f.number == g.number ==> f == g
  }

  function Replayed(edits: seq<LevelEdit>): seq<File> {
    SaveLevel([], ApplyAll(NOTHING, edits))
  }

  /** No edit adds a file number that the level holds at that moment. */
  ghost predicate NeverAddsHeld(edits: seq<LevelEdit>) {
    forall k :: 0 <= k < |edits| ==> DifferentNumbers(InstallEach([], edits[..k]), edits[k].added)
  }

  /** After every edit the two agree. */
  ghost predicate ReplayFollows(edits: seq<LevelEdit>) {
    forall k :: 0 <= k <= |edits| ==> Replayed(edits[..k]) == InstallEach([], edits[..k])
  }

  // ---- what the builder accumulates ----

  lemma InsertedKnown(files: seq<File>, f: File)
    requires NumbersIdentify(files + [f])
    ensures forall g :: g in InsertFile(files, f) <==> g in files || g == f
  {
    assert f in files + [f];
    assert forall g :: g in files ==> g in files + [f];
  }

  lemma {:induction false} AddFilesKnown(s: LevelState, added: seq<File>)
    requires FilesSorted(s.added) && NumbersIdentify(s.added + added)
    ensures var r := AddFiles(s, added);
      && FilesSorted(r.added)
      && (forall f :: f in r.added <==> f in s.added || f in added)
      && r.deleted == s.deleted - Numbers(added)
    decreases |added|
  {
    if added != [] {
      var f := added[0];
      var next := LevelState(s.deleted - {f.number}, InsertFile(s.added, f));
      assert forall g :: g in added <==> g == f || g in added[1..];
      assert forall g :: g in s.added + [f] ==> g in s.added + added;
      InsertFileSorted(s.added, f);
      InsertedKnown(s.added, f);
      assert forall g :: g in next.added + added[1..] ==> g in s.added + added;
      hide FilesSorted, InsertFile;
      AddFilesKnown(next, added[1..]);
      assert Numbers(added) == {f.number} + Numbers(added[1..]);
    }
  }

  lemma AllAddedSnoc(edits: seq<LevelEdit>)
    requires edits != []
    ensures forall f :: f in AllAdded(edits) <==> f in AllAdded(edits[..|edits| - 1]) || f in edits[|edits| - 1].added
  {
  }

  lemma {:induction false} BuilderContents(edits: seq<LevelEdit>)
    requires NumbersIdentify(AllAdded(edits))
    ensures var s := ApplyAll(NOTHING, edits);
      FilesSorted(s.added) && forall f :: f in s.added <==> f in AllAdded(edits)
  {
    hide FilesSorted;
    EmptySorted();
    if edits != [] {
      var front, last := edits[..|edits| - 1], edits[|edits| - 1];
      AllAddedSnoc(edits);
      BuilderContents(front);
      var s := ApplyAll(NOTHING, front);
      assert forall f :: f in s.added + last.added ==> f in AllAdded(edits);
      AddFilesKnown(LevelState(s.deleted + last.deleted, s.added), last.added);
    }
  }

  lemma ReplayedContents(edits: seq<LevelEdit>)
    requires NumbersIdentify(AllAdded(edits))
    ensures FilesSorted(Replayed(edits))
    ensures forall f :: f in Replayed(edits) <==> f in AllAdded(edits) && f.number !in ApplyAll(NOTHING, edits).deleted
  {
    hide FilesSorted, SaveLevel;
    BuilderContents(edits);
    EmptySorted();
    SavedContents([], ApplyAll(NOTHING, edits));
  }

  /** One edit on its own. */
  lemma SingleContents(edit: LevelEdit)
    requires NumbersIdentify(edit.added)
    ensures var s := Apply(NOTHING, edit);
      && FilesSorted(s.added) && (forall f :: f in s.added <==> f in edit.added)
      && s.deleted == edit.deleted - Numbers(edit.added)
  {
    hide FilesSorted;
    EmptySorted();
    assert [] + edit.added == edit.added;
    AddFilesKnown(LevelState(NOTHING.deleted + edit.deleted, []), edit.added);
    assert NOTHING.deleted + edit.deleted == edit.deleted;
  }

  lemma PartsIdentify(edits: seq<LevelEdit>)
    requires edits != [] && NumbersIdentify(AllAdded(edits))
    ensures NumbersIdentify(AllAdded(edits[..|edits| - 1])) && NumbersIdentify(edits[|edits| - 1].added)
  {
    AllAddedSnoc(edits);
  }

  // ---- no held number is added: the two agree ----

  lemma DeletedAfter(front: seq<LevelEdit>, last: LevelEdit)
    requires NumbersIdentify(AllAdded(front + [last]))
    ensures ApplyAll(NOTHING, front + [last]).deleted
        == ApplyAll(NOTHING, front).deleted + last.deleted - Numbers(last.added)
  {
    hide FilesSorted;
    var edits := front + [last];
    assert edits[..|front|] == front && edits[|front|] == last;
    AllAddedSnoc(edits);
    PartsIdentify(edits);
    BuilderContents(front);
    var s := ApplyAll(NOTHING, front);
    assert forall f :: f in s.added + last.added ==> f in AllAdded(edits);
    AddFilesKnown(LevelState(s.deleted + last.deleted, s.added), last.added);
  }

  lemma OneMoreAgrees(front: seq<LevelEdit>, last: LevelEdit)
    requires NumbersIdentify(AllAdded(front + [last]))
    requires DifferentNumbers(Replayed(front), last.added)
    ensures Replayed(front + [last]) == InstallOne(Replayed(front), last)
  {
    hide FilesSorted, SaveLevel, Replayed, Apply, ApplyAll, Numbers;
    var edits := front + [last];
    assert edits[..|front|] == front && edits[|front|] == last;
    AllAddedSnoc(edits);
    PartsIdentify(edits);
    ReplayedContents(front);
    ReplayedContents(edits);
    DeletedAfter(front, last);
    SingleContents(last);
    SavedContents(Replayed(front), Apply(NOTHING, last));
    forall f ensures f in Replayed(edits) <==> f in InstallOne(Replayed(front), last) {
      NumberedAmong(f, AllAdded(edits), last.added);
    }
    SameFilesSameOrder(Replayed(edits), InstallOne(Replayed(front), last));
  }

  lemma NumberedAmong(f: File, all: seq<File>, added: seq<File>)
    requires NumbersIdentify(all) && forall g :: g in added ==> g in all
    ensures f in all ==> (f.number in Numbers(added) <==> f in added)
    ensures f in added ==> f.number in Numbers(added)
  {
  }

  // ---- a held number is added: the file is listed twice ----

  lemma {:induction false} MergeCounts(base: seq<File>, added: seq<File>, f: File)
    ensures multiset(MergeFiles(base, added))[f] == multiset(base)[f] + multiset(added)[f]
    decreases |base| + |added|
  {
    hide FileBefore;
    if base == [] || added == [] {
    } else if FileBefore(added[0], base[0]) {
      MergeCounts(base, added[1..], f);
      CountFirst(added, f);
      CountFirst([added[0]] + MergeFiles(base, added[1..]), f);
    } else {
      MergeCounts(base[1..], added, f);
      CountFirst(base, f);
      CountFirst([base[0]] + MergeFiles(base[1..], added), f);
    }
  }

  lemma CountFirst(files: seq<File>, f: File)
    requires files != []
    ensures multiset(files)[f] == (if files[0] == f then 1 else 0) + multiset(files[1..])[f]
  {
    assert files == [files[0]] + files[1..];
  }

  lemma {:induction false} DropCounts(files: seq<File>, deleted: set<nat>, f: File)
    requires f.number !in deleted
    ensures multiset(DropDeleted(files, deleted))[f] == multiset(files)[f]
  {
    if files != [] {
      DropCounts(files[1..], deleted, f);
      assert files == [files[0]] + files[1..];
    }
  }

  lemma {:induction false} SortedOnce(files: seq<File>, f: File)
    requires FilesSorted(files)
    ensures multiset(files)[f] <= 1
  {
    if files != [] {
      SortedOnce(files[1..], f);
      assert files == [files[0]] + files[1..];
      if files[0] == f {
        forall j | 0 <= j < |files[1..]| ensures files[1..][j] != f {
          assert FileBefore(files[0], files[j + 1]);
        }
      }
    }
  }

  lemma HeldIsDoubled(front: seq<LevelEdit>, last: LevelEdit, f: File)
    requires NumbersIdentify(AllAdded(front + [last]))
    requires f in Replayed(front) && f in last.added
    ensures Replayed(front + [last]) != InstallOne(Replayed(front), last)
  {
    hide FilesSorted, Replayed, Apply, ApplyAll, MergeFiles, DropDeleted;
    var edits := front + [last];
    assert edits[..|front|] == front && edits[|front|] == last;
    PartsIdentify(edits);
    ReplayedContents(edits);
    SingleContents(last);
    var s := Apply(NOTHING, last);
    MergeCounts(Replayed(front), s.added, f);
    assert f.number !in s.deleted;
    DropCounts(MergeFiles(Replayed(front), s.added), s.deleted, f);
    assert f in Replayed(front) && f in s.added;
    assert multiset(InstallOne(Replayed(front), last))[f] >= 2;
    SortedOnce(Replayed(edits), f);
  }

  // ---- the theorem ----

  lemma PrefixIdentifies(edits: seq<LevelEdit>, k: nat)
    requires NumbersIdentify(AllAdded(edits)) && k <= |edits|
    ensures NumbersIdentify(AllAdded(edits[..k]))
    decreases |edits| - k
  {
    if k < |edits| {
      PrefixIdentifies(edits, k + 1);
      assert edits[..k + 1][..k] == edits[..k];
      PartsIdentify(edits[..k + 1]);
    } else {
      assert edits[..k] == edits;
    }
  }

  lemma InstallNext(edits: seq<LevelEdit>, k: nat)
    requires k < |edits|
    ensures edits[..k + 1] == edits[..k] + [edits[k]]
    ensures InstallEach([], edits[..k + 1]) == InstallOne(InstallEach([], edits[..k]), edits[k])
  {
    assert edits[..k + 1][..k] == edits[..k];
  }

  lemma {:induction false} AgreesUpTo(edits: seq<LevelEdit>, k: nat)
    requires NumbersIdentify(AllAdded(edits)) && NeverAddsHeld(edits) && k <= |edits|
    ensures Replayed(edits[..k]) == InstallEach([], edits[..k])
  {
    hide Replayed, InstallEach, InstallOne, AllAdded, NumbersIdentify;
    if k == 0 {
      NothingReplayed();
      assert edits[..0] == [];
    } else {
      AgreesUpTo(edits, k - 1);
      PrefixIdentifies(edits, k);
      InstallNext(edits, k - 1);
      OneMoreAgrees(edits[..k - 1], edits[k - 1]);
    }
  }

  lemma NothingReplayed()
    ensures Replayed([]) == [] && InstallEach([], []) == []
  {
  }

  /** Where file numbers identify files, Recover rebuilds after every edit what
      LogAndApply had made if and only if no edit adds a number that its level
      holds at that moment.  A file may come back once it has been deleted. */
  lemma ReplayFollowsExactly(edits: seq<LevelEdit>)
    requires NumbersIdentify(AllAdded(edits))
    ensures ReplayFollows(edits) <==> NeverAddsHeld(edits)
  {
    hide Replayed, InstallEach, InstallOne, AllAdded, NumbersIdentify;
    if NeverAddsHeld(edits) {
      forall k | 0 <= k <= |edits| ensures Replayed(edits[..k]) == InstallEach([], edits[..k]) {
        AgreesUpTo(edits, k);
      }
    }
    if ReplayFollows(edits) {
      forall k | 0 <= k < |edits| ensures DifferentNumbers(InstallEach([], edits[..k]), edits[k].added) {
        PrefixIdentifies(edits, k + 1);
        InstallNext(edits, k);
        assert Replayed(edits[..k + 1]) == InstallEach([], edits[..k + 1]);
        assert Replayed(edits[..k]) == InstallEach([], edits[..k]);
        NothingHeldIsAdded(edits[..k], edits[k]);
      }
    }
  }

  lemma NothingHeldIsAdded(front: seq<LevelEdit>, last: LevelEdit)
    requires NumbersIdentify(AllAdded(front + [last])) && Replayed(front + [last]) == InstallOne(Replayed(front), last)
    ensures DifferentNumbers(Replayed(front), last.added)
  {
    hide Replayed, InstallOne, FilesSorted;
    var edits := front + [last];
    assert edits[..|front|] == front && edits[|front|] == last;
    AllAddedSnoc(edits);
    PartsIdentify(edits);
    ReplayedContents(front);
    forall f, g | f in Replayed(front) && g in last.added ensures f.number != g.number {
      if f.number == g.number {
        HeldIsDoubled(front, last, f);
      }
    }
  }

  /** A file that is added, deleted and added again is listed once. */
  lemma ReturningFileIsFine(f: File)
    ensures ReplayFollows([LevelEdit({}, [f]), LevelEdit({f.number}, []), LevelEdit({}, [f])])
  {
    var a, d := LevelEdit({}, [f]), LevelEdit({f.number}, []);
    var edits := [a, d, a];
    hide Replayed, InstallOne;
    AllAddedOf(a, d);
    InstalledOf(a, d, f);
    ReplayFollowsExactly(edits);
  }

  /** A file that is added again while it is held: installing lists it twice,
      replaying once. */
  lemma HeldFileIsListedTwice(f: File)
    ensures var edits := [LevelEdit({}, [f]), LevelEdit({}, [f])];
      InstallEach([], edits) == [f, f] && Replayed(edits) == [f] && !ReplayFollows(edits)
  {
    var a := LevelEdit({}, [f]);
    var edits := [a, a];
    assert edits[..1] == [a] && [a][..0] == [] && edits[..2] == edits;
    AddedAgain(f);
    MergedAgain(f);
    hide AddFiles, MergeFiles, DropDeleted, InsertFile;
    assert ApplyAll(NOTHING, [a]) == Apply(NOTHING, a);
    assert InstallEach([], [a]) == InstallOne([], a);
  }

  lemma AddedAgain(f: File)
    ensures var a, one := LevelEdit({}, [f]), LevelState({}, [f]); Apply(NOTHING, a) == one && Apply(one, a) == one
  {
    var none: seq<File> := [];
    var one := LevelState({}, [f]);
    assert [f][1..] == none && InsertFile([], f) == [f] && InsertFile([f], f) == [f];
    assert AddFiles(one, none) == one && AddFiles(NOTHING, [f]) == one && AddFiles(one, [f]) == one;
    assert LevelState(NOTHING.deleted + {}, NOTHING.added) == NOTHING && LevelState(one.deleted + {}, one.added) == one;
  }

  lemma MergedAgain(f: File)
    ensures DropDeleted(MergeFiles([], [f]), {}) == [f] && DropDeleted(MergeFiles([f], [f]), {}) == [f, f]
  {
    var none: seq<File> := [];
    assert [f][1..] == none && [f, f][1..] == [f];
    assert MergeFiles([f], [f]) == [f] + MergeFiles(none, [f]) == [f, f];
    assert DropDeleted(none, {}) == none && DropDeleted([f], {}) == [f] + none;
  }

  lemma AllAddedOf(a: LevelEdit, d: LevelEdit)
    requires d.added == []
    ensures AllAdded([a, d, a]) == a.added + a.added
  {
    assert AllAdded([a]) == a.added by { assert [a][..0] == []; }
    assert AllAdded([a, d]) == a.added by { assert [a, d][..1] == [a] && a.added + [] == a.added; }
    assert [a, d, a][..2] == [a, d];
  }

  lemma InstalledOf(a: LevelEdit, d: LevelEdit, f: File)
    requires a == LevelEdit({}, [f]) && d == LevelEdit({f.number}, [])
    ensures NeverAddsHeld([a, d, a])
  {
    var edits := [a, d, a];
    assert edits[..0] == [] && edits[..1] == [a] && edits[..2] == [a, d] && [a][..0] == [] && [a, d][..1] == [a];
    hide InstallOne;
    EmptySorted();
    EditedLevel([], a);
    EditedLevel(InstallOne([], a), d);
    assert InstallEach([], [a]) == InstallOne([], a);
    assert InstallEach([], [a, d]) == InstallOne(InstallOne([], a), d);
  }
}
