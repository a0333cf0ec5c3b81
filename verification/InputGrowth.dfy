/** What SetupOtherInputs tries to take beyond the files it was started for: a
    definition on the files of a version, and that it leaves no choice. */
module InputGrowth {
  import opened InternalKeys
  import opened Versions
  import opened InputSelection

  function TotalFileSize(files: seq<File>): nat {
    if files == [] then 0 else files[0].size + TotalFileSize(files[1..])
  }

  lemma TotalSnoc(files: seq<File>, f: File)
    ensures TotalFileSize(files + [f]) == TotalFileSize(files) + f.size
  {
    if files == [] {
      assert [f][1..] == [] && files + [f] == [f];
    } else {
      assert (files + [f])[1..] == files[1..] + [f];
      TotalSnoc(files[1..], f);
    }
  }

  /** `parents` are the files that overlap the user key range of `inputs`. */
  ghost predicate IsOverlapOf(files: seq<File>, inputs: seq<File>, parents: seq<File>) {
    forall lo, hi :: IsSmallestKey(inputs, lo) && IsLargestKey(inputs, hi) ==>
      parents == OverlappingFiles(files, Some(lo.user), Some(hi.user))
  }

  /** The files of the level in the range of `all`; on level 0, with all that
      these overlap in turn. */
  ghost predicate IsInRangeOf(files: seq<File>, level: nat, all: seq<File>, overlapping: seq<File>) {
    if level > 0 then IsOverlapOf(files, all, overlapping)
    else forall lo, hi :: IsSmallestKey(all, lo) && IsLargestKey(all, hi) ==>
      exists b, e :: overlapping == OverlappingFiles(files, b, e)
        && LeastClosure(files, Some(lo.user), Some(hi.user), overlapping, b, e)
  }

  /** g are the files of the level that share the range of the compaction as it
      stands, completed with boundary files. */
  ghost predicate IsGrowth(files: seq<File>, level: nat, inputs0: seq<File>, inputs1: seq<File>, g: seq<File>) {
    exists overlapping ::
      IsInRangeOf(files, level, inputs0 + inputs1, overlapping) && IsBoundaryClosure(files, overlapping, g)
  }

  /** There is something to gain: more files of the level, within the limit, for
      the same files of the next level. */
  ghost predicate GrowthIsDue(below: seq<File>, inputs0: seq<File>, inputs1: seq<File>, g: seq<File>, limit: nat) {
    && inputs1 != [] && |g| > |inputs0| && TotalFileSize(inputs1) + TotalFileSize(g) < limit
    && IsOverlapOf(below, g, inputs1)
  }

  /** Growing happens exactly when it is due. */
  ghost predicate GrownIfDue(files: seq<File>, below: seq<File>, level: nat, narrow: seq<File>, inputs1: seq<File>,
      inputs0: seq<File>, limit: nat)
  {
    if inputs1 == [] then inputs0 == narrow
    else
      exists g ::
        && IsGrowth(files, level, narrow, inputs1, g)
        && inputs0 == if GrowthIsDue(below, narrow, inputs1, g, limit) then g else narrow
  }

  // ---- there is one growth ----

  lemma SameSetSameOverlap(files: seq<File>, b: Option<UserKey>, e: Option<UserKey>, b2: Option<UserKey>,
      e2: Option<UserKey>)
    requires forall f :: f in files ==> (Overlaps(f, b, e) <==> Overlaps(f, b2, e2))
    ensures OverlappingFiles(files, b, e) == OverlappingFiles(files, b2, e2)
  {
    hide Overlaps;
  }

  lemma ClosureIsUnique(files: seq<File>, begin: Option<UserKey>, end: Option<UserKey>, x: seq<File>, y: seq<File>,
      b: Option<UserKey>, e: Option<UserKey>, b2: Option<UserKey>, e2: Option<UserKey>)
    requires x == OverlappingFiles(files, b, e) && LeastClosure(files, begin, end, x, b, e)
    requires y == OverlappingFiles(files, b2, e2) && LeastClosure(files, begin, end, y, b2, e2)
    ensures x == y
  {
    hide OverlapClosed, ClosedRange, Covered, Overlaps;
    var s, t := set f | f in x, set f | f in y;
    forall f | f in x ensures f in y { assert f in t; }
    forall f | f in y ensures f in x { assert f in s; }
    SameSetSameOverlap(files, b, e, b2, e2);
  }

  lemma RangeIsUnique(files: seq<File>, a: InternalKey, b: InternalKey)
    ensures IsSmallestKey(files, a) && IsSmallestKey(files, b) ==> a == b
    ensures IsLargestKey(files, a) && IsLargestKey(files, b) ==> a == b
  {
  }

  lemma RangeExists(files: seq<File>) returns (smallest: InternalKey, largest: InternalKey)
    requires files != []
    ensures IsSmallestKey(files, smallest) && IsLargestKey(files, largest)
  {
    smallest := SmallestExists(files);
    largest := LargestExists(files);
  }

  lemma SmallestExists(files: seq<File>) returns (smallest: InternalKey)
    requires files != []
    ensures IsSmallestKey(files, smallest)
  {
    var front, last := files[..|files| - 1], files[|files| - 1];
    smallest := Smallest(last);
    if front != [] {
      var s := SmallestExists(front);
      var i :| 0 <= i < |front| && Smallest(front[i]) == s;
      assert files[i] == front[i];
      if Less(s, smallest) { smallest := s; }
    }
  }

  lemma LargestExists(files: seq<File>) returns (largest: InternalKey)
    requires files != []
    ensures IsLargestKey(files, largest)
  {
    var front, last := files[..|files| - 1], files[|files| - 1];
    largest := Largest(last);
    if front != [] {
      var l := LargestExists(front);
      var i :| 0 <= i < |front| && Largest(front[i]) == l;
      assert files[i] == front[i];
      if Less(largest, l) { largest := l; }
    }
  }

  lemma InRangeIsUnique(files: seq<File>, level: nat, all: seq<File>, lo: InternalKey, hi: InternalKey, x: seq<File>,
      y: seq<File>)
    requires IsSmallestKey(all, lo) && IsLargestKey(all, hi)
    requires IsInRangeOf(files, level, all, x) && IsInRangeOf(files, level, all, y)
    ensures x == y
  {
    hide LeastClosure, IsSmallestKey, IsLargestKey;
    if level == 0 {
      var b, e :| x == OverlappingFiles(files, b, e) && LeastClosure(files, Some(lo.user), Some(hi.user), x, b, e);
      var c, f :| y == OverlappingFiles(files, c, f) && LeastClosure(files, Some(lo.user), Some(hi.user), y, c, f);
      ClosureIsUnique(files, Some(lo.user), Some(hi.user), x, y, b, e, c, f);
    }
  }

  lemma NextBoundaryIsUnique(files: seq<File>, inputs: seq<File>, f: File, g: File)
    requires LevelSorted(files) && IsNextBoundary(files, inputs, f) && IsNextBoundary(files, inputs, g)
    ensures f == g
  {
    hide LevelSorted, IsLargestKey;
    var a :| IsLargestKey(inputs, a) && IsBoundary(f, a)
        && forall h :: h in files && IsBoundary(h, a) ==> AtMost(Smallest(f), Smallest(h));
    var b :| IsLargestKey(inputs, b) && IsBoundary(g, b)
        && forall h :: h in files && IsBoundary(h, b) ==> AtMost(Smallest(g), Smallest(h));
    LargestIsUnique(inputs, a, b);
    SameStartSameFile(files, f, g);
  }

  lemma SameStartSameFile(files: seq<File>, f: File, g: File)
    requires LevelSorted(files) && f in files && g in files && Smallest(f) == Smallest(g)
    ensures f == g
  {
    var i :| 0 <= i < |files| && files[i] == f;
    var j :| 0 <= j < |files| && files[j] == g;
    if i < j { FilesInOrder(files, i, j); }
    if j < i { FilesInOrder(files, j, i); }
  }

  /** A closure has no next boundary file, so nothing goes beyond it. */
  lemma {:induction false} BoundariesAgree(files: seq<File>, inputs: seq<File>, r: seq<File>, t: seq<File>, k: nat)
    requires LevelSorted(files) && IsBoundaryClosure(files, inputs, r) && IsBoundaryClosure(files, inputs, t)
    requires |inputs| <= k <= |r|
    ensures k <= |t| && r[..k] == t[..k]
  {
    hide LevelSorted, IsNextBoundary, NoBoundaryLeft;
    if k > |inputs| {
      BoundariesAgree(files, inputs, r, t, k - 1);
      assert IsNextBoundary(files, r[..k - 1], r[k - 1]);
      assert |t| >= k by {
        assert |t| == k - 1 ==> t[..k - 1] == t;
        NothingNext(files, t, r[k - 1]);
      }
      NextBoundaryIsUnique(files, r[..k - 1], r[k - 1], t[k - 1]);
      assert r[..k] == r[..k - 1] + [r[k - 1]] && t[..k] == t[..k - 1] + [t[k - 1]];
    }
  }

  lemma NothingNext(files: seq<File>, inputs: seq<File>, f: File)
    requires NoBoundaryLeft(files, inputs)
    ensures !IsNextBoundary(files, inputs, f)
  {
  }

  /** What GrowInputs compares with is determined by the version. */
  lemma GrowthIsUnique(files: seq<File>, level: nat, inputs0: seq<File>, inputs1: seq<File>, lo: InternalKey,
      hi: InternalKey, g: seq<File>, h: seq<File>)
    requires level > 0 ==> LevelSorted(files)
    requires IsSmallestKey(inputs0 + inputs1, lo) && IsLargestKey(inputs0 + inputs1, hi)
    requires IsGrowth(files, level, inputs0, inputs1, g) && IsGrowth(files, level, inputs0, inputs1, h)
    ensures g == h
  {
    hide LevelSorted, IsInRangeOf, IsBoundaryClosure, IsSmallestKey, IsLargestKey;
    var x :| IsInRangeOf(files, level, inputs0 + inputs1, x) && IsBoundaryClosure(files, x, g);
    var y :| IsInRangeOf(files, level, inputs0 + inputs1, y) && IsBoundaryClosure(files, y, h);
    InRangeIsUnique(files, level, inputs0 + inputs1, lo, hi, x, y);
    if level > 0 {
      ClosuresAgree(files, x, g, h);
    } else {
      NoBoundaryOnLevel0(files, inputs0 + inputs1, lo, hi, x, g);
      NoBoundaryOnLevel0(files, inputs0 + inputs1, lo, hi, x, h);
    }
  }

  lemma ClosuresAgree(files: seq<File>, inputs: seq<File>, g: seq<File>, h: seq<File>)
    requires LevelSorted(files) && IsBoundaryClosure(files, inputs, g) && IsBoundaryClosure(files, inputs, h)
    ensures g == h
  {
    hide LevelSorted, IsNextBoundary, NoBoundaryLeft;
    BoundariesAgree(files, inputs, g, h, |g|);
    BoundariesAgree(files, inputs, h, g, |h|);
    assert g[..|g|] == g && h[..|h|] == h;
  }

  lemma NoBoundaryOnLevel0(files: seq<File>, all: seq<File>, lo: InternalKey, hi: InternalKey, x: seq<File>,
      g: seq<File>)
    requires IsSmallestKey(all, lo) && IsLargestKey(all, hi) && IsInRangeOf(files, 0, all, x)
    requires IsBoundaryClosure(files, x, g)
    ensures g == x
  {
    hide IsSmallestKey, IsLargestKey, Covered, OverlapClosed, IsNextBoundary;
    var b, e :| x == OverlappingFiles(files, b, e) && LeastClosure(files, Some(lo.user), Some(hi.user), x, b, e);
    ClosedHasNoBoundary(files, b, e);
    assert g[..|x|] == x;
    if |g| > |x| { NothingNext(files, x, g[|x|]); }
  }

  /** A file that continues the last user key of a closed level-0 set overlaps
      it, so it is in the set already. */
  lemma ClosedHasNoBoundary(files: seq<File>, begin: Option<UserKey>, end: Option<UserKey>)
    requires ClosedRange(files, begin, end)
    ensures NoBoundaryLeft(files, OverlappingFiles(files, begin, end))
  {
    var inputs := OverlappingFiles(files, begin, end);
    forall largest, f | IsLargestKey(inputs, largest) && f in files
      ensures !IsBoundary(f, largest)
    {
      EntriesInRange(f, f.entries[0]);
      var j :| 0 <= j < |inputs| && Largest(inputs[j]) == largest;
      EntriesInRange(inputs[j], inputs[j].entries[0]);
      assert inputs[j] in inputs;
      assert f in inputs ==> exists k :: 0 <= k < |inputs| && inputs[k] == f;
    }
  }

  /** So the inputs are the growth if it is due, and else what they were: whatever
      answers the definition of the growth. */
  lemma GrowsExactlyIfDue(files: seq<File>, below: seq<File>, level: nat, narrow: seq<File>, inputs1: seq<File>,
      inputs0: seq<File>, limit: nat, g: seq<File>)
    requires (level > 0 ==> LevelSorted(files)) && inputs1 != []
    requires GrownIfDue(files, below, level, narrow, inputs1, inputs0, limit)
    requires IsGrowth(files, level, narrow, inputs1, g)
    ensures inputs0 == if GrowthIsDue(below, narrow, inputs1, g, limit) then g else narrow
  {
    hide LevelSorted, IsGrowth, GrowthIsDue, IsSmallestKey, IsLargestKey;
    var lo, hi := RangeExists(narrow + inputs1);
    var h :| IsGrowth(files, level, narrow, inputs1, h)
        && inputs0 == if GrowthIsDue(below, narrow, inputs1, h, limit) then h else narrow;
    GrowthIsUnique(files, level, narrow, inputs1, lo, hi, g, h);
  }
}
