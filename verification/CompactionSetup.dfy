/** Assembling a compaction: VersionSet::PickCompaction, CompactRange and
    SetupOtherInputs. */
module CompactionSetup {
  import opened InternalKeys
  import opened Versions
  import opened InputSelection
  import opened InputGrowth

  datatype Compaction = Compaction(level: nat, inputs0: seq<File>, inputs1: seq<File>, grandparents: seq<File>)

  /** What installing a compaction relies on: the upper inputs leave nothing
      older behind in their level, and the lower inputs are all the files of
      the next level that share a user key range with the upper ones. */
  ghost predicate Selected(v: Version, c: Compaction) {
    && c.level + 1 < NUM_LEVELS
    && c.inputs0 != []
    && (forall f :: f in c.inputs0 ==> f in v.files[c.level])
    && (c.level > 0 ==> LevelSorted(c.inputs0)) && NoDuplicates(c.inputs0)
    && LeavesNothingOlder(v.files[c.level], c.inputs0)
    && IsOverlapOf(v.files[c.level + 1], c.inputs0, c.inputs1)
  }

  ghost predicate NoDuplicates(files: seq<File>) {
    forall i, j :: 0 <= i < j < |files| ==> files[i] != files[j]
  }

  lemma SortedHasNoDuplicates(files: seq<File>)
    requires LevelSorted(files)
    ensures NoDuplicates(files)
  {
    forall i, j | 0 <= i < j < |files| ensures files[i] != files[j] {
      FilesInOrder(files, i, j);
    }
  }

  lemma OverlapHasNoDuplicates(files: seq<File>, begin: Option<UserKey>, end: Option<UserKey>)
    requires NoDuplicates(files)
    ensures NoDuplicates(OverlappingFiles(files, begin, end))
  {
    if files != [] {
      OverlapHasNoDuplicates(files[1..], begin, end);
      var rest := OverlappingFiles(files[1..], begin, end);
      forall j | 0 <= j < |rest| ensures rest[j] != files[0] {
        assert rest[j] in rest;
        var k :| 0 <= k < |files[1..]| && files[1..][k] == rest[j];
      }
    }
  }

  ghost predicate LeavesNothingOlder(files: seq<File>, inputs: seq<File>) {
    forall f, g :: f in inputs && g in files && g !in inputs ==> NewerWhereShared(g, f)
  }

  /** On every user key they share, g's versions are no older than f's. */
  ghost predicate NewerWhereShared(g: File, f: File) {
    forall e, h :: e in g.entries && h in f.entries && e.key.user == h.key.user ==> e.key.sqn >= h.key.sqn
  }

  /** What PickCompaction and CompactRange hand to SetupOtherInputs. */
  ghost predicate Startable(files: seq<File>, level: nat, inputs: seq<File>) {
    && inputs != []
    && if level == 0 then exists b, e :: ClosedRange(files, b, e) && inputs == OverlappingFiles(files, b, e)
       else IsRun(files, inputs)
  }

  method GetRange(files: seq<File>) returns (smallest: InternalKey, largest: InternalKey)
    requires files != []
    ensures IsSmallestKey(files, smallest) && IsLargestKey(files, largest)
  {
    smallest := Smallest(files[0]);
    largest := Largest(files[0]);
    for i := 1 to |files|
      invariant exists j :: 0 <= j < i && Smallest(files[j]) == smallest
      invariant forall j :: 0 <= j < i ==> AtMost(smallest, Smallest(files[j]))
      invariant exists j :: 0 <= j < i && Largest(files[j]) == largest
      invariant forall j :: 0 <= j < i ==> AtMost(Largest(files[j]), largest)
    {
      CompareIsLexicographic(Smallest(files[i]), smallest);
      CompareIsLexicographic(Largest(files[i]), largest);
      if Compare(Smallest(files[i]), smallest) < 0 {
        smallest := Smallest(files[i]);
      }
      if Compare(Largest(files[i]), largest) > 0 {
        largest := Largest(files[i]);
      }
    }
  }

  lemma ClosedLeavesNothingOlder(files: seq<File>, begin: Option<UserKey>, end: Option<UserKey>)
    requires ClosedRange(files, begin, end)
    ensures LeavesNothingOlder(files, OverlappingFiles(files, begin, end))
  {
    var inputs := OverlappingFiles(files, begin, end);
    forall f, g | f in inputs && g in files && g !in inputs
      ensures NewerWhereShared(g, f)
    {
      assert Within(f, begin, end) && !Overlaps(g, begin, end);
      forall e, h | e in g.entries && h in f.entries ensures e.key.user != h.key.user {
        EntriesInRange(f, h);
        EntriesInRange(g, e);
      }
    }
  }

  /** In a sorted level the versions of one user key run from newest to oldest
      across files, so only a file that continues the last user key of the run
      could be left holding older versions. */
  lemma RunLeavesNothingOlder(files: seq<File>, inputs: seq<File>)
    requires LevelSorted(files) && IsRun(files, inputs) && inputs != [] && NoBoundaryLeft(files, inputs)
    ensures LeavesNothingOlder(files, inputs)
  {
    hide LevelSorted, Less, NewerWhereShared, NoBoundaryLeft;
    var lo, hi :| 0 <= lo <= hi <= |files| && inputs == files[lo..hi];
    forall f, g | f in inputs && g in files && g !in inputs ensures NewerWhereShared(g, f) {
      var i := IndexOf(inputs, f);
      var j := IndexOf(files, g);
      OutsideSlice(files, lo, hi, j);
      OutsideRunIsNewer(files, lo, hi, lo + i, j);
    }
  }

  lemma IndexOf<T>(s: seq<T>, x: T) returns (i: nat)
    requires x in s
    ensures i < |s| && s[i] == x
  {
    i :| i < |s| && s[i] == x;
  }

  lemma OutsideSlice<T>(s: seq<T>, lo: nat, hi: nat, j: nat)
    requires lo <= hi <= |s| && j < |s| && s[j] !in s[lo..hi]
    ensures !(lo <= j < hi)
  {
    forall k | lo <= k < hi ensures s[k] in s[lo..hi] {
      InSlice(s, lo, hi, k);
    }
  }

  lemma InSlice<T>(s: seq<T>, lo: nat, hi: nat, k: nat)
    requires lo <= k < hi <= |s|
    ensures s[k] in s[lo..hi]
  {
    assert s[lo..hi][k - lo] == s[k];
  }

  lemma RunIsSorted(files: seq<File>, inputs: seq<File>)
    requires LevelSorted(files) && IsRun(files, inputs)
    ensures LevelSorted(inputs)
  {
    var lo, hi :| 0 <= lo <= hi <= |files| && inputs == files[lo..hi];
    forall i, j | 0 <= i < j < |inputs| ensures Less(Largest(inputs[i]), Smallest(inputs[j])) {
      assert inputs[i] == files[lo + i] && inputs[j] == files[lo + j];
    }
  }

  lemma OutsideRunIsNewer(files: seq<File>, lo: nat, hi: nat, i: nat, j: nat)
    requires LevelSorted(files) && lo <= i < hi <= |files| && NoBoundaryLeft(files, files[lo..hi])
    requires j < |files| && !(lo <= j < hi)
    ensures NewerWhereShared(files[j], files[i])
  {
    if j < lo {
      FilesInOrder(files, j, i);
    } else {
      AfterRunIsNewKey(files, lo, hi, j);
      FilesInOrder(files, i, hi - 1);
    }
    forall e, h | e in files[j].entries && h in files[i].entries && e.key.user == h.key.user
      ensures e.key.sqn >= h.key.sqn
    {
      EntriesInRange(files[i], h);
      EntriesInRange(files[j], e);
    }
  }

  lemma AfterRunIsNewKey(files: seq<File>, lo: nat, hi: nat, j: nat)
    requires LevelSorted(files) && lo < hi <= j < |files| && NoBoundaryLeft(files, files[lo..hi])
    ensures Smallest(files[j]).user > Largest(files[hi - 1]).user
  {
    LargestKeyOfRun(files, lo, hi);
    FilesInOrder(files, hi - 1, j);
    assert !IsBoundary(files[j], Largest(files[hi - 1]));
  }

  lemma LargestKeyOfRun(files: seq<File>, lo: nat, hi: nat)
    requires LevelSorted(files) && lo < hi <= |files|
    ensures IsLargestKey(files[lo..hi], Largest(files[hi - 1]))
  {
    assert files[lo..hi][hi - 1 - lo] == files[hi - 1];
    forall j | 0 <= j < hi - lo ensures AtMost(Largest(files[lo..hi][j]), Largest(files[hi - 1])) {
      FilesInOrder(files, lo + j, hi - 1);
    }
  }

  /** The inputs of `level` completed with boundary files are safe to move. */
  method CloseInputs(files: seq<File>, level: nat, inputs: seq<File>) returns (r: seq<File>)
    requires level > 0 ==> LevelSorted(files)
    requires NoDuplicates(files) && Startable(files, level, inputs)
    ensures NoDuplicates(r)
    ensures inputs <= r && r != []
    ensures forall f :: f in r ==> f in files
    ensures IsBoundaryClosure(files, inputs, r) && LeavesNothingOlder(files, r)
    ensures level > 0 ==> LevelSorted(r) && IsRun(files, r)
    ensures level == 0 ==> r == inputs
    ensures forall others :: Connected(others + inputs) ==> Connected(others + r)
  {
    if level == 0 {
      ghost var b, e :| ClosedRange(files, b, e) && inputs == OverlappingFiles(files, b, e);
      ClosedHasNoBoundary(files, b, e);
      ClosedLeavesNothingOlder(files, b, e);
      OverlapHasNoDuplicates(files, b, e);
    }
    r := AddBoundaryInputs(files, inputs);
    if level > 0 {
      RunLeavesNothingOlder(files, r);
      RunIsSorted(files, r);
      SortedHasNoDuplicates(r);
    }
  }

  lemma LevelHasNoDuplicates(v: Version, level: nat)
    requires WellShaped(v) && level < NUM_LEVELS
    ensures NoDuplicates(v.files[level]) && (level > 0 ==> LevelSorted(v.files[level]))
  {
    if level > 0 {
      SortedHasNoDuplicates(v.files[level]);
    }
  }

  /** The inputs of SetupOtherInputs: boundary files, overlapping files of the
      next level, and the attempt to grow. */
  method SelectInputs(v: Version, level: nat, inputs: seq<File>, expandLimit: nat)
    returns (inputs0: seq<File>, inputs1: seq<File>, ghost narrow: seq<File>)
    requires WellShaped(v) && level + 1 < NUM_LEVELS
    requires Startable(v.files[level], level, inputs)
    ensures inputs0 != [] && (forall f :: f in inputs0 ==> f in v.files[level])
        && LeavesNothingOlder(v.files[level], inputs0)
    ensures NoDuplicates(inputs0) && (level > 0 ==> LevelSorted(inputs0))
    ensures IsOverlapOf(v.files[level + 1], inputs0, inputs1)
    ensures IsBoundaryClosure(v.files[level], inputs, narrow) && IsOverlapOf(v.files[level + 1], narrow, inputs1)
    ensures inputs <= narrow
    ensures GrownIfDue(v.files[level], v.files[level + 1], level, narrow, inputs1, inputs0, expandLimit)
    ensures inputs0 == narrow || (|inputs0| > |narrow| && TotalFileSize(inputs0) + TotalFileSize(inputs1) < expandLimit)
    ensures forall f :: f in narrow ==> f in inputs0
    ensures Connected(inputs) ==> Connected(inputs0 + inputs1)
  {
    LevelHasNoDuplicates(v, level);
    hide Less, IsOverlapOf, LevelSorted, LeavesNothingOlder, IsSmallestKey, IsLargestKey, LeastClosure, Overlaps,
        Startable, NoDuplicates,
         Connected, Wider, WellShaped, IsBoundaryClosure, IsGrowth;
    inputs0 := CloseInputs(v.files[level], level, inputs);
    narrow := inputs0;
    var smallest, largest := GetRange(inputs0);
    var parents, _, _ := GetOverlappingInputs(v.files[level + 1], level + 1, Some(smallest.user), Some(largest.user));
    inputs1 := parents;
    OverlapOfRange(v.files[level + 1], inputs0, smallest, largest);
    ClosedInputsConnect(inputs, inputs0, smallest, largest, v.files[level + 1]);
    if inputs1 != [] {
      inputs0 := GrowInputs(v, level, inputs0, inputs1, smallest, largest, expandLimit);
    }
  }

  /** What SetupOtherInputs makes of the files it is given: `narrow` are they and
      their boundary files; the files of the next level in their range; the
      growth, if it is due; and the files two levels down in the range of all. */
  ghost predicate IsSetup(v: Version, c: Compaction, inputs: seq<File>, narrow: seq<File>, limit: nat)
    requires c.level + 1 < NUM_LEVELS
  {
    var files, below := v.files[c.level], v.files[c.level + 1];
    && IsBoundaryClosure(files, inputs, narrow) && IsOverlapOf(below, narrow, c.inputs1)
    && GrownIfDue(files, below, c.level, narrow, c.inputs1, c.inputs0, limit)
    && if c.level + 2 < NUM_LEVELS then IsOverlapOf(v.files[c.level + 2], c.inputs0 + c.inputs1, c.grandparents)
       else c.grandparents == []
  }

  /** VersionSet::SetupOtherInputs.  `narrow` is what the upper inputs were
      before the attempt to grow them: growing never changes the lower ones. */
  method SetupOtherInputs(v: Version, level: nat, inputs: seq<File>, expandLimit: nat)
    returns (c: Compaction, ghost narrow: seq<File>)
    requires WellShaped(v) && level + 1 < NUM_LEVELS
    requires Startable(v.files[level], level, inputs)
    ensures c.level == level && Selected(v, c) && IsSetup(v, c, inputs, narrow, expandLimit)
    ensures forall f :: f in inputs ==> f in c.inputs0
    ensures c.inputs0 == narrow || (|c.inputs0| > |narrow|
        && TotalFileSize(c.inputs0) + TotalFileSize(c.inputs1) < expandLimit)
    ensures forall f :: f in narrow ==> f in c.inputs0
    ensures Connected(inputs) ==> Connected(c.inputs0 + c.inputs1)
  {
    hide Less, IsOverlapOf, LevelSorted, LeavesNothingOlder, IsSmallestKey, IsLargestKey, LeastClosure, Overlaps,
        Startable, NoDuplicates,
         Connected, Wider, WellShaped, GrownIfDue, IsBoundaryClosure;
    var inputs0, inputs1;
    inputs0, inputs1, narrow := SelectInputs(v, level, inputs, expandLimit);
    var allStart, allLimit := GetRange(inputs0 + inputs1);
    var grandparents: seq<File> := [];
    if level + 2 < NUM_LEVELS {
      var overlapping, _, _ := GetOverlappingInputs(v.files[level + 2], level + 2, Some(allStart.user),
          Some(allLimit.user));
      OverlapOfRange(v.files[level + 2], inputs0 + inputs1, allStart, allLimit);
      grandparents := overlapping;
    }
    c := Compaction(level, inputs0, inputs1, grandparents);
  }

  /** The part of SetupOtherInputs that tries to take more files of `level`. */
  method GrowInputs(v: Version, level: nat, inputs0: seq<File>, inputs1: seq<File>, smallest: InternalKey,
      largest: InternalKey,
                    expandLimit: nat)
    returns (r: seq<File>)
    requires WellShaped(v) && level + 1 < NUM_LEVELS
    requires inputs0 != [] && (forall f :: f in inputs0 ==> f in v.files[level])
        && LeavesNothingOlder(v.files[level], inputs0)
    requires NoDuplicates(inputs0) && (level > 0 ==> LevelSorted(inputs0))
    requires IsSmallestKey(inputs0, smallest) && IsLargestKey(inputs0, largest)
    requires inputs1 == OverlappingFiles(v.files[level + 1], Some(smallest.user), Some(largest.user))
    ensures r != [] && (forall f :: f in r ==> f in v.files[level]) && LeavesNothingOlder(v.files[level], r)
    ensures NoDuplicates(r) && (level > 0 ==> LevelSorted(r))
    ensures IsOverlapOf(v.files[level + 1], r, inputs1)
    ensures forall f :: f in inputs0 ==> f in r
    ensures r == inputs0 || (|r| > |inputs0| && TotalFileSize(r) + TotalFileSize(inputs1) < expandLimit)
    ensures inputs1 != [] ==>
        GrownIfDue(v.files[level], v.files[level + 1], level, inputs0, inputs1, r, expandLimit)
    ensures Connected(inputs0 + inputs1) ==> Connected(r + inputs1)
  {
    hide Connected, LevelSorted, NoDuplicates, LeavesNothingOlder, LeastClosure, Overlaps, IsBoundaryClosure,
        IsOverlapOf, IsGrowth, IsSmallestKey, IsLargestKey;
    r := inputs0;
    LevelHasNoDuplicates(v, level);
    OverlapOfRange(v.files[level + 1], inputs0, smallest, largest);
    var allStart, allLimit := GetRange(inputs0 + inputs1);
    var overlapping, b, e := GetOverlappingInputs(v.files[level], level, Some(allStart.user), Some(allLimit.user));
    UpperInputsOverlap(v.files[level], level, inputs0, inputs0 + inputs1, allStart, allLimit, overlapping, b, e);
    if Connected(inputs0 + inputs1) {
      GrownConnects(v.files[level], level, inputs0 + inputs1, allStart, allLimit, overlapping, b, e);
    }
    var expanded0 := CloseInputs(v.files[level], level, overlapping);
    assert IsGrowth(v.files[level], level, inputs0, inputs1, expanded0) by {
      ThisIsGrowth(v.files[level], level, inputs0, inputs1, allStart, allLimit, overlapping, b, e, expanded0);
    }
    if Connected(inputs0 + inputs1) {
      ConnectedSameFiles(inputs0 + inputs1 + expanded0, expanded0 + inputs1);
    }
    if |expanded0| > |inputs0| && TotalFileSize(inputs1) + TotalFileSize(expanded0) < expandLimit {
      var newStart, newLimit := GetRange(expanded0);
      var expanded1, _, _ := GetOverlappingInputs(v.files[level + 1], level + 1, Some(newStart.user),
          Some(newLimit.user));
      WiderRange(inputs0, expanded0, smallest, largest, newStart, newLimit);
      SameSizeSameFiles(v.files[level + 1], smallest.user, largest.user, newStart.user, newLimit.user);
      OverlapOfRange(v.files[level + 1], expanded0, newStart, newLimit);
      assert IsOverlapOf(v.files[level + 1], expanded0, inputs1) <==> |expanded1| == |inputs1| by {
        OneOverlap(v.files[level + 1], expanded0, newStart, newLimit, expanded1, inputs1);
      }
      if |expanded1| == |inputs1| {
        r := expanded0;
      }
    }
  }

  lemma ThisIsGrowth(files: seq<File>, level: nat, inputs0: seq<File>, inputs1: seq<File>, lo: InternalKey,
      hi: InternalKey, overlapping: seq<File>, b: Option<UserKey>, e: Option<UserKey>, g: seq<File>)
    requires IsSmallestKey(inputs0 + inputs1, lo) && IsLargestKey(inputs0 + inputs1, hi)
    requires overlapping == OverlappingFiles(files, b, e) && IsBoundaryClosure(files, overlapping, g)
    requires level > 0 ==> b == Some(lo.user) && e == Some(hi.user)
    requires level == 0 ==> LeastClosure(files, Some(lo.user), Some(hi.user), overlapping, b, e)
    ensures IsGrowth(files, level, inputs0, inputs1, g)
  {
    hide LeastClosure, IsSmallestKey, IsLargestKey, IsBoundaryClosure;
    var all := inputs0 + inputs1;
    forall l, h | IsSmallestKey(all, l) && IsLargestKey(all, h) ensures l == lo && h == hi {
      RangeIsUnique(all, l, lo);
      RangeIsUnique(all, h, hi);
    }
    assert IsInRangeOf(files, level, all, overlapping);
  }

  lemma OneOverlap(files: seq<File>, inputs: seq<File>, lo: InternalKey, hi: InternalKey, x: seq<File>, y: seq<File>)
    requires IsSmallestKey(inputs, lo) && IsLargestKey(inputs, hi) && IsOverlapOf(files, inputs, x)
    ensures IsOverlapOf(files, inputs, y) <==> x == y
  {
    hide IsSmallestKey, IsLargestKey;
  }

  /** Files overlapping the range of connected ones connect to them. */
  lemma OverlapConnects(inputs: seq<File>, smallest: InternalKey, largest: InternalKey, files: seq<File>)
    requires Connected(inputs) && IsSmallestKey(inputs, smallest) && IsLargestKey(inputs, largest)
    ensures Connected(inputs + OverlappingFiles(files, Some(smallest.user), Some(largest.user)))
  {
    hide Connected;
    var parents := OverlappingFiles(files, Some(smallest.user), Some(largest.user));
    forall g | g in parents ensures Touches(g, inputs) {
      var i :| 0 <= i < |inputs| && Smallest(inputs[i]) == smallest;
      var j :| 0 <= j < |inputs| && Largest(inputs[j]) == largest;
      assert inputs[i] in inputs && inputs[j] in inputs;
    }
    ConnectedUnion(inputs, parents);
  }

  lemma ClosedInputsConnect(inputs: seq<File>, r: seq<File>, smallest: InternalKey, largest: InternalKey,
      files: seq<File>)
    requires forall others :: Connected(others + inputs) ==> Connected(others + r)
    requires IsSmallestKey(r, smallest) && IsLargestKey(r, largest)
    ensures Connected(inputs) ==> Connected(r + OverlappingFiles(files, Some(smallest.user), Some(largest.user)))
  {
    hide Connected;
    if Connected(inputs) {
      assert [] + inputs == inputs && [] + r == r;
      OverlapConnects(r, smallest, largest, files);
    }
  }

  lemma GrownConnects(files: seq<File>, level: nat, all: seq<File>, allStart: InternalKey, allLimit: InternalKey,
                      overlapping: seq<File>, b: Option<UserKey>, e: Option<UserKey>)
    requires Connected(all) && IsSmallestKey(all, allStart) && IsLargestKey(all, allLimit)
    requires overlapping == OverlappingFiles(files, b, e)
    requires level > 0 ==> b == Some(allStart.user) && e == Some(allLimit.user)
    requires level == 0 ==> LeastClosure(files, Some(allStart.user), Some(allLimit.user), overlapping, b, e)
    requires Wider(Some(allStart.user), Some(allLimit.user), b, e)
    ensures Connected(all + overlapping)
  {
    if level > 0 {
      OverlapConnects(all, allStart, allLimit, files);
    } else {
      ClosureConnects(files, all, allStart, allLimit, b, e);
    }
  }

  lemma ClosureConnects(files: seq<File>, all: seq<File>, allStart: InternalKey, allLimit: InternalKey,
                        b: Option<UserKey>, e: Option<UserKey>)
    requires Connected(all) && IsSmallestKey(all, allStart) && IsLargestKey(all, allLimit)
    requires ClosedRange(files, b, e)
    requires Covered(files, (set f | f in OverlappingFiles(files, b, e)), Some(allStart.user), Some(allLimit.user), b,
        e)
    requires Wider(Some(allStart.user), Some(allLimit.user), b, e)
    ensures Connected(all + OverlappingFiles(files, b, e))
  {
    var more := OverlappingFiles(files, b, e);
    var i :| 0 <= i < |all| && Smallest(all[i]) == allStart;
    var j :| 0 <= j < |all| && Largest(all[j]) == allLimit;
    assert all[i] in all && all[j] in all;
    forall f, g, u | f in all + more && g in all + more && Smallest(f).user <= u <= Largest(g).user
      ensures CoveredBy(all + more, u)
    {
      assert InRange(u, b, e) by {
        StaysInRange(files, all, allStart, allLimit, b, e, f);
        StaysInRange(files, all, allStart, allLimit, b, e, g);
      }
      if InRange(u, Some(allStart.user), Some(allLimit.user)) {
        assert CoveredBy(all, u);
      }
    }
  }

  lemma StaysInRange(files: seq<File>, all: seq<File>, allStart: InternalKey, allLimit: InternalKey,
                     b: Option<UserKey>, e: Option<UserKey>, f: File)
    requires IsSmallestKey(all, allStart) && IsLargestKey(all, allLimit) && ClosedRange(files, b, e)
    requires Wider(Some(allStart.user), Some(allLimit.user), b, e)
    requires f in all + OverlappingFiles(files, b, e)
    ensures Within(f, b, e)
  {
    if f in all {
      var k :| 0 <= k < |all| && all[k] == f;
    }
  }

  lemma OverlapOfRange(files: seq<File>, inputs: seq<File>, smallest: InternalKey, largest: InternalKey)
    requires IsSmallestKey(inputs, smallest) && IsLargestKey(inputs, largest)
    ensures IsOverlapOf(files, inputs, OverlappingFiles(files, Some(smallest.user), Some(largest.user)))
  {
    forall lo, hi | IsSmallestKey(inputs, lo) && IsLargestKey(inputs, hi) ensures lo == smallest && hi == largest {
      RangeIsUnique(inputs, lo, smallest);
      RangeIsUnique(inputs, hi, largest);
    }
  }

  lemma UpperInputsOverlap(files: seq<File>, level: nat, inputs0: seq<File>, all: seq<File>, allStart: InternalKey,
      allLimit: InternalKey,
                           overlapping: seq<File>, b: Option<UserKey>, e: Option<UserKey>)
    requires level > 0 ==> LevelSorted(files)
    requires inputs0 != [] && inputs0 <= all && (forall f :: f in inputs0 ==> f in files)
    requires IsSmallestKey(all, allStart) && IsLargestKey(all, allLimit)
    requires overlapping == OverlappingFiles(files, b, e)
    requires level > 0 ==> b == Some(allStart.user) && e == Some(allLimit.user)
    requires level == 0 ==> LeastClosure(files, Some(allStart.user), Some(allLimit.user), overlapping, b, e)
    ensures forall f :: f in inputs0 ==> f in overlapping
    ensures Startable(files, level, overlapping)
  {
    forall f | f in inputs0 ensures f in overlapping {
      var j :| 0 <= j < |inputs0| && inputs0[j] == f;
      assert all[j] == f;
      EntriesInRange(f, f.entries[0]);
      assert Overlaps(f, Some(allStart.user), Some(allLimit.user));
    }
    assert inputs0[0] in overlapping;
    if level > 0 {
      OverlapIsRun(files, b, e);
    }
  }

  lemma WiderRange(inputs: seq<File>, wider: seq<File>, smallest: InternalKey, largest: InternalKey,
                   newSmallest: InternalKey, newLargest: InternalKey)
    requires forall f :: f in inputs ==> f in wider
    requires IsSmallestKey(inputs, smallest) && IsLargestKey(inputs, largest)
    requires IsSmallestKey(wider, newSmallest) && IsLargestKey(wider, newLargest)
    ensures newSmallest.user <= smallest.user && largest.user <= newLargest.user
  {
    var i :| 0 <= i < |inputs| && Smallest(inputs[i]) == smallest;
    var j :| 0 <= j < |inputs| && Largest(inputs[j]) == largest;
    assert inputs[i] in wider && inputs[j] in wider;
  }

  /** Widening a range can only add files; if the count stays, so do the files. */
  lemma SameSizeSameFiles(files: seq<File>, b: UserKey, e: UserKey, wideB: UserKey, wideE: UserKey)
    requires wideB <= b && e <= wideE
    ensures var r, w := OverlappingFiles(files, Some(b), Some(e)), OverlappingFiles(files, Some(wideB), Some(wideE));
      |r| <= |w| && (|r| == |w| ==> r == w)
  {
    if files != [] {
      SameSizeSameFiles(files[1..], b, e, wideB, wideE);
    }
  }

  lemma OneIsConnected(f: File)
    ensures Connected([f])
  {
    forall u | Smallest(f).user <= u <= Largest(f).user ensures CoveredBy([f], u) {
      assert f in [f];
    }
  }

  lemma PickedOverlaps(f: File, smallest: InternalKey, largest: InternalKey, b: Option<UserKey>, e: Option<UserKey>)
    requires IsSmallestKey([f], smallest) && IsLargestKey([f], largest)
        && Wider(Some(smallest.user), Some(largest.user), b, e)
    ensures Overlaps(f, b, e)
  {
    EntriesInRange(f, f.entries[0]);
    assert [f][0] == f;
  }

  /** VersionSet::PickCompaction for the file the size or seek statistics chose. */
  method PickCompaction(v: Version, level: nat, picked: nat, expandLimit: nat)
    returns (c: Compaction, ghost start: seq<File>, ghost narrow: seq<File>)
    requires WellShaped(v) && level + 1 < NUM_LEVELS && picked < |v.files[level]|
    ensures if level > 0 then start == [v.files[level][picked]]
        else IsInRangeOf(v.files[0], 0, [v.files[0][picked]], start)
    ensures c.level == level && IsSetup(v, c, start, narrow, expandLimit)
    ensures Selected(v, c) && v.files[level][picked] in c.inputs0
    ensures Connected(c.inputs0 + c.inputs1)
  {
    var files := v.files[level];
    var inputs := [files[picked]];
    OneIsConnected(files[picked]);
    hide Connected, LevelSorted, LeastClosure, LeavesNothingOlder, IsOverlapOf, IsSetup;
    if level == 0 {
      var smallest, largest := GetRange(inputs);
      var overlapping, b, e := GetOverlappingInputs(files, 0, Some(smallest.user), Some(largest.user));
      ClosureInRange(files, inputs, smallest, largest, overlapping, b, e);
      PickedOverlaps(files[picked], smallest, largest, b, e);
      GrownConnects(files, 0, inputs, smallest, largest, overlapping, b, e);
      ConnectedSameFiles(inputs + overlapping, overlapping);
      inputs := overlapping;
    } else {
      assert inputs == files[picked..picked + 1];
    }
    assert files[picked] in inputs;
    start := inputs;
    c, narrow := SetupOtherInputs(v, level, inputs, expandLimit);
  }

  /** VersionSet::CompactRange: a manual compaction of a user key range. */
  method CompactRange(v: Version, level: nat, begin: Option<UserKey>, end: Option<UserKey>, maxFileSize: nat,
      expandLimit: nat)
    returns (r: Option<Compaction>, ghost start: seq<File>, ghost narrow: seq<File>)
    requires WellShaped(v) && level + 1 < NUM_LEVELS
    ensures r.None? <==> forall f :: f in v.files[level] ==> !Overlaps(f, begin, end)
    ensures r.Some? ==> r.value.level == level && Selected(v, r.value)
    ensures r.Some? ==> IsSetup(v, r.value, start, narrow, expandLimit)
    ensures r.Some? && level > 0 ==> IsOneShot(OverlappingFiles(v.files[level], begin, end), maxFileSize, start)
    ensures r.Some? && level == 0 ==> IsClosureOf(v.files[0], begin, end, start)
  {
    var files := v.files[level];
    var inputs, b, e := GetOverlappingInputs(files, level, begin, end);
    SomethingOverlaps(files, level, begin, end, inputs, b, e);
    if inputs == [] {
      return None, [], [];
    }
    hide LevelSorted, LeastClosure, LeavesNothingOlder, IsOverlapOf, IsSetup, TotalFileSize;
    if level > 0 {
      OverlapIsRun(files, b, e);
      inputs := CutShot(files, inputs, maxFileSize);
    }
    start := inputs;
    var c;
    c, narrow := SetupOtherInputs(v, level, inputs, expandLimit);
    r := Some(c);
  }

  /** The files of a range that are compacted at once: as many as stay below the
      limit, and the one that reaches it. */
  ghost predicate IsOneShot(all: seq<File>, limit: nat, start: seq<File>) {
    && start <= all && start != []
    && (forall n :: 0 < n < |start| ==> TotalFileSize(all[..n]) < limit)
    && (start == all || TotalFileSize(start) >= limit)
  }

  ghost predicate IsClosureOf(files: seq<File>, begin: Option<UserKey>, end: Option<UserKey>, start: seq<File>) {
    exists b, e :: start == OverlappingFiles(files, b, e) && LeastClosure(files, begin, end, start, b, e)
  }

  /** The part of CompactRange that avoids compacting too much in one shot. */
  method CutShot(files: seq<File>, all: seq<File>, maxFileSize: nat) returns (inputs: seq<File>)
    requires IsRun(files, all) && all != []
    ensures IsRun(files, inputs) && IsOneShot(all, maxFileSize, inputs)
  {
    hide IsRun;
    inputs := all;
    var total := 0;
    for i := 0 to |all|
      invariant total == TotalFileSize(all[..i])
      invariant forall n :: 0 < n <= i ==> TotalFileSize(all[..n]) < maxFileSize
    {
      assert all[..i + 1] == all[..i] + [all[i]];
      TotalSnoc(all[..i], all[i]);
      total := total + all[i].size;
      if total >= maxFileSize {
        TruncatedRun(files, all, i + 1);
        inputs := all[..i + 1];
        return;
      }
    }
  }

  lemma ClosureInRange(files: seq<File>, inputs: seq<File>, lo: InternalKey, hi: InternalKey, overlapping: seq<File>,
      b: Option<UserKey>, e: Option<UserKey>)
    requires IsSmallestKey(inputs, lo) && IsLargestKey(inputs, hi) && overlapping == OverlappingFiles(files, b, e)
    requires LeastClosure(files, Some(lo.user), Some(hi.user), overlapping, b, e)
    ensures IsInRangeOf(files, 0, inputs, overlapping)
  {
    hide LeastClosure, IsSmallestKey, IsLargestKey;
    forall l, h | IsSmallestKey(inputs, l) && IsLargestKey(inputs, h) ensures l == lo && h == hi {
      RangeIsUnique(inputs, l, lo);
      RangeIsUnique(inputs, h, hi);
    }
  }

  lemma SomethingOverlaps(files: seq<File>, level: nat, begin: Option<UserKey>, end: Option<UserKey>,
                          inputs: seq<File>, b: Option<UserKey>, e: Option<UserKey>)
    requires inputs == OverlappingFiles(files, b, e)
    requires level > 0 ==> b == begin && e == end
    requires level == 0 ==> LeastClosure(files, begin, end, inputs, b, e)
    ensures inputs == [] <==> forall f :: f in files ==> !Overlaps(f, begin, end)
  {
    if level == 0 && forall f :: f in files ==> !Overlaps(f, begin, end) {
      assert OverlapClosed(files, begin, end, {});
    }
    assert inputs != [] ==> inputs[0] in inputs;
  }

  lemma TruncatedRun(files: seq<File>, inputs: seq<File>, n: nat)
    requires IsRun(files, inputs) && n <= |inputs|
    ensures IsRun(files, inputs[..n])
  {
    var lo, hi :| 0 <= lo <= hi <= |files| && inputs == files[lo..hi];
    assert inputs[..n] == files[lo..lo + n];
  }
}
