/** Choosing the files of a compaction: overlap closure, boundary files, and
    growing the upper inputs. */
module InputSelection {
  import opened InternalKeys
  import opened Versions

  // ---- files overlapping a range of user keys ----

  function OverlappingFiles(files: seq<File>, begin: Option<UserKey>, end: Option<UserKey>): (r: seq<File>)
    ensures forall f :: f in r <==> f in files && Overlaps(f, begin, end)
  {
    if files == [] then []
    else if Overlaps(files[0], begin, end) then [files[0]] + OverlappingFiles(files[1..], begin, end)
    else OverlappingFiles(files[1..], begin, end)
  }

  lemma OverlapNone(begin: Option<UserKey>, end: Option<UserKey>)
    ensures OverlappingFiles([], begin, end) == []
  {
  }

  lemma OverlappingSnoc(files: seq<File>, f: File, begin: Option<UserKey>, end: Option<UserKey>)
    ensures OverlappingFiles(files + [f], begin, end) ==
            OverlappingFiles(files, begin, end) + if Overlaps(f, begin, end) then [f] else []
  {
    if files == [] {
      assert files + [f] == [f];
    } else {
      assert (files + [f])[1..] == files[1..] + [f];
      OverlappingSnoc(files[1..], f, begin, end);
    }
  }

  predicate RangesOverlap(f: File, g: File) {
    Overlaps(f, Some(Smallest(g).user), Some(Largest(g).user))
  }

  predicate Within(f: File, begin: Option<UserKey>, end: Option<UserKey>) {
    && (begin.Some? ==> begin.value <= Smallest(f).user)
    && (end.Some? ==> Largest(f).user <= end.value)
  }

  /** No file sticks out of the range on either side. */
  ghost predicate ClosedRange(files: seq<File>, begin: Option<UserKey>, end: Option<UserKey>) {
    forall f :: f in files && Overlaps(f, begin, end) ==> Within(f, begin, end)
  }

  /** T holds every file that meets the range, and every file that shares a
      user key with one it holds. */
  ghost predicate OverlapClosed(files: seq<File>, begin: Option<UserKey>, end: Option<UserKey>, T: set<File>) {
    && (forall f :: f in files && Overlaps(f, begin, end) ==> f in T)
    && (forall f, g :: f in files && g in files && g in T && RangesOverlap(f, g) ==> f in T)
  }

  predicate InRange(u: UserKey, begin: Option<UserKey>, end: Option<UserKey>) {
    (begin.Some? ==> begin.value <= u) && (end.Some? ==> u <= end.value)
  }

  lemma OverlapIsCommonKey(f: File, begin: Option<UserKey>, end: Option<UserKey>)
    requires begin.Some? && end.Some? ==> begin.value <= end.value
    ensures Overlaps(f, begin, end) <==>
        exists user :: InRange(user, begin, end) && Smallest(f).user <= user <= Largest(f).user
  {
    EntriesInRange(f, f.entries[0]);
    var user := if begin.Some? && begin.value > Smallest(f).user then begin.value else Smallest(f).user;
    assert Overlaps(f, begin, end) ==> InRange(user, begin, end) && Smallest(f).user <= user <= Largest(f).user;
  }

  /** Every point of the grown range lies in the original one or in a file of T. */
  ghost predicate Covered(files: seq<File>, T: set<File>, begin: Option<UserKey>, end: Option<UserKey>,
                          wideBegin: Option<UserKey>, wideEnd: Option<UserKey>)
  {
    forall u :: InRange(u, wideBegin, wideEnd) ==>
      InRange(u, begin, end) || exists t :: t in T && t in files && Smallest(t).user <= u <= Largest(t).user
  }

  ghost function SmallerStarts(files: seq<File>, begin: Option<UserKey>): set<File> {
    set f | f in files && begin.Some? && Smallest(f).user < begin.value
  }

  ghost function LargerEnds(files: seq<File>, end: Option<UserKey>): set<File> {
    set f | f in files && end.Some? && Largest(f).user > end.value
  }

  predicate Wider(begin: Option<UserKey>, end: Option<UserKey>, wideBegin: Option<UserKey>, wideEnd: Option<UserKey>) {
    && (wideBegin.Some? <==> begin.Some?) && (wideBegin.Some? ==> wideBegin.value <= begin.value)
    && (wideEnd.Some? <==> end.Some?) && (wideEnd.Some? ==> wideEnd.value >= end.value)
  }

  /** What the scan knows of its current range: it contains the original one
      and reaches no further than every closed set of files does. */
  ghost predicate Grown(files: seq<File>, begin: Option<UserKey>, end: Option<UserKey>,
                        wideBegin: Option<UserKey>, wideEnd: Option<UserKey>)
  {
    && Wider(begin, end, wideBegin, wideEnd)
    && ((wideBegin == begin && wideEnd == end) || wideBegin.None? || wideEnd.None? || wideBegin.value <= wideEnd.value)
    && forall T :: OverlapClosed(files, begin, end, T) ==> Covered(files, T, begin, end, wideBegin, wideEnd)
  }

  lemma ReachedIsNeeded(files: seq<File>, T: set<File>, begin: Option<UserKey>, end: Option<UserKey>,
                        wideBegin: Option<UserKey>, wideEnd: Option<UserKey>, f: File)
    requires OverlapClosed(files, begin, end, T)
    requires Grown(files, begin, end, wideBegin, wideEnd)
    requires f in files && Overlaps(f, wideBegin, wideEnd)
    ensures f in T
  {
    EntriesInRange(f, f.entries[0]);
    if !(wideBegin == begin && wideEnd == end) {
      var u := if wideBegin.Some? && wideBegin.value > Smallest(f).user then wideBegin.value else Smallest(f).user;
      assert InRange(u, wideBegin, wideEnd);
      if InRange(u, begin, end) {
        assert Overlaps(f, begin, end);
      } else {
        var t :| t in T && t in files && Smallest(t).user <= u <= Largest(t).user;
        assert RangesOverlap(f, t);
      }
    }
  }

  lemma GrownIsWider(files: seq<File>, begin: Option<UserKey>, end: Option<UserKey>, wideBegin: Option<UserKey>,
      wideEnd: Option<UserKey>)
    requires Grown(files, begin, end, wideBegin, wideEnd)
    ensures Wider(begin, end, wideBegin, wideEnd)
  {
  }

  lemma GrownAtFirst(files: seq<File>, begin: Option<UserKey>, end: Option<UserKey>)
    ensures Grown(files, begin, end, begin, end)
  {
  }

  lemma GrowRange(files: seq<File>, begin: Option<UserKey>, end: Option<UserKey>,
                  wideBegin: Option<UserKey>, wideEnd: Option<UserKey>, f: File,
                  newBegin: Option<UserKey>, newEnd: Option<UserKey>)
    requires Grown(files, begin, end, wideBegin, wideEnd)
    requires f in files && Overlaps(f, wideBegin, wideEnd)
    requires || (wideBegin.Some? && Smallest(f).user < wideBegin.value && newBegin == Some(Smallest(f).user)
        && newEnd == wideEnd)
             || (wideEnd.Some? && Largest(f).user > wideEnd.value && newEnd == Some(Largest(f).user)
                 && newBegin == wideBegin
                 && (wideBegin.Some? ==> Smallest(f).user >= wideBegin.value))
    ensures Grown(files, begin, end, newBegin, newEnd)
  {
    EntriesInRange(f, f.entries[0]);
    forall T | OverlapClosed(files, begin, end, T)
      ensures Covered(files, T, begin, end, newBegin, newEnd)
    {
      ReachedIsNeeded(files, T, begin, end, wideBegin, wideEnd, f);
      forall u | InRange(u, newBegin, newEnd) && !InRange(u, begin, end)
        ensures exists t :: t in T && t in files && Smallest(t).user <= u <= Largest(t).user
      {
        if InRange(u, wideBegin, wideEnd) {
          assert Covered(files, T, begin, end, wideBegin, wideEnd);
        } else {
          assert f in T && Smallest(f).user <= u <= Largest(f).user;
        }
      }
    }
  }

  /** Within [wideBegin, wideEnd], the files that overlap [begin, end] or are
      linked to it through shared user keys: closed, and least such. */
  ghost predicate LeastClosure(files: seq<File>, begin: Option<UserKey>, end: Option<UserKey>, inputs: seq<File>,
                               wideBegin: Option<UserKey>, wideEnd: Option<UserKey>)
  {
    && ClosedRange(files, wideBegin, wideEnd)
    && Covered(files, (set f | f in inputs), begin, end, wideBegin, wideEnd)
    && OverlapClosed(files, begin, end, (set f | f in inputs))
    && forall T :: OverlapClosed(files, begin, end, T) ==> (forall f :: f in inputs ==> f in T)
  }

  /** Version::GetOverlappingInputs.  On level 0 a file that widens the range
      restarts the scan; the result is then the least set of files closed
      under sharing user keys. */
  method GetOverlappingInputs(files: seq<File>, level: nat, begin: Option<UserKey>, end: Option<UserKey>)
    returns (inputs: seq<File>, userBegin: Option<UserKey>, userEnd: Option<UserKey>)
    ensures inputs == OverlappingFiles(files, userBegin, userEnd)
    ensures level > 0 ==> userBegin == begin && userEnd == end
    ensures Wider(begin, end, userBegin, userEnd)
    ensures level == 0 ==> LeastClosure(files, begin, end, inputs, userBegin, userEnd)
  {
    inputs, userBegin, userEnd := [], begin, end;
    GrownAtFirst(files, begin, end);
    hide Grown, OverlapClosed, Covered, SmallerStarts, LargerEnds, Overlaps, OverlappingFiles;
    OverlapNone(userBegin, userEnd);
    var i := 0;
    while i < |files|
      invariant 0 <= i <= |files|
      invariant inputs == OverlappingFiles(files[..i], userBegin, userEnd)
      invariant level > 0 ==> userBegin == begin && userEnd == end
      invariant level == 0 ==> forall f ::
          f in files[..i] && Overlaps(f, userBegin, userEnd) ==> Within(f, userBegin, userEnd)
      invariant Grown(files, begin, end, userBegin, userEnd)
      decreases SmallerStarts(files, userBegin), LargerEnds(files, userEnd), |files| - i
    {
      var f := files[i];
      assert files[..i + 1] == files[..i] + [f];
      OverlappingSnoc(files[..i], f, userBegin, userEnd);
      i := i + 1;
      if !Overlaps(f, userBegin, userEnd) {
        continue;
      }
      inputs := inputs + [f];
      if level == 0 {
        var restart, b, e := Widen(files, begin, end, userBegin, userEnd, f);
        if restart {
          userBegin, userEnd, inputs, i := b, e, [], 0;
          OverlapNone(userBegin, userEnd);
        }
      }
    }
    assert files[..i] == files;
    GrownIsWider(files, begin, end, userBegin, userEnd);
    if level == 0 {
      assert ClosedRange(files, userBegin, userEnd);
      ClosureIsLeast(files, begin, end, userBegin, userEnd);
    }
  }

  /** Level-0 files may overlap each other: a file that sticks out of the range
      expands it. */
  method Widen(files: seq<File>, ghost begin: Option<UserKey>, ghost end: Option<UserKey>,
               userBegin: Option<UserKey>, userEnd: Option<UserKey>, f: File)
    returns (restart: bool, b: Option<UserKey>, e: Option<UserKey>)
    requires Grown(files, begin, end, userBegin, userEnd)
    requires f in files && Overlaps(f, userBegin, userEnd)
    ensures Grown(files, begin, end, b, e)
    ensures restart <==> !Within(f, userBegin, userEnd)
    ensures !restart ==> b == userBegin && e == userEnd
    ensures restart ==>
      || SmallerStarts(files, b) < SmallerStarts(files, userBegin)
      || (b == userBegin && LargerEnds(files, e) < LargerEnds(files, userEnd))
  {
    restart, b, e := false, userBegin, userEnd;
    if userBegin.Some? && Smallest(f).user < userBegin.value {
      restart, b := true, Some(Smallest(f).user);
      GrowRange(files, begin, end, userBegin, userEnd, f, b, e);
      assert f in SmallerStarts(files, userBegin) && f !in SmallerStarts(files, b);
    } else if userEnd.Some? && Largest(f).user > userEnd.value {
      restart, e := true, Some(Largest(f).user);
      GrowRange(files, begin, end, userBegin, userEnd, f, b, e);
      assert f in LargerEnds(files, userEnd) && f !in LargerEnds(files, e);
    }
  }

  lemma ClosureIsLeast(files: seq<File>, begin: Option<UserKey>, end: Option<UserKey>,
                       wideBegin: Option<UserKey>, wideEnd: Option<UserKey>)
    requires Grown(files, begin, end, wideBegin, wideEnd)
    requires ClosedRange(files, wideBegin, wideEnd)
    ensures LeastClosure(files, begin, end, OverlappingFiles(files, wideBegin, wideEnd), wideBegin, wideEnd)
  {
    var inputs := OverlappingFiles(files, wideBegin, wideEnd);
    forall T, f | OverlapClosed(files, begin, end, T) && f in inputs ensures f in T {
      ReachedIsNeeded(files, T, begin, end, wideBegin, wideEnd, f);
    }
    forall f, g | f in files && g in inputs && RangesOverlap(f, g) ensures f in inputs {
      assert Within(g, wideBegin, wideEnd);
    }
  }

  // ---- files without a gap ----

  /** Every user key between two of the files lies in the range of one of them. */
  ghost predicate Connected(files: seq<File>) {
    forall f, g, u :: f in files && g in files && Smallest(f).user <= u <= Largest(g).user ==> CoveredBy(files, u)
  }

  ghost predicate CoveredBy(files: seq<File>, u: UserKey) {
    exists h :: h in files && Smallest(h).user <= u <= Largest(h).user
  }

  /** g reaches into the hull of the files. */
  ghost predicate Touches(g: File, files: seq<File>) {
    && (exists f :: f in files && Smallest(f).user <= Largest(g).user)
    && (exists f :: f in files && Smallest(g).user <= Largest(f).user)
  }

  lemma ConnectedUnion(a: seq<File>, b: seq<File>)
    requires Connected(a) && forall g :: g in b ==> Touches(g, a)
    ensures Connected(a + b)
  {
    forall f, g, u | f in a + b && g in a + b && Smallest(f).user <= u <= Largest(g).user ensures CoveredBy(a + b, u) {
      if f !in a && forall x :: x in a ==> u < Smallest(x).user {
        assert f in a + b && Smallest(f).user <= u <= Largest(f).user;
      } else if g !in a && forall x :: x in a ==> Largest(x).user < u {
        assert g in a + b && Smallest(g).user <= u <= Largest(g).user;
      } else {
        BetweenMembers(a, b, f, g, u);
      }
    }
  }

  lemma BetweenMembers(a: seq<File>, b: seq<File>, f: File, g: File, u: UserKey)
    requires Connected(a) && f in a + b && g in a + b && Smallest(f).user <= u <= Largest(g).user
    requires f in a || exists x :: x in a && Smallest(x).user <= u
    requires g in a || exists x :: x in a && u <= Largest(x).user
    ensures CoveredBy(a + b, u)
  {
    var x := if f in a then f else var x :| x in a && Smallest(x).user <= u; x;
    var y := if g in a then g else var y :| y in a && u <= Largest(y).user; y;
    assert CoveredBy(a, u);
    var h :| h in a && Smallest(h).user <= u <= Largest(h).user;
    assert h in a + b;
  }

  lemma ConnectedSameFiles(a: seq<File>, b: seq<File>)
    requires Connected(a) && forall f :: f in a <==> f in b
    ensures Connected(b)
  {
    forall f, g, u | f in b && g in b && Smallest(f).user <= u <= Largest(g).user ensures CoveredBy(b, u) {
      assert CoveredBy(a, u);
    }
  }

  // ---- boundary files ----

  method FindLargestKey(files: seq<File>) returns (largest: InternalKey)
    requires |files| > 0
    ensures IsLargestKey(files, largest)
  {
    largest := Largest(files[0]);
    for i := 1 to |files|
      invariant exists j :: 0 <= j < i && Largest(files[j]) == largest
      invariant forall j :: 0 <= j < i ==> AtMost(Largest(files[j]), largest)
    {
      CompareIsLexicographic(Largest(files[i]), largest);
      if Compare(Largest(files[i]), largest) > 0 {
        largest := Largest(files[i]);
      }
    }
  }

  ghost predicate IsLargestKey(files: seq<File>, largest: InternalKey) {
    && (exists j :: 0 <= j < |files| && Largest(files[j]) == largest)
    && forall j :: 0 <= j < |files| ==> AtMost(Largest(files[j]), largest)
  }

  ghost predicate IsSmallestKey(files: seq<File>, smallest: InternalKey) {
    && (exists j :: 0 <= j < |files| && Smallest(files[j]) == smallest)
    && forall j :: 0 <= j < |files| ==> AtMost(smallest, Smallest(files[j]))
  }

  /** f continues the user key that `largest` ends on. */
  predicate IsBoundary(f: File, largest: InternalKey) {
    Less(largest, Smallest(f)) && Smallest(f).user == largest.user
  }

  method FindSmallestBoundaryFile(levelFiles: seq<File>, largest: InternalKey) returns (r: Option<File>)
    ensures r.None? <==> forall f :: f in levelFiles ==> !IsBoundary(f, largest)
    ensures r.Some? ==> r.value in levelFiles && IsBoundary(r.value, largest)
    ensures r.Some? ==> forall f :: f in levelFiles && IsBoundary(f, largest) ==> AtMost(Smallest(r.value), Smallest(f))
  {
    r := None;
    for i := 0 to |levelFiles|
      invariant r.None? ==> forall f :: f in levelFiles[..i] ==> !IsBoundary(f, largest)
      invariant r.Some? ==> r.value in levelFiles && IsBoundary(r.value, largest)
      invariant r.Some? ==> forall f ::
          f in levelFiles[..i] && IsBoundary(f, largest) ==> AtMost(Smallest(r.value), Smallest(f))
    {
      var f := levelFiles[i];
      CompareIsLexicographic(Smallest(f), largest);
      if Compare(Smallest(f), largest) > 0 && Smallest(f).user == largest.user {
        if r.Some? { CompareIsLexicographic(Smallest(f), Smallest(r.value)); }
        if r.None? || Compare(Smallest(f), Smallest(r.value)) < 0 {
          r := Some(f);
        }
      }
    }
  }

  ghost predicate NoBoundaryLeft(files: seq<File>, inputs: seq<File>) {
    forall largest, f :: IsLargestKey(inputs, largest) && f in files ==> !IsBoundary(f, largest)
  }

  /** Of the files that continue the user key the inputs end on, f comes first. */
  ghost predicate IsNextBoundary(files: seq<File>, inputs: seq<File>, f: File) {
    && f in files
    && exists largest :: IsLargestKey(inputs, largest) && IsBoundary(f, largest)
        && forall g :: g in files && IsBoundary(g, largest) ==> AtMost(Smallest(f), Smallest(g))
  }

  /** r is the inputs and one boundary file after the other, until there is none. */
  ghost predicate IsBoundaryClosure(files: seq<File>, inputs: seq<File>, r: seq<File>) {
    && inputs <= r && NoBoundaryLeft(files, r)
    && forall k :: |inputs| <= k < |r| ==> IsNextBoundary(files, r[..k], r[k])
  }

  /** A stretch of consecutive files of a level. */
  ghost predicate IsRun(files: seq<File>, inputs: seq<File>) {
    exists lo, hi :: 0 <= lo <= hi <= |files| && inputs == files[lo..hi]
  }

  /** AddBoundaryInputs ends with no file left that continues the user key of
      the largest input; it keeps a run of a sorted level a run and adds
      nothing to inputs that already have no boundary file. */
  method AddBoundaryInputs(levelFiles: seq<File>, compactionFiles: seq<File>) returns (r: seq<File>)
    ensures compactionFiles == [] ==> r == []
    ensures compactionFiles <= r
    ensures forall f :: f in r ==> f in levelFiles || f in compactionFiles
    ensures IsBoundaryClosure(levelFiles, compactionFiles, r)
    ensures LevelSorted(levelFiles) && IsRun(levelFiles, compactionFiles) ==> IsRun(levelFiles, r)
    ensures (forall largest, f :: IsLargestKey(compactionFiles, largest) && f in levelFiles ==> !IsBoundary(f, largest))
        ==> r == compactionFiles
    ensures forall others :: Connected(others + compactionFiles) ==> Connected(others + r)
  {
    hide Connected, LevelSorted, IsRun;
    r := compactionFiles;
    if r == [] {
      return;
    }
    var largest := FindLargestKey(r);
    var continueSearching := true;
    while continueSearching
      invariant compactionFiles <= r
      invariant IsLargestKey(r, largest)
      invariant forall k :: |compactionFiles| <= k < |r| ==> IsNextBoundary(levelFiles, r[..k], r[k])
      invariant forall f :: f in r ==> f in levelFiles || f in compactionFiles
      invariant LevelSorted(levelFiles) && IsRun(levelFiles, compactionFiles) ==> IsRun(levelFiles, r)
      invariant !continueSearching ==> forall f :: f in levelFiles ==> !IsBoundary(f, largest)
      invariant (forall l, f :: IsLargestKey(compactionFiles, l) && f in levelFiles ==> !IsBoundary(f, l))
          ==> r == compactionFiles
      invariant forall others :: Connected(others + compactionFiles) ==> Connected(others + r)
      decreases continueSearching, set f | f in levelFiles && Less(largest, Smallest(f))
    {
      var b := FindSmallestBoundaryFile(levelFiles, largest);
      if b.Some? {
        EntriesInRange(b.value, b.value.entries[0]);
        if LevelSorted(levelFiles) && IsRun(levelFiles, r) {
          BoundaryExtendsRun(levelFiles, r, largest, b.value);
        }
        ghost var before := set f | f in levelFiles && Less(largest, Smallest(f));
        ghost var after := set f | f in levelFiles && Less(Largest(b.value), Smallest(f));
        assert after <= before && b.value in before && b.value !in after;
        LargestWithNewFile(r, largest, b.value);
        forall others | Connected(others + r) ensures Connected(others + (r + [b.value])) {
          BoundaryTouches(others, r, largest, b.value);
        }
        NextBoundaryAdded(levelFiles, compactionFiles, r, b.value);
        r := r + [b.value];
        largest := Largest(b.value);
      } else {
        continueSearching := false;
      }
    }
    forall l | IsLargestKey(r, l) ensures l == largest {
      LargestIsUnique(r, l, largest);
    }
  }

  lemma NextBoundaryAdded(files: seq<File>, inputs: seq<File>, r: seq<File>, b: File)
    requires inputs <= r && IsNextBoundary(files, r, b)
    requires forall k :: |inputs| <= k < |r| ==> IsNextBoundary(files, r[..k], r[k])
    ensures forall k :: |inputs| <= k < |r + [b]| ==> IsNextBoundary(files, (r + [b])[..k], (r + [b])[k])
  {
    hide IsNextBoundary;
    forall k | |inputs| <= k < |r + [b]| ensures IsNextBoundary(files, (r + [b])[..k], (r + [b])[k]) {
      assert (r + [b])[..k] == r[..k];
      assert r[..|r|] == r;
    }
  }

  lemma BoundaryTouches(others: seq<File>, inputs: seq<File>, largest: InternalKey, b: File)
    requires Connected(others + inputs) && IsLargestKey(inputs, largest) && IsBoundary(b, largest)
    ensures Connected(others + (inputs + [b]))
  {
    hide Connected;
    var j :| 0 <= j < |inputs| && Largest(inputs[j]) == largest;
    EntriesInRange(inputs[j], inputs[j].entries[0]);
    EntriesInRange(b, b.entries[0]);
    assert inputs[j] in others + inputs;
    assert Touches(b, others + inputs);
    ConnectedUnion(others + inputs, [b]);
    assert others + (inputs + [b]) == (others + inputs) + [b];
  }

  lemma LargestIsUnique(files: seq<File>, a: InternalKey, b: InternalKey)
    requires IsLargestKey(files, a) && IsLargestKey(files, b)
    ensures a == b
  {
  }

  lemma LargestWithNewFile(files: seq<File>, largest: InternalKey, f: File)
    requires IsLargestKey(files, largest) && Less(largest, Smallest(f))
    ensures IsLargestKey(files + [f], Largest(f))
  {
    EntriesInRange(f, f.entries[0]);
    assert (files + [f])[|files|] == f;
  }

  lemma BoundaryExtendsRun(levelFiles: seq<File>, inputs: seq<File>, largest: InternalKey, b: File)
    requires LevelSorted(levelFiles) && IsRun(levelFiles, inputs) && IsLargestKey(inputs, largest)
    requires b in levelFiles && IsBoundary(b, largest)
    requires forall f :: f in levelFiles && IsBoundary(f, largest) ==> AtMost(Smallest(b), Smallest(f))
    ensures IsRun(levelFiles, inputs + [b])
  {
    var lo, hi :| 0 <= lo <= hi <= |levelFiles| && inputs == levelFiles[lo..hi];
    LargestOfRun(levelFiles, lo, hi, largest);
    BoundaryIsNext(levelFiles, hi, b);
    SliceSnoc(levelFiles, lo, hi);
    assert inputs + [b] == levelFiles[lo..hi + 1];
  }

  lemma BoundaryIsNext(files: seq<File>, hi: nat, b: File)
    requires LevelSorted(files) && 0 < hi <= |files|
    requires b in files && IsBoundary(b, Largest(files[hi - 1]))
    requires forall f :: f in files && IsBoundary(f, Largest(files[hi - 1])) ==> AtMost(Smallest(b), Smallest(f))
    ensures hi < |files| && files[hi] == b
  {
    var m :| 0 <= m < |files| && files[m] == b;
    if m < hi {
      FilesInOrder(files, m, hi - 1);
    } else {
      FilesInOrder(files, hi - 1, hi);
      FilesInOrder(files, hi, m);
      assert IsBoundary(files[hi], Largest(files[hi - 1]));
    }
  }

  lemma SliceSnoc<T>(s: seq<T>, lo: nat, hi: nat)
    requires lo <= hi < |s|
    ensures s[lo..hi] + [s[hi]] == s[lo..hi + 1]
  {
  }

  lemma SliceOfTail<T>(s: seq<T>, lo: nat, hi: nat)
    requires lo <= hi < |s|
    ensures s[1..][lo..hi] == s[lo + 1..hi + 1]
    ensures [s[0]] + s[1..][0..hi] == s[0..hi + 1]
  {
  }

  /** What sortedness says of two files of a level, by position. */
  lemma FilesInOrder(files: seq<File>, i: nat, j: nat)
    requires LevelSorted(files) && i <= j < |files|
    ensures AtMost(Smallest(files[i]), Largest(files[i]))
    ensures i < j ==> Less(Largest(files[i]), Smallest(files[j]))
    ensures AtMost(Smallest(files[i]), Smallest(files[j])) && AtMost(Largest(files[i]), Largest(files[j]))
    ensures AtMost(Smallest(files[i]), Largest(files[j]))
    ensures i < j ==> files[i] != files[j]
  {
    EntriesInRange(files[i], files[i].entries[0]);
    EntriesInRange(files[j], files[j].entries[0]);
  }

  lemma LargestOfRun(files: seq<File>, lo: nat, hi: nat, largest: InternalKey)
    requires LevelSorted(files) && lo <= hi <= |files| && IsLargestKey(files[lo..hi], largest)
    ensures lo < hi && largest == Largest(files[hi - 1])
  {
    var j :| 0 <= j < hi - lo && Largest(files[lo..hi][j]) == largest;
    FilesInOrder(files, lo + j, hi - 1);
    assert files[lo..hi][hi - 1 - lo] == files[hi - 1];
  }

  lemma OverlapIsRun(files: seq<File>, begin: Option<UserKey>, end: Option<UserKey>)
    requires LevelSorted(files)
    ensures IsRun(files, OverlappingFiles(files, begin, end))
  {
    if files == [] {
      assert OverlappingFiles(files, begin, end) == files[0..0];
    } else {
      OverlapIsRun(files[1..], begin, end);
      var lo, hi :| 0 <= lo <= hi < |files| && OverlappingFiles(files[1..], begin, end) == files[1..][lo..hi];
      SliceOfTail(files, lo, hi);
      if !Overlaps(files[0], begin, end) {
        assert OverlappingFiles(files, begin, end) == files[lo + 1..hi + 1];
      } else if lo == hi {
        assert OverlappingFiles(files, begin, end) == files[0..1];
      } else {
        FirstFollows(files, lo, hi, begin, end);
        assert OverlappingFiles(files, begin, end) == files[0..hi + 1];
      }
    }
  }

  lemma FirstFollows(files: seq<File>, lo: nat, hi: nat, begin: Option<UserKey>, end: Option<UserKey>)
    requires LevelSorted(files) && lo < hi < |files|
    requires OverlappingFiles(files[1..], begin, end) == files[1..][lo..hi]
    requires Overlaps(files[0], begin, end)
    ensures lo == 0
  {
    var rest := files[1..];
    if lo > 0 {
      assert rest[lo..hi][0] == rest[lo];
      assert Overlaps(rest[lo], begin, end);
      FilesInOrder(files, 0, 1);
      FilesInOrder(files, 1, lo + 1);
      assert false;
    }
  }
}
