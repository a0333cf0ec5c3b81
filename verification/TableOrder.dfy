/** A table as a list of blocks with separating index keys, and why looking a key
    up through the index agrees with searching all pairs. */
module TableOrder {
  import opened Coding
  import opened ByteOrder
  import opened BlockFormat
  import BlockIter

  type Segments = seq<seq<Item>>

  /** All pairs, block after block. */
  function FlatPairs(segs: Segments): seq<Pair> {
    if segs == [] then [] else FlatPairs(segs[..|segs| - 1]) + PairsOf(segs[|segs| - 1])
  }

  ghost predicate PairsAscending(pairs: seq<Pair>) {
    forall i, j :: 0 <= i < j < |pairs| ==> CompareInternal(pairs[i].key, pairs[j].key) < 0
  }

  /** The first pair at or after the target, if it is of the target's user key:
      what a lookup is to find. */
  function TableAnswer(pairs: seq<Pair>, target: seq<byte>): Maybe<Pair> {
    if pairs == [] then Nothing
    else if CompareInternal(pairs[0].key, target) < 0 then TableAnswer(pairs[1..], target)
    else if User(pairs[0].key) == User(target) then Just(pairs[0]) else Nothing
  }

  ghost predicate NoneEmpty(segs: Segments) {
    forall j :: 0 <= j < |segs| ==> segs[j] != []
  }

  function First(seg: seq<Item>): seq<byte>
    requires seg != []
  {
    Key(seg, 0)
  }

  function Last(seg: seq<Item>): seq<byte>
    requires seg != []
  {
    Key(seg, |seg| - 1)
  }

  /** Index key j lies at or after block j's last key and before block j + 1's
      first, and if it is not that last key it is of a user key in between. */
  ghost predicate SepFits(segs: Segments, sep: seq<byte>, j: nat)
    requires j < |segs| && NoneEmpty(segs)
  {
    && Shortened(Last(segs[j]), sep) && CompareInternal(Last(segs[j]), sep) <= 0
    && (j + 1 < |segs| ==>
          && CompareInternal(sep, First(segs[j + 1])) < 0
          && (sep != Last(segs[j]) ==> Compare(User(sep), User(First(segs[j + 1]))) < 0))
  }

  ghost predicate SepsFit(segs: Segments, seps: seq<seq<byte>>) {
    |seps| <= |segs| && NoneEmpty(segs) && forall j :: 0 <= j < |seps| ==> SepFits(segs, seps[j], j)
  }

  // ---- the order of internal keys ----

  lemma InternalIsOrder()
    ensures BlockIter.IsOrder(CompareInternal)
  {
    hide CompareInternal;
    forall a, b ensures CompareInternal(a, b) < 0 <==> CompareInternal(b, a) > 0 {
      InternalMirrors(a, b);
    }
    forall a, b, c | CompareInternal(a, b) < 0 && CompareInternal(b, c) <= 0 ensures CompareInternal(a, c) < 0 {
      InternalChains(a, b, c);
    }
  }

  // ---- flattening ----

  lemma FlatSnoc(segs: Segments, seg: seq<Item>)
    ensures FlatPairs(segs + [seg]) == FlatPairs(segs) + PairsOf(seg)
  {
    assert (segs + [seg])[..|segs|] == segs;
  }

  lemma PairsSnoc(seg: seq<Item>, x: Item)
    ensures PairsOf(seg + [x]) == PairsOf(seg) + [x.pair]
  {
    assert (seg + [x])[..|seg|] == seg;
  }

  /** Block j's pairs lie together. */
  lemma {:induction false} SegmentInFlat(segs: Segments, j: nat)
    requires j < |segs|
    ensures |FlatPairs(segs[..j + 1])| == |FlatPairs(segs[..j])| + |segs[j]| <= |FlatPairs(segs)|
    ensures FlatPairs(segs)[..|FlatPairs(segs[..j])|] == FlatPairs(segs[..j])
    ensures FlatPairs(segs)[|FlatPairs(segs[..j])|..|FlatPairs(segs[..j + 1])|] == PairsOf(segs[j])
    decreases |segs|
  {
    hide PairsOf;
    var n := |segs| - 1;
    assert segs[..j + 1][..j] == segs[..j] && segs[..j + 1][j] == segs[j];
    if j == n {
      assert segs[..j + 1] == segs;
    } else {
      var front := segs[..n];
      SegmentInFlat(front, j);
      assert front[..j] == segs[..j] && front[..j + 1] == segs[..j + 1] && front[j] == segs[j];
    }
  }

  lemma SegmentAt(segs: Segments, j: nat, i: nat)
    requires j < |segs| && i < |segs[j]|
    ensures |FlatPairs(segs[..j])| + i < |FlatPairs(segs[..j + 1])| <= |FlatPairs(segs)|
    ensures FlatPairs(segs)[|FlatPairs(segs[..j])| + i] == segs[j][i].pair
  {
    hide FlatPairs;
    SegmentInFlat(segs, j);
    var all, o, e := FlatPairs(segs), |FlatPairs(segs[..j])|, |FlatPairs(segs[..j + 1])|;
    assert all[o + i] == all[o..e][i] == PairsOf(segs[j])[i];
  }

  /** So their keys are in order. */
  lemma SegmentAscends(segs: Segments, j: nat)
    requires PairsAscending(FlatPairs(segs)) && j < |segs|
    ensures BlockIter.Ascending(CompareInternal, segs[j])
  {
    hide CompareInternal, FlatPairs, PairsOf;
    forall i, k | 0 <= i < k < |segs[j]| ensures CompareInternal(Key(segs[j], i), Key(segs[j], k)) < 0 {
      SegmentAt(segs, j, i);
      SegmentAt(segs, j, k);
    }
  }

  // ---- the answer, block by block ----

  lemma {:induction false} AnswerSkips(pairs: seq<Pair>, target: seq<byte>, n: nat)
    requires n <= |pairs| && forall i :: 0 <= i < n ==> CompareInternal(pairs[i].key, target) < 0
    ensures TableAnswer(pairs, target) == TableAnswer(pairs[n..], target)
  {
    hide CompareInternal;
    if n > 0 {
      AnswerSkips(pairs[1..], target, n - 1);
      assert pairs[1..][n - 1..] == pairs[n..];
    } else {
      assert pairs[0..] == pairs;
    }
  }

  /** Everything up to and including block j is before the target when its index
      key is. */
  lemma BeforeSeparator(segs: Segments, seps: seq<seq<byte>>, j: nat, target: seq<byte>, i: nat)
    requires PairsAscending(FlatPairs(segs)) && SepsFit(segs, seps) && j < |seps|
    requires CompareInternal(seps[j], target) < 0 && i < |FlatPairs(segs[..j + 1])|
    ensures i < |FlatPairs(segs)| && CompareInternal(FlatPairs(segs)[i].key, target) < 0
  {
    hide CompareInternal, Shortened;
    SegmentInFlat(segs, j);
    var all, e := FlatPairs(segs), |FlatPairs(segs[..j + 1])|;
    assert SepFits(segs, seps[j], j);
    var last := Last(segs[j]);
    assert all[e - 1] == PairsOf(segs[j])[|segs[j]| - 1];
    assert i < e - 1 ==> CompareInternal(all[i].key, all[e - 1].key) < 0;
    InternalMirrors(last, last);
    InternalChains(all[i].key, last, seps[j]);
    InternalChains(all[i].key, seps[j], target);
  }

  /** If the target is past block j but not past its index key, the next block
      begins with another user key. */
  lemma BetweenBlocks(segs: Segments, sep: seq<byte>, j: nat, target: seq<byte>)
    requires NoneEmpty(segs) && j + 1 < |segs| && SepFits(segs, sep, j)
    requires CompareInternal(Last(segs[j]), target) < 0 && CompareInternal(sep, target) >= 0
    ensures CompareInternal(First(segs[j + 1]), target) > 0 && User(First(segs[j + 1])) != User(target)
  {
    hide Compare, Tag, User;
    var last, next := Last(segs[j]), First(segs[j + 1]);
    InternalMirrors(sep, target);
    InternalChains(target, sep, next);
    InternalMirrors(target, next);
    if sep == last {
      InternalMirrors(last, target);
    }
    CompareMirrors(User(sep), User(target));
    CompareMirrors(User(next), User(sep));
    CompareChains(User(target), User(sep), User(next));
    CompareMirrors(User(target), User(next));
  }

  /** All pairs before the place the search in block j ends at. */
  lemma AllBefore(segs: Segments, seps: seq<seq<byte>>, j: nat, target: seq<byte>, r: nat, i: nat)
    requires PairsAscending(FlatPairs(segs)) && SepsFit(segs, seps) && |seps| == |segs| && j < |seps|
    requires j > 0 ==> CompareInternal(seps[j - 1], target) < 0
    requires r <= |segs[j]| && forall m :: 0 <= m < r ==> CompareInternal(Key(segs[j], m), target) < 0
    requires i < |FlatPairs(segs[..j])| + r
    ensures i < |FlatPairs(segs)| && CompareInternal(FlatPairs(segs)[i].key, target) < 0
  {
    hide CompareInternal, Shortened, FlatPairs, PairsOf, SepsFit, PairsAscending;
    var o := |FlatPairs(segs[..j])|;
    if i < o {
      assert j > 0 by { NothingBeforeFirst(segs, j); }
      assert segs[..j - 1 + 1] == segs[..j];
      BeforeSeparator(segs, seps, j - 1, target, i);
    } else {
      SegmentAt(segs, j, i - o);
      assert CompareInternal(Key(segs[j], i - o), target) < 0;
    }
  }

  lemma NothingBeforeFirst(segs: Segments, j: nat)
    requires j <= |segs| && |FlatPairs(segs[..j])| > 0
    ensures j > 0
  {
  }

  /** The answer is in the block the index points to, or there is none. */
  lemma AnswerInBlock(segs: Segments, seps: seq<seq<byte>>, j: nat, target: seq<byte>)
    requires PairsAscending(FlatPairs(segs)) && SepsFit(segs, seps) && |seps| == |segs| && j < |seps|
    requires j > 0 ==> CompareInternal(seps[j - 1], target) < 0
    requires CompareInternal(seps[j], target) >= 0
    ensures var r := BlockIter.FirstAtLeast(CompareInternal, segs[j], target, 0);
      TableAnswer(FlatPairs(segs), target) ==
        if r < |segs[j]| && User(Key(segs[j], r)) == User(target) then Just(segs[j][r].pair) else Nothing
  {
    hide CompareInternal, Shortened, FlatPairs, PairsOf, PairsAscending, User;
    var all, o := FlatPairs(segs), |FlatPairs(segs[..j])|;
    var r := BlockIter.FirstAtLeast(CompareInternal, segs[j], target, 0);
    SegmentInFlat(segs, j);
    forall i | 0 <= i < o + r ensures CompareInternal(all[i].key, target) < 0 {
      AllBefore(segs, seps, j, target, r, i);
    }
    AnswerSkips(all, target, o + r);
    if r < |segs[j]| {
      SegmentAt(segs, j, r);
    } else if j + 1 < |segs| {
      assert CompareInternal(Key(segs[j], |segs[j]| - 1), target) < 0;
      assert SepFits(segs, seps[j], j);
      BetweenBlocks(segs, seps[j], j, target);
      SegmentAt(segs, j + 1, 0);
    } else {
      assert segs[..j + 1] == segs;
    }
  }

  /** Past the last index key there is nothing. */
  lemma NoAnswer(segs: Segments, seps: seq<seq<byte>>, target: seq<byte>)
    requires PairsAscending(FlatPairs(segs)) && SepsFit(segs, seps) && |seps| == |segs|
    requires segs != [] ==> CompareInternal(seps[|seps| - 1], target) < 0
    ensures TableAnswer(FlatPairs(segs), target) == Nothing
  {
    hide CompareInternal, Shortened;
    var all := FlatPairs(segs);
    if segs != [] {
      assert segs[..|segs|] == segs;
      forall i | 0 <= i < |all| ensures CompareInternal(all[i].key, target) < 0 {
        BeforeSeparator(segs, seps, |seps| - 1, target, i);
      }
      AnswerSkips(all, target, |all|);
    }
  }

  // ---- the index keys are in order ----

  lemma SepsAscend(segs: Segments, seps: seq<seq<byte>>, j: nat)
    requires PairsAscending(FlatPairs(segs)) && SepsFit(segs, seps) && j + 1 < |seps|
    ensures CompareInternal(seps[j], seps[j + 1]) < 0
  {
    hide CompareInternal, Shortened;
    SegmentAscends(segs, j + 1);
    assert SepFits(segs, seps[j], j) && SepFits(segs, seps[j + 1], j + 1);
    var seg := segs[j + 1];
    InternalMirrors(First(seg), First(seg));
    assert |seg| > 1 ==> CompareInternal(Key(seg, 0), Key(seg, |seg| - 1)) < 0;
    InternalChains(First(seg), Last(seg), seps[j + 1]);
    InternalChains(seps[j], First(seg), seps[j + 1]);
  }

  lemma {:induction false} SepsAllAscend(segs: Segments, seps: seq<seq<byte>>, i: nat, j: nat)
    requires PairsAscending(FlatPairs(segs)) && SepsFit(segs, seps) && i < j < |seps|
    ensures CompareInternal(seps[i], seps[j]) < 0
  {
    hide CompareInternal, SepsFit, PairsAscending;
    assert |seps| <= |segs| by { SepsCount(segs, seps); }
    SepsAscend(segs, seps, j - 1);
    if i + 1 < j {
      SepsAllAscend(segs, seps, i, j - 1);
      InternalChains(seps[i], seps[j - 1], seps[j]);
    }
  }

  lemma SepsCount(segs: Segments, seps: seq<seq<byte>>)
    requires SepsFit(segs, seps)
    ensures |seps| <= |segs|
  {
  }
}
