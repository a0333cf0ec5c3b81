/** class MergingIterator: several sorted sources read as one.  Every operation
    has the contract it would have on a single sorted list. */
module MergingIter {
  import opened InternalKeys
  import opened Versions
  import opened Iterators
  import opened CompactionFiles

  /** Position p of es is where the first g entries of `merged` end. */
  ghost predicate CutAt(merged: seq<Entry>, es: seq<Entry>, g: nat, p: nat) {
    && p <= |es|
    && (forall j :: 0 <= j < p && g < |merged| ==> Less(es[j].key, merged[g].key))
    && (p < |es| ==> g < |merged|)
    && (forall j :: p <= j < |es| && g < |merged| ==> !Less(es[j].key, merged[g].key))
  }

  /** Position p of es is one step back from there (invalid if there is no
      entry before the cut). */
  ghost predicate CutBefore(merged: seq<Entry>, es: seq<Entry>, g: nat, p: nat) {
    p <= |es| && CutAt(merged, es, g, Ahead(es, p))
  }

  /** The sources share no key; `merged` holds all their entries in order. */
  ghost predicate Merges(merged: seq<Entry>, sources: seq<seq<Entry>>) {
    && Sorted(merged)
    && (forall i :: 0 <= i < |sources| ==> Sorted(sources[i]) && Within(sources[i], merged))
    && (forall e :: e in merged ==> exists i :: 0 <= i < |sources| && e in sources[i])
    && (forall i, j :: 0 <= i < j < |sources| ==> DifferentKeys(sources[i], sources[j]))
  }

  ghost predicate Within(es: seq<Entry>, merged: seq<Entry>) {
    forall j :: 0 <= j < |es| ==> es[j] in merged
  }

  ghost predicate Apart(es: seq<Entry>, key: InternalKey) {
    forall j :: 0 <= j < |es| ==> es[j].key != key
  }

  /** An entry of a source after merged[g] is not before merged[g + 1]. */
  lemma NextInOrder(merged: seq<Entry>, es: seq<Entry>, g: nat, j: nat)
    requires Sorted(merged) && Within(es, merged) && g < |merged| && j < |es|
    requires Less(merged[g].key, es[j].key)
    ensures g + 1 < |merged| && !Less(es[j].key, merged[g + 1].key)
  {
    assert es[j] in merged;
    var k :| 0 <= k < |merged| && merged[k] == es[j];
    assert k > g;
  }

  lemma PreviousInOrder(merged: seq<Entry>, es: seq<Entry>, g: nat, j: nat)
    requires Sorted(merged) && Within(es, merged) && 0 < g <= |merged| && j < |es|
    requires g < |merged| ==> Less(es[j].key, merged[g].key)
    requires es[j] != merged[g - 1]
    ensures Less(es[j].key, merged[g - 1].key)
  {
    assert es[j] in merged;
    var k :| 0 <= k < |merged| && merged[k] == es[j];
    assert k < g;
  }

  lemma CurrentMovesUp(merged: seq<Entry>, es: seq<Entry>, g: nat, p: nat)
    requires Sorted(merged) && Sorted(es) && Within(es, merged) && g < |merged| && CutAt(merged, es, g, p)
    requires p < |es| && es[p] == merged[g]
    ensures CutAt(merged, es, g + 1, p + 1)
  {
    forall j | p + 1 <= j < |es|
      ensures g + 1 < |merged| && !Less(es[j].key, merged[g + 1].key)
    {
      NextInOrder(merged, es, g, j);
    }
    if p + 1 < |es| { NextInOrder(merged, es, g, p + 1); }
  }

  lemma OtherMovesUp(merged: seq<Entry>, es: seq<Entry>, g: nat, p: nat)
    requires Sorted(merged) && Within(es, merged) && g < |merged| && CutAt(merged, es, g, p)
    requires Apart(es, merged[g].key)
    ensures CutAt(merged, es, g + 1, p)
  {
    forall j | p <= j < |es|
      ensures g + 1 < |merged| && !Less(es[j].key, merged[g + 1].key)
    {
      CompareIsLexicographic(es[j].key, merged[g].key);
      NextInOrder(merged, es, g, j);
    }
    if p < |es| {
      CompareIsLexicographic(es[p].key, merged[g].key);
      NextInOrder(merged, es, g, p);
    }
  }

  lemma CurrentIsCut(merged: seq<Entry>, es: seq<Entry>, g: nat, p: nat)
    requires Sorted(merged) && Sorted(es) && g < |merged|
    requires p < |es| && es[p] == merged[g]
    ensures CutAt(merged, es, g, p)
  {
  }

  lemma OtherMovesDown(merged: seq<Entry>, es: seq<Entry>, g: nat, p: nat)
    requires Sorted(merged) && Within(es, merged) && 0 < g <= |merged| && CutAt(merged, es, g, p)
    requires Apart(es, merged[g - 1].key)
    ensures CutAt(merged, es, g - 1, p)
  {
    forall j | 0 <= j < p
      ensures Less(es[j].key, merged[g - 1].key)
    {
      PreviousInOrder(merged, es, g, j);
    }
  }

  // ---- the children together ----

  ghost predicate AllAt(merged: seq<Entry>, sources: seq<seq<Entry>>, ps: seq<nat>, g: nat) {
    |ps| == |sources| && forall i :: 0 <= i < |ps| ==> CutAt(merged, sources[i], g, ps[i])
  }

  ghost predicate AllBefore(merged: seq<Entry>, sources: seq<seq<Entry>>, ps: seq<nat>, g: nat) {
    |ps| == |sources| && forall i :: 0 <= i < |ps| ==> CutBefore(merged, sources[i], g, ps[i])
  }

  /** m is a source with the smallest head among the first n. */
  ghost predicate SmallestHead(sources: seq<seq<Entry>>, ps: seq<nat>, n: nat, m: Option<nat>) {
    && n <= |ps| == |sources|
    && match m
       case None => forall i :: 0 <= i < n ==> ps[i] >= |sources[i]|
       case Some(m) =>
         && m < n && ps[m] < |sources[m]|
         && forall i :: 0 <= i < n && ps[i] < |sources[i]| ==> !Less(sources[i][ps[i]].key, sources[m][ps[m]].key)
  }

  ghost predicate LargestHead(sources: seq<seq<Entry>>, ps: seq<nat>, n: nat, m: Option<nat>) {
    && n <= |ps| == |sources|
    && match m
       case None => forall i :: n <= i < |ps| ==> ps[i] >= |sources[i]|
       case Some(m) =>
         && n <= m < |ps| && ps[m] < |sources[m]|
         && forall i :: n <= i < |ps| && ps[i] < |sources[i]| ==> !Less(sources[m][ps[m]].key, sources[i][ps[i]].key)
  }

  /** Looking at one more source. */
  function Smaller(sources: seq<seq<Entry>>, ps: seq<nat>, i: nat, m: Option<nat>): Option<nat>
    requires i < |ps| == |sources| && (m.Some? ==> m.value < |ps| && ps[m.value] < |sources[m.value]|)
  {
    if ps[i] < |sources[i]| && (m.None? || Less(sources[i][ps[i]].key, sources[m.value][ps[m.value]].key)) then Some(i)
        else m
  }

  function Larger(sources: seq<seq<Entry>>, ps: seq<nat>, i: nat, m: Option<nat>): Option<nat>
    requires i < |ps| == |sources| && (m.Some? ==> m.value < |ps| && ps[m.value] < |sources[m.value]|)
  {
    if ps[i] < |sources[i]| && (m.None? || Less(sources[m.value][ps[m.value]].key, sources[i][ps[i]].key)) then Some(i)
        else m
  }

  lemma NoneSoFar(sources: seq<seq<Entry>>, ps: seq<nat>)
    requires |ps| == |sources|
    ensures SmallestHead(sources, ps, 0, None) && LargestHead(sources, ps, |ps|, None)
  {
  }

  lemma SmallestSoFar(sources: seq<seq<Entry>>, ps: seq<nat>, i: nat, m: Option<nat>)
    requires i < |ps| && SmallestHead(sources, ps, i, m)
    ensures SmallestHead(sources, ps, i + 1, Smaller(sources, ps, i, m))
  {
  }

  lemma LargestSoFar(sources: seq<seq<Entry>>, ps: seq<nat>, i: nat, m: Option<nat>)
    requires i < |ps| && LargestHead(sources, ps, i + 1, m)
    ensures LargestHead(sources, ps, i, Larger(sources, ps, i, m))
  {
  }

  /** The source of an entry of the merged list, and its place there. */
  lemma SourceOf(merged: seq<Entry>, sources: seq<seq<Entry>>, k: nat) returns (i: nat, j: nat)
    requires Merges(merged, sources) && k < |merged|
    ensures i < |sources| && j < |sources[i]| && sources[i][j] == merged[k]
  {
    assert merged[k] in merged;
    i :| 0 <= i < |sources| && merged[k] in sources[i];
    j :| 0 <= j < |sources[i]| && sources[i][j] == merged[k];
  }

  lemma PlaceOf(merged: seq<Entry>, sources: seq<seq<Entry>>, i: nat, j: nat) returns (k: nat)
    requires Merges(merged, sources) && i < |sources| && j < |sources[i]|
    ensures k < |merged| && merged[k] == sources[i][j]
  {
    assert Within(sources[i], merged);
    k :| 0 <= k < |merged| && merged[k] == sources[i][j];
  }

  lemma SortedParts(merged: seq<Entry>, sources: seq<seq<Entry>>)
    requires Merges(merged, sources)
    ensures Sorted(merged) && forall i :: 0 <= i < |sources| ==> Sorted(sources[i])
  {
  }

  lemma SmallestHeadIsNext(merged: seq<Entry>, sources: seq<seq<Entry>>, ps: seq<nat>, g: nat, m: Option<nat>)
    requires Merges(merged, sources) && g <= |merged| && AllAt(merged, sources, ps, g)
    requires SmallestHead(sources, ps, |ps|, m)
    ensures m.None? <==> g == |merged|
    ensures m.Some? ==> sources[m.value][ps[m.value]] == merged[g]
  {
    hide Less, Merges, CutAt;
    assert Sorted(merged) && forall i :: 0 <= i < |sources| ==> Sorted(sources[i]) by { SortedParts(merged, sources); }
    if m.Some? { HeadNotBeforeCut(merged, sources[m.value], g, ps[m.value]); }
    if g < |merged| {
      var i, j := SourceOf(merged, sources, g);
      HeadAtOrBefore(merged, sources[i], g, ps[i], j);
      if m.Some? {
        var k := PlaceOf(merged, sources, m.value, ps[m.value]);
        BetweenIsEqual(merged, g, k, sources[i][ps[i]].key);
      }
    }
  }

  lemma HeadNotBeforeCut(merged: seq<Entry>, es: seq<Entry>, g: nat, p: nat)
    requires CutAt(merged, es, g, p) && p < |es|
    ensures g < |merged| && !Less(es[p].key, merged[g].key)
  {
  }

  lemma HeadAtOrBefore(merged: seq<Entry>, es: seq<Entry>, g: nat, p: nat, j: nat)
    requires Sorted(es) && g < |merged| && CutAt(merged, es, g, p) && j < |es| && es[j] == merged[g]
    ensures p <= j && !Less(merged[g].key, es[p].key)
  {
  }

  /** merged[k] is at least merged[g] and at most h, which is at most merged[g]. */
  lemma BetweenIsEqual(merged: seq<Entry>, g: nat, k: nat, h: InternalKey)
    requires Sorted(merged) && g < |merged| && k < |merged|
    requires !Less(merged[k].key, merged[g].key) && !Less(h, merged[k].key) && !Less(merged[g].key, h)
    ensures k == g
  {
  }

  lemma LargestHeadIsPrevious(merged: seq<Entry>, sources: seq<seq<Entry>>, ps: seq<nat>, g: nat, m: Option<nat>)
    requires Merges(merged, sources) && g <= |merged| && AllBefore(merged, sources, ps, g)
    requires LargestHead(sources, ps, 0, m)
    ensures m.None? <==> g == 0
    ensures m.Some? ==> sources[m.value][ps[m.value]] == merged[g - 1]
  {
    hide Less, Merges, CutBefore, Within;
    assert Sorted(merged) && forall i :: 0 <= i < |sources| ==> Sorted(sources[i]) by { SortedParts(merged, sources); }
    if g > 0 {
      var i, j := SourceOf(merged, sources, g - 1);
      HeadAtOrAfter(merged, sources[i], g, ps[i], j);
      if m.Some? {
        var k := PlaceOf(merged, sources, m.value, ps[m.value]);
        assert k < g by { BelowCut(merged, sources[m.value], g, ps[m.value], k); }
        assert !Less(merged[g - 1].key, merged[k].key) by { InOrder(merged, k, g - 1); }
        BetweenIsEqual(merged, k, g - 1, sources[i][ps[i]].key);
      }
    } else if m.Some? {
      var k := PlaceOf(merged, sources, m.value, ps[m.value]);
      BelowCut(merged, sources[m.value], g, ps[m.value], k);
    }
  }

  lemma HeadAtOrAfter(merged: seq<Entry>, es: seq<Entry>, g: nat, p: nat, j: nat)
    requires Sorted(merged) && Sorted(es) && 0 < g <= |merged| && CutBefore(merged, es, g, p)
    requires j < |es| && es[j] == merged[g - 1]
    ensures j <= p < |es| && !Less(es[p].key, merged[g - 1].key)
  {
  }

  lemma BelowCut(merged: seq<Entry>, es: seq<Entry>, g: nat, p: nat, k: nat)
    requires Sorted(merged) && g <= |merged| && CutBefore(merged, es, g, p)
    requires p < |es| && k < |merged| && merged[k] == es[p]
    ensures k < g
  {
  }

  lemma InOrder(merged: seq<Entry>, k: nat, g: nat)
    requires Sorted(merged) && k <= g < |merged|
    ensures !Less(merged[g].key, merged[k].key)
  {
  }

  datatype Direction = Forward | Reverse

  class MergingIterator {
    const children: seq<InternalIterator>
    var current: Option<nat>
    var direction: Direction
    ghost const merged: seq<Entry>
    ghost var pos: nat

    ghost function Sources(): (r: seq<seq<Entry>>)
      ensures |r| == |children|
      ensures forall i :: 0 <= i < |children| ==> r[i] == children[i].entries
    {
      seq(|children|, i requires 0 <= i < |children| => children[i].entries)
    }

    ghost function Positions(): (r: seq<nat>)
      reads children
      ensures |r| == |children|
      ensures forall i :: 0 <= i < |children| ==> r[i] == children[i].pos
    {
      PositionsOf(children)
    }

    ghost predicate Wired()
      reads children
    {
      && (forall i :: 0 <= i < |children| ==> children[i].Valid())
      && (forall i, j :: 0 <= i < j < |children| ==> children[i] != children[j])
      && Merges(merged, Sources())
    }

    ghost predicate OnEntry(g: nat)
      reads `current, children
    {
      current.Some? ==>
        && g < |merged|
        && current.value < |children|
        && children[current.value].AtEntry()
        && children[current.value].entries[children[current.value].pos] == merged[g]
    }

    /** In the forward direction every child stands at its first key not
        before the current one; in the reverse direction every other child
        stands at its last key before the current one. */
    ghost predicate Placed(d: Direction)
      reads `current, `pos, children
    {
      if current.None? then pos == |merged|
      else
        && pos < |merged| && OnEntry(pos)
        && match d
           case Forward => AllAt(merged, Sources(), Positions(), pos)
           case Reverse => OthersBefore(merged, Sources(), Positions(), pos, current.value)
    }

    ghost predicate Valid()
      reads this, children
    {
      Wired() && Placed(direction)
    }

    constructor (cs: seq<InternalIterator>, ghost all: seq<Entry>)
      requires forall i :: 0 <= i < |cs| ==> cs[i].Valid()
      requires forall i, j :: 0 <= i < j < |cs| ==> cs[i] != cs[j]
      requires Merges(all, seq(|cs|, i requires 0 <= i < |cs| => cs[i].entries))
      ensures Valid() && children == cs && merged == all && pos == |merged|
    {
      children, merged := cs, all;
      current, direction, pos := None, Forward, |all|;
    }

    predicate AtEntry()
      reads this
    {
      current.Some?
    }

    function Key(): InternalKey
      requires Valid() && AtEntry()
      reads this, children
    {
      children[current.value].Key()
    }

    function Value(): string
      requires Valid() && AtEntry()
      reads this, children
    {
      children[current.value].Value()
    }

    /** Readers see the entry at `pos` of the merged list. */
    lemma CurrentIs()
      requires Valid()
      ensures Sorted(merged) && pos <= |merged| && (AtEntry() <==> pos < |merged|)
      ensures AtEntry() ==> Key() == merged[pos].key && Value() == merged[pos].value
    {
    }

    method FindSmallest(ghost g: nat)
      requires Wired() && AllAt(merged, Sources(), Positions(), g) && g <= |merged|
      modifies `current, `pos
      ensures Wired() && pos == g && Placed(Forward)
    {
      hide Merges, CutAt, AllAt, SmallestHead, Less, Wired, Placed;
      ghost var sources, ps := Sources(), Positions();
      assert SmallestHead(sources, ps, 0, None) by { NoneSoFar(sources, ps); }
      var smallest: Option<nat> := None;
      for i := 0 to |children|
        invariant SmallestHead(sources, ps, i, smallest)
        invariant smallest.Some? ==> smallest.value < |children| && children[smallest.value].AtEntry()
      {
        var child := children[i];
        SmallestSoFar(sources, ps, i, smallest);
        if child.AtEntry() {
          if smallest.None? {
            smallest := Some(i);
          } else {
            CompareIsLexicographic(child.Key(), children[smallest.value].Key());
            if Compare(child.Key(), children[smallest.value].Key()) < 0 {
              smallest := Some(i);
            }
          }
        }
      }
      assert sources == Sources() && ps == Positions();
      current := smallest;
      pos := g;
      StandsForward(g);
    }

    lemma StandsForward(g: nat)
      requires Wired() && g <= |merged| && AllAt(merged, Sources(), Positions(), g)
      requires SmallestHead(Sources(), Positions(), |children|, current) && pos == g
      ensures Placed(Forward)
    {
      hide Merges, CutAt, AllAt, Less;
      SmallestHeadIsNext(merged, Sources(), Positions(), g, current);
    }

    lemma StandsReverse(g: nat)
      requires Wired() && g <= |merged| && AllBefore(merged, Sources(), Positions(), g)
      requires LargestHead(Sources(), Positions(), 0, current) && pos == if g == 0 then |merged| else g - 1
      ensures Placed(Reverse)
    {
      hide Merges, CutBefore, AllBefore, OthersBefore, Less;
      LargestHeadIsPrevious(merged, Sources(), Positions(), g, current);
      if g > 0 {
        OthersMoveDown(merged, Sources(), Positions(), g, current.value);
      }
    }

    method FindLargest(ghost g: nat)
      requires Wired() && AllBefore(merged, Sources(), Positions(), g) && g <= |merged|
      modifies `current, `pos
      ensures Wired() && Placed(Reverse)
      ensures pos == if g == 0 then |merged| else g - 1
    {
      hide Merges, CutBefore, AllBefore, LargestHead, Less, Wired, Placed;
      ghost var sources, ps := Sources(), Positions();
      assert LargestHead(sources, ps, |children|, None) by { NoneSoFar(sources, ps); }
      var largest: Option<nat> := None;
      for i := |children| downto 0
        invariant LargestHead(sources, ps, i, largest)
        invariant largest.Some? ==> largest.value < |children| && children[largest.value].AtEntry()
      {
        var child := children[i];
        LargestSoFar(sources, ps, i, largest);
        if child.AtEntry() {
          if largest.None? {
            largest := Some(i);
          } else {
            CompareIsLexicographic(child.Key(), children[largest.value].Key());
            if Compare(child.Key(), children[largest.value].Key()) > 0 {
              largest := Some(i);
            }
          }
        }
      }
      assert sources == Sources() && ps == Positions();
      current := largest;
      pos := if g == 0 then |merged| else g - 1;
      StandsReverse(g);
    }

    method SeekToFirst()
      requires Valid()
      modifies this, children
      ensures Valid() && pos == 0
    {
      hide Merges, CutAt, CutBefore, SeekIndex, Sorted, Less, AllAt, AllBefore, OthersBefore, Placed;
      for i := 0 to |children|
        invariant Wired()
        invariant forall j :: 0 <= j < i ==> children[j].pos == 0
      {
        children[i].SeekToFirst();
      }
      FrontIsCut(merged, Sources(), Positions());
      FindSmallest(0);
      direction := Forward;
    }

    method SeekToLast()
      requires Valid()
      modifies this, children
      ensures Valid() && pos == if |merged| == 0 then 0 else |merged| - 1
    {
      hide Merges, CutAt, CutBefore, SeekIndex, Sorted, Less, AllAt, AllBefore, OthersBefore, Placed, PositionsOf;
      for i := 0 to |children|
        invariant Wired()
        invariant forall j :: 0 <= j < i ==> Ahead(children[j].entries, children[j].pos) == |children[j].entries|
      {
        children[i].SeekToLast();
      }
      BackIsCut(merged, Sources(), Positions());
      FindLargest(|merged|);
      direction := Reverse;
    }

    method Seek(target: InternalKey)
      requires Valid()
      modifies this, children
      ensures Valid() && pos == SeekIndex(merged, target)
    {
      hide Merges, CutAt, CutBefore, SeekIndex, Sorted, Less, AllAt, AllBefore, OthersBefore, Placed;
      for i := 0 to |children|
        invariant Wired()
        invariant forall j :: 0 <= j < i ==> Sought(children[j].entries, target, children[j].pos)
      {
        children[i].Seek(target);
        assert Sought(children[i].entries, target, children[i].pos);
      }
      ghost var g := SeekIndex(merged, target);
      SeekIsCut(merged, Sources(), Positions(), target);
      FindSmallest(g);
      direction := Forward;
    }

    /** Turning round to forward: the other children go past the current key. */
    method SeekOthersPast(c: nat, ghost g: nat)
      requires Wired() && g < |merged| && current == Some(c) && OnEntry(g)
      modifies children
      ensures Wired() && OnEntry(g) && OthersAt(merged, Sources(), Positions(), g, c)
    {
      hide Merges, CutAt, SeekIndex, Sorted, Less, Compare;
      var key := children[c].Key();
      for i := 0 to |children|
        invariant Wired() && OnEntry(g)
        invariant forall j :: 0 <= j < i && j != c ==> CutAt(merged, children[j].entries, g, children[j].pos)
      {
        if i != c {
          children[i].Seek(key);
          if children[i].AtEntry() && Compare(key, children[i].Key()) == 0 {
            children[i].Next();
          }
          SeekPastOthers(merged, Sources(), i, c, g, children[c].pos);
        }
      }
    }

    /** Turning round to reverse: the other children go before the current key. */
    method SeekOthersBefore(c: nat, ghost g: nat)
      requires Wired() && g < |merged| && current == Some(c) && OnEntry(g)
      modifies children
      ensures Wired() && OnEntry(g) && OthersBefore(merged, Sources(), Positions(), g, c)
    {
      hide Merges, CutAt, CutBefore, SeekIndex, Sorted, Less, Compare;
      var key := children[c].Key();
      for i := 0 to |children|
        invariant Wired() && OnEntry(g)
        invariant forall j :: 0 <= j < i && j != c ==> CutBefore(merged, children[j].entries, g, children[j].pos)
      {
        if i != c {
          children[i].Seek(key);
          SeekPastOthers(merged, Sources(), i, c, g, children[c].pos);
          StepBack(merged, children[i].entries, g, children[i].pos);
          if children[i].AtEntry() {
            children[i].Prev();
          } else {
            children[i].SeekToLast();
          }
        }
      }
    }

    method AdvanceChild(c: nat)
      requires Wired() && c < |children| && children[c].AtEntry()
      modifies children[c]
      ensures Wired() && Positions() == old(Positions())[c := old(children[c].pos) + 1]
    {
      hide Merges, Sorted;
      children[c].Next();
    }

    method RetreatChild(c: nat)
      requires Wired() && c < |children| && children[c].AtEntry()
      modifies children[c]
      ensures Wired()
      ensures Positions() == old(Positions())[c := if old(children[c].pos) == 0 then |children[c].entries|
          else old(children[c].pos) - 1]
    {
      hide Merges, Sorted;
      children[c].Prev();
    }

    lemma CutMovedUp(before: seq<nat>, g: nat, c: nat)
      requires Wired() && OthersAt(merged, Sources(), before, g, c)
      requires c < |before| && before[c] < |children[c].entries| && g < |merged|
          && children[c].entries[before[c]] == merged[g]
      requires Positions() == before[c := before[c] + 1]
      ensures AllAt(merged, Sources(), Positions(), g + 1)
    {
      hide Merges, OthersAt, AllAt;
      AllMoveUp(merged, Sources(), before, Positions(), g, c);
    }

    lemma CutMovedDown(before: seq<nat>, g: nat, c: nat)
      requires Wired() && OthersBefore(merged, Sources(), before, g, c)
      requires c < |before| && before[c] < |children[c].entries| && g < |merged|
          && children[c].entries[before[c]] == merged[g]
      requires Positions() == before[c := if before[c] == 0 then |children[c].entries| else before[c] - 1]
      ensures AllBefore(merged, Sources(), Positions(), g)
    {
      hide Merges, OthersBefore, AllBefore;
      AllStepBack(merged, Sources(), before, Positions(), g, c);
    }

    method TurnForward()
      requires Valid() && AtEntry()
      modifies `direction, children
      ensures Wired() && direction.Forward? && pos < |merged| && OnEntry(pos)
          && OthersAt(merged, Sources(), Positions(), pos, current.value)
    {
      hide Merges, AllAt, OthersAt, OthersBefore, Wired;
      if !direction.Forward? {
        SeekOthersPast(current.value, pos);
        direction := Forward;
      } else {
        AllAreOthers(merged, Sources(), Positions(), pos, current.value);
      }
    }

    method TurnBack()
      requires Valid() && AtEntry()
      modifies `direction, children
      ensures Wired() && direction.Reverse? && pos < |merged| && OnEntry(pos)
          && OthersBefore(merged, Sources(), Positions(), pos, current.value)
    {
      hide Merges, AllAt, OthersBefore, Wired;
      if !direction.Reverse? {
        SeekOthersBefore(current.value, pos);
        direction := Reverse;
      }
    }

    method Next()
      requires Valid() && AtEntry()
      modifies this, children
      ensures Valid() && pos == old(pos) + 1
    {
      hide Merges, AllAt, OthersAt, OthersBefore, Wired, Placed, PositionsOf;
      TurnForward();
      ghost var before := Positions();
      AdvanceChild(current.value);
      CutMovedUp(before, pos, current.value);
      FindSmallest(pos + 1);
    }

    method Prev()
      requires Valid() && AtEntry()
      modifies this, children
      ensures Valid() && pos == if old(pos) == 0 then |merged| else old(pos) - 1
    {
      hide Merges, AllAt, AllBefore, OthersBefore, Wired, Placed, PositionsOf;
      TurnBack();
      ghost var before := Positions();
      RetreatChild(current.value);
      CutMovedDown(before, pos, current.value);
      FindLargest(pos);
    }
  }

  ghost predicate OthersBefore(merged: seq<Entry>, sources: seq<seq<Entry>>, ps: seq<nat>, g: nat, c: nat) {
    |ps| == |sources| && forall i :: 0 <= i < |ps| && i != c ==> CutBefore(merged, sources[i], g, ps[i])
  }

  ghost predicate OthersAt(merged: seq<Entry>, sources: seq<seq<Entry>>, ps: seq<nat>, g: nat, c: nat) {
    |ps| == |sources| && forall i :: 0 <= i < |ps| && i != c ==> CutAt(merged, sources[i], g, ps[i])
  }

  ghost function PositionsOf(children: seq<InternalIterator>): (r: seq<nat>)
    reads children
    ensures |r| == |children|
    ensures forall i :: 0 <= i < |children| ==> r[i] == children[i].pos
  {
    if children == [] then [] else [children[0].pos] + PositionsOf(children[1..])
  }

  lemma FrontIsCut(merged: seq<Entry>, sources: seq<seq<Entry>>, ps: seq<nat>)
    requires Merges(merged, sources) && |ps| == |sources| && forall i :: 0 <= i < |ps| ==> ps[i] == 0
    ensures AllAt(merged, sources, ps, 0)
  {
    forall i | 0 <= i < |ps| ensures CutAt(merged, sources[i], 0, ps[i]) {
      forall j | 0 <= j < |sources[i]| ensures |merged| > 0 && !Less(sources[i][j].key, merged[0].key) {
        var k := PlaceOf(merged, sources, i, j);
      }
      if |sources[i]| > 0 { var k := PlaceOf(merged, sources, i, 0); }
    }
  }

  lemma BackIsCut(merged: seq<Entry>, sources: seq<seq<Entry>>, ps: seq<nat>)
    requires Merges(merged, sources) && |ps| == |sources|
    requires forall i :: 0 <= i < |ps| ==> ps[i] <= |sources[i]| && Ahead(sources[i], ps[i]) == |sources[i]|
    ensures AllBefore(merged, sources, ps, |merged|)
  {
  }

  ghost predicate Sought(es: seq<Entry>, target: InternalKey, p: nat) {
    p == SeekIndex(es, target)
  }

  lemma SeekIsCut(merged: seq<Entry>, sources: seq<seq<Entry>>, ps: seq<nat>, target: InternalKey)
    requires Merges(merged, sources) && |ps| == |sources|
    requires forall i :: 0 <= i < |ps| ==> Sought(sources[i], target, ps[i])
    ensures AllAt(merged, sources, ps, SeekIndex(merged, target))
  {
    forall i | 0 <= i < |ps| ensures CutAt(merged, sources[i], SeekIndex(merged, target), ps[i]) {
      SeekCutsAlike(merged, sources[i], target);
    }
  }

  lemma SeekCutsAlike(merged: seq<Entry>, es: seq<Entry>, target: InternalKey)
    requires Sorted(merged) && Sorted(es) && Within(es, merged)
    ensures CutAt(merged, es, SeekIndex(merged, target), SeekIndex(es, target))
  {
    hide SeekIndex;
    var g, p := SeekIndex(merged, target), SeekIndex(es, target);
    forall j | p <= j < |es| ensures g < |merged| && !Less(es[j].key, merged[g].key) {
      NotBeforeCut(merged, g, target, es[j]);
    }
  }

  /** An entry at or after the target lies at or after the cut. */
  lemma NotBeforeCut(merged: seq<Entry>, g: nat, target: InternalKey, e: Entry)
    requires Sorted(merged) && g <= |merged| && forall j :: 0 <= j < g ==> Less(merged[j].key, target)
    requires e in merged && AtMost(target, e.key)
    ensures g < |merged| && !Less(e.key, merged[g].key)
  {
    var k :| 0 <= k < |merged| && merged[k] == e;
    assert k >= g;
  }

  lemma AllAreOthers(merged: seq<Entry>, sources: seq<seq<Entry>>, ps: seq<nat>, g: nat, c: nat)
    requires AllAt(merged, sources, ps, g)
    ensures OthersAt(merged, sources, ps, g, c)
  {
  }

  lemma ApartOf(merged: seq<Entry>, sources: seq<seq<Entry>>, i: nat, c: nat, g: nat, p: nat)
    requires Merges(merged, sources) && i < |sources| && c < |sources| && i != c
    requires g < |merged| && p < |sources[c]| && sources[c][p] == merged[g]
    ensures Apart(sources[i], merged[g].key)
  {
    forall j | 0 <= j < |sources[i]| ensures sources[i][j].key != merged[g].key {
      assert sources[i][j] in sources[i] && merged[g] in sources[c];
      if i < c {
        assert DifferentKeys(sources[i], sources[c]);
      } else {
        assert DifferentKeys(sources[c], sources[i]);
      }
    }
  }

  /** Seeking the current key in another child finds the entries after it. */
  lemma SeekPastOthers(merged: seq<Entry>, sources: seq<seq<Entry>>, i: nat, c: nat, g: nat, p: nat)
    requires Merges(merged, sources) && i < |sources| && c < |sources| && i != c
    requires g < |merged| && p < |sources[c]| && sources[c][p] == merged[g]
    ensures var q := SeekIndex(sources[i], merged[g].key);
      && CutAt(merged, sources[i], g, q)
      && (q < |sources[i]| ==> Compare(merged[g].key, sources[i][q].key) != 0)
  {
    SeekCutsAlike(merged, sources[i], merged[g].key);
    SeekOwnKey(merged, g);
    ApartOf(merged, sources, i, c, g, p);
    var q := SeekIndex(sources[i], merged[g].key);
    if q < |sources[i]| {
      CompareIsLexicographic(merged[g].key, sources[i][q].key);
    }
  }

  lemma SeekOwnKey(es: seq<Entry>, g: nat)
    requires Sorted(es) && g < |es|
    ensures SeekIndex(es, es[g].key) == g
  {
  }

  lemma AllMoveUp(merged: seq<Entry>, sources: seq<seq<Entry>>, ps: seq<nat>, qs: seq<nat>, g: nat, c: nat)
    requires Merges(merged, sources) && OthersAt(merged, sources, ps, g, c) && |qs| == |ps|
    requires c < |ps| && ps[c] < |sources[c]| && g < |merged| && sources[c][ps[c]] == merged[g]
    requires qs[c] == ps[c] + 1 && forall i :: 0 <= i < |ps| && i != c ==> qs[i] == ps[i]
    ensures AllAt(merged, sources, qs, g + 1)
  {
    hide CutAt, Merges;
    forall i | 0 <= i < |qs| ensures CutAt(merged, sources[i], g + 1, qs[i]) {
      SortedPart(merged, sources, i);
      if i == c {
        CurrentIsCut(merged, sources[i], g, ps[i]);
        CurrentMovesUp(merged, sources[i], g, ps[i]);
      } else {
        ApartOf(merged, sources, i, c, g, ps[c]);
        OtherMovesUp(merged, sources[i], g, ps[i]);
      }
    }
  }

  lemma SortedPart(merged: seq<Entry>, sources: seq<seq<Entry>>, i: nat)
    requires Merges(merged, sources) && i < |sources|
    ensures Sorted(merged) && Sorted(sources[i]) && Within(sources[i], merged)
  {
  }

  lemma StepBack(merged: seq<Entry>, es: seq<Entry>, g: nat, p: nat)
    requires CutAt(merged, es, g, p)
    ensures 0 < p ==> CutBefore(merged, es, g, p - 1)
    ensures p == 0 ==> CutBefore(merged, es, g, |es|)
  {
  }

  lemma AllStepBack(merged: seq<Entry>, sources: seq<seq<Entry>>, ps: seq<nat>, qs: seq<nat>, g: nat, c: nat)
    requires Merges(merged, sources) && OthersBefore(merged, sources, ps, g, c) && |qs| == |ps|
    requires c < |ps| && ps[c] < |sources[c]| && g < |merged| && sources[c][ps[c]] == merged[g]
    requires qs[c] == if ps[c] == 0 then |sources[c]| else ps[c] - 1
    requires forall i :: 0 <= i < |ps| && i != c ==> qs[i] == ps[i]
    ensures AllBefore(merged, sources, qs, g)
  {
    hide CutAt, CutBefore, Merges;
    SortedPart(merged, sources, c);
    CurrentIsCut(merged, sources[c], g, ps[c]);
    StepBack(merged, sources[c], g, ps[c]);
  }

  lemma OthersMoveDown(merged: seq<Entry>, sources: seq<seq<Entry>>, ps: seq<nat>, g: nat, c: nat)
    requires Merges(merged, sources) && 0 < g <= |merged| && AllBefore(merged, sources, ps, g)
    requires c < |ps| && ps[c] < |sources[c]| && sources[c][ps[c]] == merged[g - 1]
    ensures OthersBefore(merged, sources, ps, g - 1, c)
  {
    hide CutAt, Merges;
    forall i | 0 <= i < |ps| && i != c ensures CutBefore(merged, sources[i], g - 1, ps[i]) {
      SortedPart(merged, sources, i);
      ApartOf(merged, sources, i, c, g - 1, ps[c]);
      OtherMovesDown(merged, sources[i], g, Ahead(sources[i], ps[i]));
    }
  }
}
