/** Block::Iter over the bytes of a finished block, as a cursor over the pairs
    that were added to it. */
module BlockIter {
  import opened Coding
  import opened BlockFormat

  type Comparator = (seq<byte>, seq<byte>) -> int

  ghost predicate IsOrder(cmp: Comparator) {
    && (forall a, b :: cmp(a, b) < 0 <==> cmp(b, a) > 0)
    && (forall a, b, c :: cmp(a, b) < 0 && cmp(b, c) < 0 ==> cmp(a, c) < 0)
    && (forall a, b, c :: cmp(a, b) < 0 && cmp(b, c) == 0 ==> cmp(a, c) < 0)
  }

  ghost predicate Ascending(cmp: Comparator, items: seq<Item>) {
    forall i, j :: 0 <= i < j < |items| ==> cmp(Key(items, i), Key(items, j)) < 0
  }

  /** Position of the first key at or after the target. */
  function FirstAtLeast(cmp: Comparator, items: seq<Item>, target: seq<byte>, from: nat): (r: nat)
    requires from <= |items|
    ensures from <= r <= |items|
    ensures forall i :: from <= i < r ==> cmp(Key(items, i), target) < 0
    ensures r < |items| ==> cmp(Key(items, r), target) >= 0
    decreases |items| - from
  {
    if from < |items| && cmp(Key(items, from), target) < 0 then FirstAtLeast(cmp, items, target, from + 1) else from
  }

  lemma BeforeTarget(cmp: Comparator, items: seq<Item>, target: seq<byte>, i: nat)
    requires IsOrder(cmp) && Ascending(cmp, items) && i < |items|
    ensures cmp(Key(items, i), target) < 0 <==> i < FirstAtLeast(cmp, items, target, 0)
  {
    hide IsOrder;
    var r := FirstAtLeast(cmp, items, target, 0);
    if r < i {
      OrderCarries(cmp, Key(items, r), Key(items, i), target);
    }
  }

  lemma OrderCarries(cmp: Comparator, a: seq<byte>, b: seq<byte>, c: seq<byte>)
    requires IsOrder(cmp) && cmp(a, b) < 0
    ensures cmp(b, c) < 0 ==> cmp(a, c) < 0
  {
  }

  // ---- reading an entry out of the bytes ----

  /** The entry at offset of item i. */
  lemma EntryHere(data: seq<byte>, items: seq<Item>, starts: seq<nat>, i: nat)
    requires IsBlock(data, items, starts) && i < |items|
    ensures var o, r, x := Offset(items, i), |Bytes(items)|, items[i];
      && o < r <= |data| && o + |ItemBytes(x)| == Offset(items, i + 1) <= r
      && DecodeEntry(data[o..r]) == Just(Header(x.shared, |Delta(x)|, |x.pair.value|, |ItemHeader(x)|))
      && data[o + |ItemHeader(x)|..o + |ItemHeader(x)| + |Delta(x)|] == Delta(x)
      && data[o + |ItemHeader(x)| + |Delta(x)|..Offset(items, i + 1)] == x.pair.value
  {
    hide Bytes, ItemHeader, Delta, DecodeEntry, StartsOk, Chained, RestartBytes, EncodeFixed32, Offset;
    var o, r, x := Offset(items, i), |Bytes(items)|, items[i];
    BlockParts(data, items, starts);
    BytesFrom(items, i);
    HeaderLength(x);
    assert data[o..r] == data[..r][o..] == Bytes(items)[o..];
    assert data[o..r] == ItemBytes(x) + Bytes(items[i + 1..]);
    DecodeWritten(x, Bytes(items[i + 1..]));
    SlicesOfItem(data, o, r, ItemHeader(x), Delta(x), x.pair.value, Bytes(items[i + 1..]));
  }

  lemma SlicesOfItem(data: seq<byte>, o: nat, r: nat, a: seq<byte>, b: seq<byte>, c: seq<byte>, rest: seq<byte>)
    requires o <= r <= |data| && data[o..r] == a + b + c + rest
    ensures o + |a| + |b| + |c| <= r
    ensures data[o + |a|..o + |a| + |b|] == b && data[o + |a| + |b|..o + |a| + |b| + |c|] == c
  {
    assert forall k :: 0 <= k < |b| ==> data[o + |a|..o + |a| + |b|][k] == data[o..r][|a| + k] == b[k];
    assert forall k :: 0 <= k < |c| ==>
        data[o + |a| + |b|..o + |a| + |b| + |c|][k] == data[o..r][|a| + |b| + k] == c[k];
  }

  lemma ItemLength(x: Item)
    ensures |ItemBytes(x)| == |ItemHeader(x)| + |Delta(x)| + |x.pair.value|
  {
    hide ItemHeader, Delta;
  }

  /** An entry taken out of the bytes, given the key before it. */
  datatype Taken = Taken(key: seq<byte>, valueStart: nat, valueLength: nat) | Corrupt {
    function KeyOrNone(): seq<byte> {
      if Taken? then key else []
    }

    function StartOrNone(): nat {
      if Taken? then valueStart else 0
    }

    function LengthOrNone(): nat {
      if Taken? then valueLength else 0
    }
  }

  function Choose(c: bool, a: nat, b: nat): nat {
    if c then a else b
  }

  function TakeEntry(data: seq<byte>, current: nat, limit: nat, key: seq<byte>): Taken
    requires current <= limit <= |data|
  {
    var h := DecodeEntry(data[current..limit]);
    if h.Nothing? || |key| < h.value.shared then Corrupt
    else
      var p := current + h.value.length;
      if p + h.value.nonShared + h.value.valueLength > |data| then Corrupt
      else Taken(key[..h.value.shared] + data[p..p + h.value.nonShared], p + h.value.nonShared, h.value.valueLength)
  }

  /** The key of an entry from the one before. */
  lemma KeyFromPrevious(items: seq<Item>, i: nat, key: seq<byte>)
    requires Chained(items) && i < |items|
    requires items[i].shared == 0 || (i > 0 && key == Key(items, i - 1))
    ensures items[i].shared <= |key| && key[..items[i].shared] + Delta(items[i]) == Key(items, i)
  {
    assert Links(items, i);
  }

  class Iter {
    const comparator: Comparator
    const data: seq<byte>
    const restarts: nat
    const numRestarts: nat
    var current: nat
    var restartIndex: nat
    var key: seq<byte>
    // value_ is the part of data from valueStart, of valueLength bytes.
    var valueStart: nat
    var valueLength: nat
    var corrupted: bool
    ghost const items: seq<Item>
    ghost const starts: seq<nat>

    ghost predicate Wired() {
      && IsOrder(comparator) && Ascending(comparator, items) && IsBlock(data, items, starts)
      && restarts == |Bytes(items)| && numRestarts == |starts|
    }

    /** The cursor: between 0 and the number of pairs, which means invalid. */
    ghost predicate At(p: nat)
      reads this
    {
      p <= |items| && if p == |items| then AtEnd() else OnItem(p)
    }

    ghost predicate AtEnd()
      reads this
    {
      current == restarts && restartIndex == numRestarts
    }

    ghost predicate OnItem(p: nat)
      reads this
    {
      && p < |items| && current == Offset(items, p) && key == Key(items, p)
      && NextEntryOffset() == Offset(items, p + 1) <= |data|
      && data[valueStart..valueStart + valueLength] == items[p].pair.value
      && RestartFits(p)
    }

    ghost predicate RestartFits(p: nat)
      reads this
    {
      restartIndex < numRestarts && restartIndex < |starts| && starts[restartIndex] <= p
    }

    /** ParseNextKey will read item q next. */
    ghost predicate Ready(q: nat)
      reads this
    {
      && q <= |items| && NextEntryOffset() == Offset(items, q) && RestartFits(q)
      && (q < |items| ==> items[q].shared == 0 || (q > 0 && key == Key(items, q - 1)))
    }

    ghost predicate Valid()
      reads this
    {
      Wired() && !corrupted && exists p :: At(p)
    }

    /** Block::Block and Block::NewIterator. */
    constructor (block: seq<byte>, cmp: Comparator, ghost written: seq<Item>, ghost points: seq<nat>)
      requires IsBlock(block, written, points) && IsOrder(cmp) && Ascending(cmp, written)
      ensures Wired() && !corrupted && At(|written|) && items == written && data == block && comparator == cmp
    {
      comparator, data := cmp, block;
      items, starts := written, points;
      BlockParts(block, written, points);
      var n := DecodeFixed32(block[|block| - 4..]);
      numRestarts := n;
      restarts := |block| - (1 + n) * 4;
      current := |block| - (1 + n) * 4;
      restartIndex := n;
      key, valueStart, valueLength, corrupted := [], 0, 0, false;
    }

    predicate IsValid()
      reads this
    {
      current < restarts
    }

    function NextEntryOffset(): nat
      reads this
    {
      valueStart + valueLength
    }

    function Value(): seq<byte>
      requires NextEntryOffset() <= |data|
      reads this
    {
      data[valueStart..NextEntryOffset()]
    }

    /** Valid() tells whether the cursor is on a pair; key() and value() give it. */
    lemma OnPair(p: nat)
      requires Wired() && At(p)
      ensures IsValid() <==> p < |items|
      ensures p < |items| ==> NextEntryOffset() <= |data| && Pair(key, Value()) == items[p].pair
    {
      hide Bytes, IsBlock, IsOrder, Ascending;
      OffsetEnds(items);
      OffsetOrder(items, p, |items|);
    }

    function GetRestartPoint(index: nat): nat
      requires restarts + 4 * index + 4 <= |data|
    {
      DecodeFixed32(data[restarts + 4 * index..restarts + 4 * index + 4])
    }

    lemma RestartPoint(j: nat)
      requires Wired() && j < numRestarts
      ensures restarts + 4 * j + 4 <= |data| && GetRestartPoint(j) == Offset(items, starts[j]) && starts[j] <= |items|
    {
      hide Bytes, Chained, BlockBytes, IsOrder, Ascending, DecodeFixed32, Offset;
      BlockParts(data, items, starts);
    }

    method SeekToRestartPoint(index: nat)
      requires Wired() && index < numRestarts && !corrupted
      modifies this`key, this`restartIndex, this`valueStart, this`valueLength
      ensures Ready(starts[index]) && restartIndex == index
    {
      hide Bytes, IsOrder, Ascending, Chained, DecodeFixed32, Offset;
      key := [];
      restartIndex := index;
      RestartPoint(index);
      var offset := GetRestartPoint(index);
      valueStart, valueLength := offset, 0;
    }

    /** Moves to the item that comes next; false at the end. */
    method ParseNextKey(ghost q: nat) returns (more: bool)
      requires Wired() && !corrupted && Ready(q)
      modifies this`current, this`restartIndex, this`key, this`valueStart, this`valueLength, this`corrupted
      ensures !corrupted && At(q) && (more <==> q < |items|)
      ensures more ==> NextEntryOffset() == Offset(items, q + 1)
    {
      hide Bytes, IsOrder, Ascending, StartsOk, IsBlock, Chained, Offset;
      OffsetEnds(items);
      OffsetOrder(items, q, |items|);
      current := NextEntryOffset();
      if current >= restarts {
        current := restarts;
        restartIndex := numRestarts;
        return false;
      }
      more := DecodeNextEntry(q);
    }

    /** What is decoded at the start of an entry. */
    ghost predicate Decodes(h: Maybe<Header>, q: nat)
      requires q < |items|
      reads this
    {
      && h.Just? && h.value.shared <= |key|
      && var p := current + h.value.length;
      && p + h.value.nonShared + h.value.valueLength == Offset(items, q + 1) <= |data|
      && key[..h.value.shared] + data[p..p + h.value.nonShared] == Key(items, q)
      && data[p + h.value.nonShared..Offset(items, q + 1)] == items[q].pair.value
    }

    lemma DecodedHere(q: nat)
      requires Wired() && Ready(q) && q < |items| && current == NextEntryOffset()
      ensures current <= restarts <= |data| && Decodes(DecodeEntry(data[current..restarts]), q)
    {
      hide Bytes, IsOrder, Ascending, StartsOk, DecodeEntry, Offset, BlockBytes, ItemHeader, Delta, ItemBytes;
      EntryHere(data, items, starts, q);
      KeyFromPrevious(items, q, key);
      ItemLength(items[q]);
    }

    method DecodeNextEntry(ghost q: nat) returns (ok: bool)
      requires Wired() && !corrupted && Ready(q) && q < |items| && current == NextEntryOffset()
      modifies this`current, this`restartIndex, this`key, this`valueStart, this`valueLength, this`corrupted
      ensures !corrupted && OnItem(q) && ok
    {
      hide Bytes, IsOrder, Ascending, IsBlock, DecodeEntry, Offset;
      DecodedHere(q);
      var taken := TakeEntry(data, current, restarts, key);
      ok := taken.Taken?;
      // CorruptionError, if not ok.
      corrupted := !ok;
      key, valueStart, valueLength := taken.KeyOrNone(), taken.StartOrNone(), taken.LengthOrNone();
      current := Choose(ok, current, restarts);
      if ok {
        AdvanceRestart(q);
      }
    }

    /** The loop at the end of ParseNextKey. */
    method AdvanceRestart(ghost q: nat)
      requires Wired() && q < |items| && current == Offset(items, q) && RestartFits(q)
      modifies this`restartIndex
      ensures RestartFits(q)
    {
      hide Bytes, IsOrder, Ascending, Chained, DecodeFixed32, Offset;
      BlockParts(data, items, starts);
      while restartIndex + 1 < numRestarts && GetRestartPoint(restartIndex + 1) < current
        invariant RestartFits(q)
        decreases numRestarts - restartIndex
      {
        RestartPoint(restartIndex + 1);
        OffsetOrder(items, starts[restartIndex + 1], q);
        restartIndex := restartIndex + 1;
      }
    }

    method Next(ghost p: nat)
      requires Wired() && !corrupted && At(p) && IsValid()
      modifies this`current, this`restartIndex, this`key, this`valueStart, this`valueLength, this`corrupted
      ensures !corrupted && p < |items| && At(p + 1)
    {
      hide Bytes, IsOrder, Ascending, IsBlock, Offset;
      assert p < |items| by { OnPair(p); }
      var more := ParseNextKey(p + 1);
    }

    method SeekToFirst()
      requires Wired() && !corrupted
      modifies this`current, this`restartIndex, this`key, this`valueStart, this`valueLength, this`corrupted
      ensures !corrupted && At(0)
    {
      hide Bytes, IsOrder, Ascending, Chained, Offset, BlockBytes;
      SeekToRestartPoint(0);
      var more := ParseNextKey(0);
    }

    method SeekToLast()
      requires Wired() && !corrupted
      modifies this`current, this`restartIndex, this`key, this`valueStart, this`valueLength, this`corrupted
      ensures !corrupted && At(if items == [] then 0 else |items| - 1)
    {
      hide Bytes, IsOrder, Ascending, Chained, Offset, BlockBytes, DecodeFixed32;
      SeekToRestartPoint(numRestarts - 1);
      ghost var q := starts[numRestarts - 1];
      while true
        invariant !corrupted && Ready(q) && (items != [] ==> q < |items|)
        decreases |items| - q
      {
        var more := ParseNextKey(q);
        OffsetEnds(items);
        if more { OffsetOrder(items, q + 1, |items|); }
        if !more || NextEntryOffset() >= restarts {
          break;
        }
        q := q + 1;
      }
    }

    method Seek(target: seq<byte>)
      requires Wired() && !corrupted
      modifies this`current, this`restartIndex, this`key, this`valueStart, this`valueLength, this`corrupted
      ensures !corrupted && At(FirstAtLeast(comparator, items, target, 0))
    {
      hide Bytes, IsOrder, Ascending, Chained, Offset, BlockBytes, DecodeFixed32, IsBlock;
      var left := FindRestart(target);
      if !corrupted {
        SeekToRestartPoint(left);
        ghost var q := starts[left];
        ghost var r := FirstAtLeast(comparator, items, target, 0);
        while true
          invariant !corrupted && Ready(q) && q <= r
          decreases |items| - q
        {
          var more := ParseNextKey(q);
          if !more {
            return;
          }
          BeforeTarget(comparator, items, target, q);
          if comparator(key, target) >= 0 {
            return;
          }
          q := q + 1;
        }
      }
    }

    /** Binary search for the last restart point with a key before the target. */
    method FindRestart(target: seq<byte>) returns (left: nat)
      requires Wired() && !corrupted
      modifies this`corrupted
      ensures !corrupted && left < numRestarts && starts[left] <= FirstAtLeast(comparator, items, target, 0)
    {
      hide Bytes, IsOrder, Ascending, Chained, Offset, BlockBytes, DecodeFixed32, DecodeEntry;
      left := 0;
      var right: int := numRestarts - 1;
      while !corrupted && left < right
        invariant !corrupted && 0 <= left < numRestarts && right < numRestarts
        invariant starts[left] <= FirstAtLeast(comparator, items, target, 0)
        decreases right - left
      {
        var mid := (left + right + 1) / 2;
        var ok, midKey := KeyAtRestart(mid);
        // CorruptionError, if not ok.
        corrupted := !ok;
        BeforeTarget(comparator, items, target, starts[mid]);
        if ok && comparator(midKey, target) < 0 {
          left := mid;
        } else {
          right := mid - 1;
        }
      }
    }

    method KeyAtRestart(mid: nat) returns (ok: bool, midKey: seq<byte>)
      requires Wired() && 0 < mid < numRestarts
      ensures starts[mid] < |items| && ok && midKey == Key(items, starts[mid])
    {
      hide Bytes, IsOrder, Ascending, Offset, BlockBytes, DecodeFixed32, DecodeEntry, ItemBytes, ItemHeader, Delta;
      RestartPoint(mid);
      var regionOffset := GetRestartPoint(mid);
      assert starts[mid] < |items| by { MoreThanOneStart(items, starts, mid); }
      EntryHere(data, items, starts, starts[mid]);
      ItemLength(items[starts[mid]]);
      var h := DecodeEntry(data[regionOffset..restarts]);
      KeyFromPrevious(items, starts[mid], []);
      ok := h.Just? && h.value.shared == 0;
      var p := if ok then regionOffset + h.value.length else restarts;
      midKey := if ok then data[p..p + h.value.nonShared] else [];
    }

    method Prev(ghost p: nat)
      requires Wired() && !corrupted && At(p) && IsValid()
      modifies this`current, this`restartIndex, this`key, this`valueStart, this`valueLength, this`corrupted
      ensures !corrupted && p < |items| && At(if p == 0 then |items| else p - 1)
    {
      hide Bytes, IsOrder, Ascending, Chained, Offset, BlockBytes, DecodeFixed32;
      assert p < |items| by { OnPair(p); }
      var original := current;
      var before := RestartBefore(p);
      if !before {
        return;
      }
      SeekToRestartPoint(restartIndex);
      ghost var q := starts[restartIndex];
      while true
        invariant !corrupted && Ready(q) && q < p
        decreases p - q
      {
        var more := ParseNextKey(q);
        OffsetOrder(items, q + 1, p);
        if !more || NextEntryOffset() >= original {
          break;
        }
        q := q + 1;
      }
    }

    /** Scans back to a restart point before the current entry. */
    method RestartBefore(ghost p: nat) returns (found: bool)
      requires Wired() && OnItem(p)
      modifies this`current, this`restartIndex
      ensures if found then restartIndex < numRestarts && starts[restartIndex] < p else p == 0 && AtEnd()
    {
      hide Bytes, IsOrder, Ascending, Chained, Offset, BlockBytes, DecodeFixed32;
      var original := current;
      RestartPoint(restartIndex);
      OffsetOrder(items, starts[restartIndex], p);
      while GetRestartPoint(restartIndex) >= original
        invariant restartIndex < numRestarts && restarts + 4 * restartIndex + 4 <= |data|
        invariant GetRestartPoint(restartIndex) == Offset(items, starts[restartIndex])
        decreases restartIndex
      {
        if restartIndex == 0 {
          OffsetOrder(items, 0, p);
          current := restarts;
          restartIndex := numRestarts;
          return false;
        }
        restartIndex := restartIndex - 1;
        RestartPoint(restartIndex);
      }
      OffsetOrder(items, starts[restartIndex], p);
      return true;
    }
  }

  lemma MoreThanOneStart(items: seq<Item>, starts: seq<nat>, mid: nat)
    requires StartsOk(items, starts) && 0 < mid < |starts|
    ensures starts[mid] < |items| && items[starts[mid]].shared == 0
  {
    assert starts[0] < starts[mid];
  }
}
