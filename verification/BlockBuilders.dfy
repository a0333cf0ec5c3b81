/** class BlockBuilder: entries in, a finished block out. */
module BlockBuilders {
  import opened Coding
  import opened BlockFormat

  function Smaller(a: nat, b: nat): nat {
    if a < b then a else b
  }

  /** a and b have their first n bytes in common and no more. */
  predicate SharesExactly(a: seq<byte>, b: seq<byte>, n: nat) {
    n <= |a| && n <= |b| && a[..n] == b[..n] && (n < |a| && n < |b| ==> a[n] != b[n])
  }

  class BlockBuilder {
    const blockRestartInterval: nat
    var buffer: seq<byte>
    var restarts: seq<nat>
    var counter: nat
    var lastKey: seq<byte>
    var finished: bool
    ghost var items: seq<Item>
    ghost var starts: seq<nat>

    /** Every interval-th entry is a restart point; the last of them may be the
        entry to come. */
    ghost predicate Consistent()
      reads this
    {
      && blockRestartInterval >= 1 && Chained(items)
      && (!finished ==> buffer == Bytes(items))
      && EvenlySpaced(starts, blockRestartInterval) && (forall j :: 0 <= j < |starts| ==> starts[j] <= |items|)
      && (forall j :: 0 <= j < |starts| && starts[j] < |items| ==> items[starts[j]].shared == 0)
      && restarts == OffsetsOf(items, starts)
      && |items| == starts[|starts| - 1] + counter && counter <= blockRestartInterval
      && lastKey == if items == [] then [] else Key(items, |items| - 1)
    }

    ghost predicate Valid()
      reads this
    {
      Consistent() && (items != [] ==> forall j :: 0 <= j < |starts| ==> starts[j] < |items|)
    }

    constructor (interval: nat)
      requires interval >= 1
      ensures Valid() && items == [] && !finished && blockRestartInterval == interval
    {
      blockRestartInterval := interval;
      buffer, restarts, counter, lastKey, finished := [], [0], 0, [], false;
      items, starts := [], [0];
      new;
      assert OffsetsOf([], [0]) == [0];
    }

    function CurrentSizeEstimate(): nat
      reads this
    {
      |buffer| + 4 * |restarts| + 4
    }

    /** What a block finished now would take. */
    lemma EstimateIsSize()
      requires Valid() && !finished
      ensures CurrentSizeEstimate() == |BlockBytes(items, OffsetsOf(items, starts))|
    {
      hide Bytes, Offset, Chained, EncodeFixed32, EvenlySpaced;
      RestartLength(OffsetsOf(items, starts));
    }

    method Reset()
      requires Valid()
      modifies this
      ensures Valid() && items == [] && !finished
    {
      buffer, restarts, counter, lastKey, finished := [], [0], 0, [], false;
      items, starts := [], [0];
      assert OffsetsOf([], [0]) == [0];
    }

    /** How much of the key the previous one has already. */
    method CountShared(key: seq<byte>) returns (shared: nat)
      ensures SharesExactly(lastKey, key, shared)
    {
      shared := 0;
      var minLength := Smaller(|lastKey|, |key|);
      while shared < minLength && lastKey[shared] == key[shared]
        invariant shared <= minLength && lastKey[..shared] == key[..shared]
      {
        shared := shared + 1;
      }
    }

    /** Only an empty block has nothing behind its last restart point. */
    lemma JustRestarted()
      requires Valid()
      ensures counter == 0 ==> items == []
    {
      hide Chained, Bytes, OffsetsOf;
    }

    /** Restart compression. */
    method Restart()
      requires Valid() && !finished && counter == blockRestartInterval
      modifies this`restarts, this`counter, this`starts
      ensures Consistent() && counter == 0
    {
      hide Bytes, Offset, Chained, ItemBytes, EvenlySpaced, OffsetsOf;
      StartAdded(items, starts);
      SpacedMore(starts, blockRestartInterval);
      restarts := restarts + [|buffer|];
      counter := 0;
      starts := starts + [|items|];
    }

    /** Add: the pair goes to the end of the block, without what its key shares
        with the one before; every interval-th key is stored whole. */
    method Add(key: seq<byte>, value: seq<byte>)
      requires Valid() && !finished
      modifies this
      ensures Valid() && !finished
      ensures exists shared ::
          items == old(items) + [Item(shared, Pair(key, value))]
          && (if old(counter) < blockRestartInterval then SharesExactly(old(lastKey), key, shared) else shared == 0)
    {
      hide Bytes, Offset, Chained, ItemBytes, EvenlySpaced, OffsetsOf, SharesExactly;
      var shared: nat := 0;
      if counter < blockRestartInterval {
        shared := CountShared(key);
        JustRestarted();
      } else {
        Restart();
      }
      SharedPrefix(lastKey, key, shared);
      Store(key, value, shared);
    }

    method Store(key: seq<byte>, value: seq<byte>, shared: nat)
      requires Consistent() && !finished && counter < blockRestartInterval && (counter == 0 ==> shared == 0)
      requires shared <= |lastKey| && shared <= |key| && lastKey[..shared] == key[..shared]
      modifies this`buffer, this`lastKey, this`counter, this`items
      ensures Valid() && items == old(items) + [Item(shared, Pair(key, value))]
    {
      hide Bytes, Offset, Chained, ItemBytes, EvenlySpaced, OffsetsOf;
      ghost var x := Item(shared, Pair(key, value));
      Append(key, value, shared);
      ItemAdded(items, x, lastKey);
      OffsetsStay(items, x, starts);
      lastKey := lastKey[..shared] + key[shared..];
      assert lastKey == key;
      counter := counter + 1;
      items := items + [x];
      SpacedUpTo(starts, blockRestartInterval);
    }

    method Append(key: seq<byte>, value: seq<byte>, shared: nat)
      requires shared <= |key|
      modifies this`buffer
      ensures buffer == old(buffer) + ItemBytes(Item(shared, Pair(key, value)))
    {
      var nonShared := |key| - shared;
      buffer := buffer + EncodeVarint(shared);
      buffer := buffer + EncodeVarint(nonShared);
      buffer := buffer + EncodeVarint(|value|);
      buffer := buffer + key[shared..];
      buffer := buffer + value;
      WrittenItem(old(buffer), Item(shared, Pair(key, value)));
    }

    /** Finish: restart array and count behind the entries. */
    method Finish() returns (block: seq<byte>)
      requires Valid() && !finished
      modifies this`buffer, this`finished
      ensures Valid() && finished && block == BlockBytes(items, OffsetsOf(items, starts))
    {
      hide Bytes, Offset, Chained, EncodeFixed32, EvenlySpaced, RestartBytes, OffsetsOf, ItemBytes;
      ghost var entries := buffer;
      AppendRestarts();
      assert buffer == BlockBytes(items, restarts) by { assert entries == Bytes(items); }
      finished := true;
      return buffer;
    }

    method AppendRestarts()
      modifies this`buffer
      ensures buffer == old(buffer) + RestartBytes(restarts) + EncodeFixed32(|restarts| % TWO_32)
    {
      hide EncodeFixed32;
      var i := 0;
      assert restarts[..0] == [] && buffer + RestartBytes([]) == buffer;
      while i < |restarts|
        invariant 0 <= i <= |restarts| && buffer == old(buffer) + RestartBytes(restarts[..i])
      {
        RestartsSnoc(restarts, i);
        buffer := buffer + EncodeFixed32(restarts[i] % TWO_32);
        i := i + 1;
      }
      assert restarts[..i] == restarts;
      buffer := buffer + EncodeFixed32(|restarts| % TWO_32);
    }

    predicate Empty()
      reads this
    {
      buffer == []
    }

    lemma EmptyMeans()
      requires Valid() && !finished
      ensures Empty() <==> items == []
    {
      hide Chained, ItemBytes, EvenlySpaced, OffsetsOf;
      if items != [] { HeaderLength(items[|items| - 1]); }
    }

    /** What a finished block must be made of. */
    lemma Shape()
      requires Valid()
      ensures Chained(items) && StartsOk(items, starts)
    {
      hide Chained;
      forall i, j | 0 <= i < j < |starts| ensures starts[i] < starts[j] {
        SpacedGrows(starts, blockRestartInterval, i, j);
      }
    }

    lemma Finished(block: seq<byte>)
      requires Valid() && |block| < TWO_32 && (forall i :: 0 <= i < |items| ==> Small(items[i]))
      requires block == BlockBytes(items, OffsetsOf(items, starts))
      ensures IsBlock(block, items, starts)
    {
      hide Chained, Small, StartsOk;
      Shape();
    }
  }

  lemma RestartsSnoc(restarts: seq<nat>, i: nat)
    requires i < |restarts|
    ensures RestartBytes(restarts[..i + 1]) == RestartBytes(restarts[..i]) + EncodeFixed32(restarts[i] % TWO_32)
  {
    hide EncodeFixed32;
    assert restarts[..i + 1][..i] == restarts[..i];
  }

  ghost predicate EvenlySpaced(starts: seq<nat>, n: nat) {
    starts != [] && starts[0] == 0 && forall j :: 0 < j < |starts| ==> starts[j] == starts[j - 1] + n
  }

  lemma {:induction false} SpacedGrows(starts: seq<nat>, n: nat, i: nat, j: nat)
    requires EvenlySpaced(starts, n) && n >= 1 && i < j < |starts|
    ensures starts[i] < starts[j]
  {
    if i + 1 < j { SpacedGrows(starts, n, i, j - 1); }
    assert starts[j] == starts[j - 1] + n;
  }

  lemma SpacedMore(starts: seq<nat>, n: nat)
    requires EvenlySpaced(starts, n)
    ensures starts != [] && EvenlySpaced(starts + [starts[|starts| - 1] + n], n)
  {
  }

  lemma SpacedUpTo(starts: seq<nat>, n: nat)
    requires EvenlySpaced(starts, n) && n >= 1
    ensures forall j :: 0 <= j < |starts| ==> starts[j] <= starts[|starts| - 1]
    ensures forall j :: 0 <= j < |starts| && starts[j] == starts[|starts| - 1] ==> j == |starts| - 1
  {
    forall j | 0 <= j < |starts| - 1 ensures starts[j] < starts[|starts| - 1] {
      SpacedGrows(starts, n, j, |starts| - 1);
    }
  }

  lemma SharedPrefix(a: seq<byte>, b: seq<byte>, n: nat)
    ensures SharesExactly(a, b, n) || n == 0 ==> n <= |a| && n <= |b| && a[..n] == b[..n]
  {
  }

  lemma StartAdded(items: seq<Item>, starts: seq<nat>)
    requires forall j :: 0 <= j < |starts| ==> starts[j] <= |items|
    ensures OffsetsOf(items, starts + [|items|]) == OffsetsOf(items, starts) + [|Bytes(items)|]
  {
    hide Bytes;
    OffsetEnds(items);
    var more := starts + [|items|];
    assert forall j :: 0 <= j < |more| ==>
        OffsetsOf(items, more)[j] == (OffsetsOf(items, starts) + [|Bytes(items)|])[j];
  }

  lemma WrittenItem(before: seq<byte>, x: Item)
    requires x.shared <= |x.pair.key|
    ensures before + EncodeVarint(x.shared) + EncodeVarint(|x.pair.key| - x.shared) + EncodeVarint(|x.pair.value|)
            + x.pair.key[x.shared..] + x.pair.value
      == before + ItemBytes(x)
  {
    hide EncodeVarint;
    var a, b, c, d := EncodeVarint(x.shared), EncodeVarint(|x.pair.key| - x.shared), EncodeVarint(|x.pair.value|),
      x.pair.key[x.shared..];
    assert before + a + b + c + d + x.pair.value == before + (a + b + c + d + x.pair.value);
  }

  lemma ItemAdded(items: seq<Item>, x: Item, lastKey: seq<byte>)
    requires Chained(items) && lastKey == if items == [] then [] else Key(items, |items| - 1)
    requires x.shared <= |lastKey| && x.shared <= |x.pair.key| && lastKey[..x.shared] == x.pair.key[..x.shared]
    ensures Chained(items + [x]) && Bytes(items + [x]) == Bytes(items) + ItemBytes(x)
  {
    hide ItemBytes, Bytes, Links;
    BytesSnoc(items, x);
    forall i | 0 <= i < |items + [x]| ensures Links(items + [x], i) {
      if i < |items| {
        SameLink(items, x, i);
      } else {
        LastLink(items, x, lastKey);
      }
    }
  }

  lemma LastLink(items: seq<Item>, x: Item, lastKey: seq<byte>)
    requires lastKey == if items == [] then [] else Key(items, |items| - 1)
    requires x.shared <= |lastKey| && x.shared <= |x.pair.key| && lastKey[..x.shared] == x.pair.key[..x.shared]
    ensures Links(items + [x], |items|)
  {
    var all := items + [x];
    assert all[|items|] == x;
    if items != [] { assert all[|items| - 1] == items[|items| - 1]; }
  }

  lemma SameLink(items: seq<Item>, x: Item, i: nat)
    requires i < |items|
    ensures Links(items + [x], i) == Links(items, i)
  {
    assert (items + [x])[i] == items[i];
    if i > 0 { assert (items + [x])[i - 1] == items[i - 1]; }
  }

  lemma OffsetsStay(items: seq<Item>, x: Item, starts: seq<nat>)
    requires forall j :: 0 <= j < |starts| ==> starts[j] <= |items|
    ensures OffsetsOf(items + [x], starts) == OffsetsOf(items, starts)
  {
    hide Offset;
    forall j | 0 <= j < |starts| ensures Offset(items + [x], starts[j]) == Offset(items, starts[j]) {
      OffsetOfMore(items, x, starts[j]);
    }
  }
}
