/** class HandleTable: handles in chained hash buckets. */
module HandleTables {
  import opened Coding
  import opened HandleLists

  predicate Matches(h: LRUHandle, key: seq<byte>, hash: uint32) {
    h.hash == hash && h.key == key
  }

  ghost predicate NoDuplicates(s: seq<LRUHandle>) {
    forall i, j :: 0 <= i < j < |s| ==> s[i] != s[j]
  }

  // ---- chains ----

  function FirstOf(s: seq<LRUHandle>): LRUHandle? {
    if s == [] then null else s[0]
  }

  function NextOf(s: seq<LRUHandle>, i: nat): LRUHandle? {
    if i + 1 < |s| then s[i + 1] else null
  }

  ghost predicate HopsAt(s: seq<LRUHandle>, i: nat)
    requires i < |s|
    reads s`nextHash
  {
    s[i].nextHash == NextOf(s, i)
  }

  /** The list that begins at `first`. */
  ghost predicate Chained(first: LRUHandle?, s: seq<LRUHandle>)
    reads s`nextHash
  {
    first == FirstOf(s) && forall i :: 0 <= i < |s| ==> HopsAt(s, i)
  }

  // ---- buckets ----

  type Chains = seq<seq<LRUHandle>>

  ghost predicate InBucket(chain: seq<LRUHandle>, b: nat, n: nat, handles: set<LRUHandle>)
    requires n > 0
  {
    NoDuplicates(chain) && forall k :: 0 <= k < |chain| ==> chain[k] in handles && chain[k].hash % n == b
  }

  /** Each handle is in the bucket of its hash, once. */
  ghost predicate Filed(chains: Chains, handles: set<LRUHandle>) {
    && |chains| > 0 && (forall b :: 0 <= b < |chains| ==> InBucket(chains[b], b, |chains|, handles))
    && forall h :: h in handles ==> h in chains[h.hash % |chains|]
  }

  /** No two handles have the same key and hash. */
  ghost predicate Distinct(handles: set<LRUHandle>) {
    forall g, h :: g in handles && h in handles && g.key == h.key && g.hash == h.hash ==> g == h
  }

  /** The cached handle for a key. */
  ghost predicate IsFound(handles: set<LRUHandle>, key: seq<byte>, hash: uint32, found: LRUHandle?) {
    if found == null then forall h :: h in handles ==> !Matches(h, key, hash)
    else found in handles && Matches(found, key, hash)
  }

  lemma FiledAppend(chains: Chains, handles: set<LRUHandle>, h: LRUHandle)
    requires Filed(chains, handles) && h !in handles
    ensures var b := h.hash % |chains|; Filed(chains[b := chains[b] + [h]], handles + {h})
  {
    var n := |chains|;
    var b := h.hash % n;
    assert InBucket(chains[b], b, n, handles);
    var later := chains[b := chains[b] + [h]];
    forall c | 0 <= c < n ensures InBucket(later[c], c, n, handles + {h}) {
      assert InBucket(chains[c], c, n, handles);
    }
    forall g | g in handles + {h} ensures g in later[g.hash % n] {
      if g == h {
        assert later[b][|chains[b]|] == h;
      } else {
        assert g in chains[g.hash % n];
      }
    }
  }

  lemma FiledPrepend(chains: Chains, handles: set<LRUHandle>, h: LRUHandle)
    requires Filed(chains, handles) && h !in handles
    ensures var b := h.hash % |chains|; Filed(chains[b := [h] + chains[b]], handles + {h})
  {
    var n := |chains|;
    var b := h.hash % n;
    assert InBucket(chains[b], b, n, handles);
    var later := chains[b := [h] + chains[b]];
    forall c | 0 <= c < n ensures InBucket(later[c], c, n, handles + {h}) {
      assert InBucket(chains[c], c, n, handles);
    }
    forall g | g in handles + {h} ensures g in later[g.hash % n] {
      if g == h {
        assert later[b][0] == h;
      } else {
        assert g in chains[g.hash % n];
      }
    }
  }

  lemma FiledReplace(chains: Chains, handles: set<LRUHandle>, b: nat, i: nat, h: LRUHandle)
    requires Filed(chains, handles) && h !in handles && b < |chains| && i < |chains[b]| && h.hash % |chains| == b
    ensures Filed(chains[b := chains[b][i := h]], handles - {chains[b][i]} + {h})
  {
    var n, gone := |chains|, chains[b][i];
    assert InBucket(chains[b], b, n, handles);
    var later, all := chains[b := chains[b][i := h]], handles - {gone} + {h};
    forall c | 0 <= c < n ensures InBucket(later[c], c, n, all) {
      assert InBucket(chains[c], c, n, handles);
    }
    forall g | g in all ensures g in later[g.hash % n] {
      if g == h {
        assert later[b][i] == h;
      } else {
        var c := g.hash % n;
        var k :| 0 <= k < |chains[c]| && chains[c][k] == g;
        assert later[c][k] == g;
      }
    }
  }

  lemma FiledRemove(chains: Chains, handles: set<LRUHandle>, b: nat, i: nat)
    requires Filed(chains, handles) && b < |chains| && i < |chains[b]|
    ensures Filed(chains[b := Without(chains[b], i)], handles - {chains[b][i]})
  {
    var n, gone := |chains|, chains[b][i];
    assert InBucket(chains[b], b, n, handles);
    var later, all := chains[b := Without(chains[b], i)], handles - {gone};
    forall c | 0 <= c < n ensures InBucket(later[c], c, n, all) {
      assert InBucket(chains[c], c, n, handles);
    }
    forall g | g in all ensures g in later[g.hash % n] {
      var c := g.hash % n;
      var k :| 0 <= k < |chains[c]| && chains[c][k] == g;
      if c == b {
        assert later[c][if k < i then k else k - 1] == g;
      }
    }
  }

  /** What a search of its bucket tells about a key. */
  lemma SearchTells(chains: Chains, handles: set<LRUHandle>, key: seq<byte>, hash: uint32, i: nat)
    requires Filed(chains, handles) && i <= |chains[hash % |chains|]|
    requires forall k :: 0 <= k < i ==> !Matches(chains[hash % |chains|][k], key, hash)
    requires i < |chains[hash % |chains|]| ==> Matches(chains[hash % |chains|][i], key, hash)
    ensures IsFound(handles, key, hash, if i < |chains[hash % |chains|]| then chains[hash % |chains|][i] else null)
  {
    var b := hash % |chains|;
    assert InBucket(chains[b], b, |chains|, handles);
    if i == |chains[b]| {
      forall h | h in handles ensures !Matches(h, key, hash) {
        assert h in chains[h.hash % |chains|];
      }
    }
  }

  lemma ApartFromOthers(chains: Chains, handles: set<LRUHandle>, b: nat, c: nat, i: nat)
    requires Filed(chains, handles) && b < |chains| && c < |chains| && b != c && i < |chains[b]|
    ensures chains[b][i] !in chains[c]
  {
    assert InBucket(chains[b], b, |chains|, handles) && InBucket(chains[c], c, |chains|, handles);
  }

  /** A bucket's list, of handles from the table. */
  ghost predicate Linked(first: LRUHandle?, chain: seq<LRUHandle>, handles: set<LRUHandle>)
    reads handles`nextHash
  {
    (forall k :: 0 <= k < |chain| ==> chain[k] in handles) && Chained(first, chain)
  }

  ghost predicate AllLinked(list: array<LRUHandle?>, chains: Chains, handles: set<LRUHandle>)
    reads list, handles`nextHash
  {
    |chains| == list.Length && forall b :: 0 <= b < |chains| ==> Linked(list[b], chains[b], handles)
  }

  /** The lengths Resize chooses: the bucket is then the low bits of the hash. */
  ghost predicate PowerOfTwo(n: nat) {
    n == 1 || (n > 0 && n % 2 == 0 && PowerOfTwo(n / 2))
  }

  lemma BucketOf(chains: Chains, handles: set<LRUHandle>, b: nat)
    requires Filed(chains, handles) && b < |chains|
    ensures NoDuplicates(chains[b])
    ensures forall k :: 0 <= k < |chains[b]| ==> chains[b][k] in handles && chains[b][k].hash % |chains| == b
  {
    assert InBucket(chains[b], b, |chains|, handles);
  }

  ghost function WithHandle(handles: set<LRUHandle>, replaced: LRUHandle?, h: LRUHandle): set<LRUHandle> {
    (if replaced == null then handles else handles - {replaced}) + {h}
  }

  lemma DistinctAfter(handles: set<LRUHandle>, replaced: LRUHandle?, h: LRUHandle)
    requires Distinct(handles) && IsFound(handles, h.key, h.hash, replaced) && h !in handles
    ensures Distinct(WithHandle(handles, replaced, h))
    ensures |WithHandle(handles, replaced, h)| == |handles| + if replaced == null then 1 else 0
  {
  }

  lemma FewerDistinct(handles: set<LRUHandle>, h: LRUHandle)
    requires Distinct(handles)
    ensures Distinct(handles - {h})
  {
  }

  lemma AllBuckets(chains: Chains, handles: set<LRUHandle>)
    requires Filed(chains, handles)
    ensures forall b :: 0 <= b < |chains| ==> NoDuplicates(chains[b])
    ensures forall b, k :: 0 <= b < |chains| && 0 <= k < |chains[b]| ==> chains[b][k] in handles
  {
    forall b | 0 <= b < |chains| ensures NoDuplicates(chains[b]) {
      BucketOf(chains, handles, b);
    }
    forall b, k | 0 <= b < |chains| && 0 <= k < |chains[b]| ensures chains[b][k] in handles {
      BucketOf(chains, handles, b);
    }
  }

  // ---- moving to another array ----

  /** The handles of the buckets before i and the first k of bucket i. */
  ghost predicate MovedSoFar(chains: Chains, handles: set<LRUHandle>, moved: set<LRUHandle>, i: nat, k: nat)
    requires |chains| > 0
  {
    && moved <= handles && i <= |chains| && (if i < |chains| then k <= |chains[i]| else k == 0)
    && forall g :: g in handles ==>
         (g in moved <==> g.hash % |chains| < i || (g.hash % |chains| == i && i < |chains| && g in chains[i][..k]))
  }

  lemma NothingMoved(chains: Chains, handles: set<LRUHandle>)
    requires |chains| > 0
    ensures MovedSoFar(chains, handles, {}, 0, 0)
  {
  }

  lemma OneMoreMoved(chains: Chains, handles: set<LRUHandle>, moved: set<LRUHandle>, i: nat, k: nat)
    requires Filed(chains, handles) && MovedSoFar(chains, handles, moved, i, k) && i < |chains| && k < |chains[i]|
    ensures chains[i][k] in handles - moved
    ensures MovedSoFar(chains, handles, moved + {chains[i][k]}, i, k + 1)
  {
    BucketOf(chains, handles, i);
    assert chains[i][..k + 1] == chains[i][..k] + [chains[i][k]];
  }

  lemma BucketMoved(chains: Chains, handles: set<LRUHandle>, moved: set<LRUHandle>, i: nat)
    requires Filed(chains, handles) && i < |chains| && MovedSoFar(chains, handles, moved, i, |chains[i]|)
    ensures MovedSoFar(chains, handles, moved, i + 1, 0)
  {
    hide InBucket;
    assert chains[i][..|chains[i]|] == chains[i];
    forall g | g in handles
      ensures g in moved <==> g.hash % |chains| < i + 1
    {
      assert g in chains[g.hash % |chains|];
    }
  }

  lemma AllMoved(chains: Chains, handles: set<LRUHandle>, moved: set<LRUHandle>)
    requires |chains| > 0 && MovedSoFar(chains, handles, moved, |chains|, 0)
    ensures moved == handles
  {
    forall g | g in handles ensures g in moved {
      assert g.hash % |chains| < |chains|;
    }
  }

  lemma NothingFiled(n: nat)
    requires n > 0
    ensures Filed(seq(n, _ => []), {})
  {
  }

  /** To the front of its bucket. */
  method MoveTo(newList: array<LRUHandle?>, h: LRUHandle, ghost chains: Chains, ghost moved: set<LRUHandle>)
      returns (ghost later: Chains)
    requires Filed(chains, moved) && AllLinked(newList, chains, moved) && h !in moved && newList.Length > 0
    modifies newList, h`nextHash
    ensures Filed(later, moved + {h}) && AllLinked(newList, later, moved + {h})
  {
    hide Filed;
    var b := BucketIndex(h.hash, newList.Length);
    FiledPrepend(chains, moved, h);
    later := chains[b := [h] + chains[b]];
    assert Linked(newList[b], chains[b], moved);
    h.nextHash := newList[b];
    newList[b] := h;
    forall k | 0 <= k < |later[b]| ensures HopsAt(later[b], k) {
      assert k > 0 ==> old(HopsAt(chains[b], k - 1));
    }
    forall c | 0 <= c < |later| && c != b ensures Linked(newList[c], later[c], moved + {h}) {
      assert old(Linked(newList[c], chains[c], moved));
    }
  }

  /** hash & (length - 1). */
  function BucketIndex(hash: uint32, length: nat): (r: nat)
    ensures length > 0 ==> r < length && r == hash % length
  {
    if length == 0 then 0 else hash % length
  }

  /** The first power of two, from 4 on, that is enough. */
  method LengthFor(elems: nat) returns (newLength: nat)
    ensures newLength >= 4 && newLength >= elems && PowerOfTwo(newLength)
    ensures newLength > 4 ==> newLength < 2 * elems
  {
    newLength := 4;
    assert PowerOfTwo(1) && PowerOfTwo(2);
    while newLength < elems
      invariant newLength >= 4 && PowerOfTwo(newLength) && (newLength > 4 ==> newLength < 2 * elems)
      decreases elems - newLength
    {
      newLength := newLength * 2;
    }
  }

  class HandleTable {
    var length: nat
    var elems: nat
    var list: array<LRUHandle?>
    ghost var chains: Chains
    ghost var handles: set<LRUHandle>

    /** All but the load: an insertion may put one handle too many. */
    ghost predicate Sound()
      reads this, list, handles`nextHash
    {
      && AllLinked(list, chains, handles) && list.Length == length && Filed(chains, handles) && Distinct(handles)
      && elems == |handles| && length >= 4 && PowerOfTwo(length)
    }

    /** There is a bucket for each handle. */
    ghost predicate Valid()
      reads this, list, handles`nextHash
    {
      Sound() && |handles| <= length
    }

    /** The place a search stops at: element i of bucket b, or its end. */
    ghost predicate Slot(b: nat, i: nat, prev: LRUHandle?, found: LRUHandle?)
      reads this
    {
      && b < |chains| && i <= |chains[b]|
      && found == (if i < |chains[b]| then chains[b][i] else null)
      && prev == if i == 0 then null else chains[b][i - 1]
    }

    constructor ()
      ensures Valid() && handles == {} && fresh(list)
    {
      length, elems := 4, 0;
      list := new LRUHandle?[4](_ => null);
      chains, handles := seq(4, _ => []), {};
      new;
      assert PowerOfTwo(2);
    }

    method FindPointer(key: seq<byte>, hash: uint32) returns (prev: LRUHandle?, found: LRUHandle?, ghost i: nat)
      requires Valid()
      ensures hash % length < |chains| && Slot(hash % length, i, prev, found)
      ensures IsFound(handles, key, hash, found)
    {
      hide Filed, Distinct, IsFound, PowerOfTwo;
      var b := BucketIndex(hash, length);
      assert Linked(list[b], chains[b], handles);
      prev, found, i := null, list[b], 0;
      while found != null && !Matches(found, key, hash)
        invariant Slot(b, i, prev, found)
        invariant forall k :: 0 <= k < i ==> !Matches(chains[b][k], key, hash)
        decreases |chains[b]| - i
      {
        assert HopsAt(chains[b], i);
        prev := found;
        found := found.nextHash;
        i := i + 1;
      }
      SearchTells(chains, handles, key, hash, i);
    }

    method Lookup(key: seq<byte>, hash: uint32) returns (found: LRUHandle?)
      requires Valid()
      ensures IsFound(handles, key, hash, found)
    {
      var prev;
      ghost var i;
      prev, found, i := FindPointer(key, hash);
    }

    /** Assigns to the pointer that leads to place i of bucket b, after which
        that bucket is what is said it will be. */
    method SetPointer(b: nat, prev: LRUHandle?, h: LRUHandle?, ghost i: nat, ghost later: seq<LRUHandle>,
        ghost all: set<LRUHandle>)
      requires AllLinked(list, chains, handles) && Filed(chains, handles) && b < |chains| && i <= |chains[b]|
      requires prev == if i == 0 then null else chains[b][i - 1]
      requires i <= |later| && later[..i] == chains[b][..i] && (h == if i < |later| then later[i] else null)
      requires forall k :: i <= k < |later| ==> HopsAt(later, k)
      requires Filed(chains[b := later], all)
      modifies this`chains, this`handles, list, handles`nextHash
      ensures AllLinked(list, chains, handles) && chains == old(chains)[b := later] && handles == all
    {
      hide Filed;
      ghost var before := chains;
      AllBuckets(chains[b := later], all);
      assert later == chains[b := later][b];
      assert forall c :: 0 <= c < |chains| && c != b ==> chains[b := later][c] == chains[c];
      assert Linked(list[b], chains[b], handles);
      forall c, k | 0 <= c < |chains| && c != b && 0 <= k < |chains[c]| && i > 0
        ensures chains[c][k] != chains[b][i - 1] {
        ApartFromOthers(chains, handles, c, b, k);
      }
      if prev == null {
        list[b] := h;
      } else {
        prev.nextHash := h;
      }
      chains := chains[b := later];
      handles := all;
      forall k | 0 <= k < |later| ensures HopsAt(later, k) {
        assert i > 0 ==> later[i - 1] == later[..i][i - 1] == prev && (k != i - 1 ==> later[k] != later[i - 1]);
        if k < i - 1 {
          assert later[k] == later[..i][k] == before[b][k] && later[k + 1] == later[..i][k + 1] == before[b][k + 1];
          assert old(HopsAt(before[b], k));
        } else if k >= i {
          assert old(HopsAt(later, k));
        }
      }
      assert Linked(list[b], later, all);
      forall c | 0 <= c < |chains| && c != b ensures Linked(list[c], chains[c], handles) {
        assert old(Linked(list[c], chains[c], handles));
      }
    }

    method Put(h: LRUHandle, prev: LRUHandle?, replaced: LRUHandle?, ghost i: nat) returns (ghost later: seq<LRUHandle>)
      requires Valid() && h !in handles && Slot(BucketIndex(h.hash, length), i, prev, replaced)
      modifies this`chains, this`handles, list, handles`nextHash, h`nextHash
      ensures AllLinked(list, chains, handles) && Filed(chains, handles) && |chains| == list.Length
      ensures handles == WithHandle(old(handles), replaced, h)
    {
      hide Filed, Distinct, PowerOfTwo;
      var b := BucketIndex(h.hash, length);
      assert Linked(list[b], chains[b], handles);
      later := if replaced == null then chains[b] + [h] else chains[b][i := h];
      if replaced == null {
        FiledAppend(chains, handles, h);
      } else {
        FiledReplace(chains, handles, b, i, h);
      }
      h.nextHash := if replaced == null then null else replaced.nextHash;
      forall k | i <= k < |later| ensures HopsAt(later, k) {
        assert k < |chains[b]| ==> HopsAt(chains[b], k);
      }
      SetPointer(b, prev, h, i, later, WithHandle(handles, replaced, h));
    }

    /** Insert up to the check of the load. */
    method Place(h: LRUHandle) returns (replaced: LRUHandle?)
      requires Valid() && h !in handles
      modifies this`chains, this`handles, this`elems, list, handles`nextHash, h`nextHash
      ensures Sound() && IsFound(old(handles), h.key, h.hash, replaced)
      ensures handles == WithHandle(old(handles), replaced, h)
      ensures |handles| == |old(handles)| + if replaced == null then 1 else 0
    {
      hide Filed, Distinct, IsFound, PowerOfTwo, AllLinked, WithHandle;
      var prev;
      ghost var i;
      prev, replaced, i := FindPointer(h.key, h.hash);
      DistinctAfter(handles, replaced, h);
      ghost var later := Put(h, prev, replaced, i);
      if replaced == null {
        elems := elems + 1;
      }
    }

    method Insert(h: LRUHandle) returns (replaced: LRUHandle?)
      requires Valid() && h !in handles
      modifies this, list, handles`nextHash, h`nextHash
      ensures Valid() && IsFound(old(handles), h.key, h.hash, replaced)
      ensures handles == WithHandle(old(handles), replaced, h)
      ensures if |handles| <= old(length) then list == old(list) && length == old(length)
        else fresh(list) && length < 2 * |handles|
    {
      hide Sound, IsFound;
      ElemsAre();
      replaced := Place(h);
      ElemsAre();
      if replaced == null && elems > length {
        Resize();
      }
    }

    method Remove(key: seq<byte>, hash: uint32) returns (result: LRUHandle?)
      requires Valid()
      modifies this, list, handles`nextHash
      ensures Valid() && IsFound(old(handles), key, hash, result) && list == old(list)
      ensures handles == if result == null then old(handles) else old(handles) - {result}
    {
      hide Filed, Distinct, IsFound, PowerOfTwo;
      var prev;
      ghost var i;
      prev, result, i := FindPointer(key, hash);
      if result != null {
        var b := BucketIndex(hash, length);
        FiledRemove(chains, handles, b, i);
        ghost var later := Without(chains[b], i);
        assert Linked(list[b], chains[b], handles);
        assert HopsAt(chains[b], i);
        forall k | i <= k < |later| ensures HopsAt(later, k) {
          assert HopsAt(chains[b], k + 1);
        }
        FewerDistinct(handles, result);
        SetPointer(b, prev, result.nextHash, i, later, handles - {result});
        elems := elems - 1;
      }
    }

    lemma ElemsAre()
      requires Sound()
      ensures elems == |handles| && length >= 4
    {
    }

    /** The load is then at most 1, and above 1/2 unless there are few handles. */
    method Resize()
      requires Sound()
      modifies this, handles`nextHash
      ensures Valid() && handles == old(handles) && fresh(list) && (length > 4 ==> length < 2 * |handles|)
    {
      hide Filed, Distinct, AllLinked, PowerOfTwo;
      var newLength := LengthFor(elems);
      var newList := new LRUHandle?[newLength](_ => null);
      ghost var newChains: Chains := MoveAll(newList);
      list, length := newList, newLength;
      chains := newChains;
    }

    /** The buckets one after the other, into an empty array. */
    method MoveAll(newList: array<LRUHandle?>) returns (ghost newChains: Chains)
      requires Sound() && newList != list && newList.Length > 0
      requires forall b :: 0 <= b < newList.Length ==> newList[b] == null
      modifies newList, handles`nextHash
      ensures Filed(newChains, handles) && AllLinked(newList, newChains, handles)
    {
      hide Filed, Distinct, PowerOfTwo;
      ghost var moved: set<LRUHandle>;
      newChains, moved := seq(newList.Length, _ => []), {};
      NothingFiled(newList.Length);
      NothingMoved(chains, handles);
      assert forall c :: 0 <= c < |chains| ==> Linked(list[c], chains[c], handles);
      hide AllLinked, MovedSoFar;
      for i := 0 to length
        invariant Filed(newChains, moved) && AllLinked(newList, newChains, moved)
        invariant MovedSoFar(chains, handles, moved, i, 0)
        invariant forall c :: i <= c < |chains| ==> Chained(list[c], chains[c])
      {
        newChains, moved := MoveBucket(i, newList, newChains, moved);
      }
      AllMoved(chains, handles, moved);
    }

    method MoveBucket(i: nat, newList: array<LRUHandle?>, ghost newChains: Chains, ghost moved: set<LRUHandle>)
        returns (ghost later: Chains, ghost all: set<LRUHandle>)
      requires i < |chains| == list.Length && Filed(chains, handles) && list != newList
      requires Filed(newChains, moved) && AllLinked(newList, newChains, moved) && newList.Length > 0
      requires MovedSoFar(chains, handles, moved, i, 0)
      requires forall c :: i <= c < |chains| ==> Chained(list[c], chains[c])
      modifies newList, handles`nextHash
      ensures Filed(later, all) && AllLinked(newList, later, all)
      ensures MovedSoFar(chains, handles, all, i + 1, 0)
      ensures forall c :: i < c < |chains| ==> Chained(list[c], chains[c])
    {
      hide Filed, MovedSoFar, AllLinked;
      later, all := newChains, moved;
      BucketOf(chains, handles, i);
      var h := list[i];
      ghost var k := 0;
      assert forall m :: 0 <= m < |chains[i]| ==> HopsAt(chains[i], m);
      hide Chained;
      while h != null
        invariant k <= |chains[i]| && h == if k < |chains[i]| then chains[i][k] else null
        invariant forall m :: k <= m < |chains[i]| ==> HopsAt(chains[i], m)
        invariant Filed(later, all) && AllLinked(newList, later, all)
        invariant MovedSoFar(chains, handles, all, i, k)
        invariant forall c :: i < c < |chains| ==> Chained(list[c], chains[c])
        decreases |chains[i]| - k
      {
        assert HopsAt(chains[i], k);
        var next := h.nextHash;
        OneMoreMoved(chains, handles, all, i, k);
        forall c, m | i < c < |chains| && 0 <= m < |chains[c]| ensures chains[c][m] != h {
          ApartFromOthers(chains, handles, c, i, m);
        }
        label before:
        later := MoveTo(newList, h, later, all);
        forall m | k < m < |chains[i]| ensures HopsAt(chains[i], m) {
          assert chains[i][m] != h && old@before(HopsAt(chains[i], m));
        }
        all := all + {h};
        h := next;
        k := k + 1;
      }
      BucketMoved(chains, handles, all, i);
    }
  }
}
