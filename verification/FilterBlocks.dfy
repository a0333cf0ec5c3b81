/** The filter block of a table: one filter for the keys of each 2 KB of data. */
module FilterBlocks {
  import opened Coding
  import opened ByteOrder
  import opened Blooms

  const FILTER_BASE_LG: nat := 11
  const FILTER_BASE: nat := 2048

  type Groups = seq<seq<seq<byte>>>

  // ---- flattened keys ----

  function Flat(keys: seq<seq<byte>>): seq<byte> {
    if keys == [] then [] else Flat(keys[..|keys| - 1]) + keys[|keys| - 1]
  }

  function StartOf(keys: seq<seq<byte>>, i: nat): nat
    requires i <= |keys|
  {
    |Flat(keys[..i])|
  }

  lemma {:induction false} FlatAt(keys: seq<seq<byte>>, i: nat)
    requires i < |keys|
    ensures StartOf(keys, i) <= StartOf(keys, i + 1) <= |Flat(keys)|
    ensures Flat(keys)[StartOf(keys, i)..StartOf(keys, i + 1)] == keys[i]
    decreases |keys|
  {
    var n := |keys| - 1;
    assert keys[..i + 1][..i] == keys[..i];
    if i == n {
      assert keys[..i + 1] == keys;
    } else {
      var front := keys[..n];
      FlatAt(front, i);
      assert front[..i] == keys[..i] && front[..i + 1] == keys[..i + 1] && front[i] == keys[i];
    }
  }

  lemma StartsStay(keys: seq<seq<byte>>, key: seq<byte>, i: nat)
    requires i <= |keys|
    ensures StartOf(keys + [key], i) == StartOf(keys, i)
  {
    assert (keys + [key])[..i] == keys[..i];
  }

  // ---- the layout of the block ----

  function UsersOf(keys: seq<seq<byte>>): (r: seq<seq<byte>>)
    ensures |r| == |keys| && forall i :: 0 <= i < |keys| ==> r[i] == User(keys[i])
  {
    seq(|keys|, i requires 0 <= i < |keys| => User(keys[i]))
  }

  /** Filter f lies between offset f and the next; a group without keys has an
      empty one. */
  ghost predicate FilterFits(policy: BloomFilterPolicy, result: seq<byte>, start: nat, limit: nat,
      keys: seq<seq<byte>>) {
    && start <= limit <= |result|
    && if keys == [] then start == limit else policy.IsFilter(UsersOf(keys), result[start..limit])
  }

  function LimitOf(result: seq<byte>, offsets: seq<nat>, f: nat): nat
    requires f < |offsets|
  {
    if f + 1 < |offsets| then offsets[f + 1] else |result|
  }

  ghost predicate AllFit(policy: BloomFilterPolicy, result: seq<byte>, offsets: seq<nat>, groups: Groups) {
    && |offsets| == |groups|
    && (forall f :: 0 <= f < |offsets| ==> offsets[f] <= |result|)
    && (forall f :: 0 <= f < |offsets| ==>
          FilterFits(policy, result, offsets[f], LimitOf(result, offsets, f), groups[f]))
  }

  lemma OneMoreFits(policy: BloomFilterPolicy, result: seq<byte>, offsets: seq<nat>, groups: Groups, more: seq<byte>,
      keys: seq<seq<byte>>)
    requires AllFit(policy, result, offsets, groups)
    requires FilterFits(policy, result + more, |result|, |result + more|, keys)
    ensures AllFit(policy, result + more, offsets + [|result|], groups + [keys])
  {
    var all := offsets + [|result|];
    forall f | 0 <= f < |all|
      ensures FilterFits(policy, result + more, all[f], LimitOf(result + more, all, f), (groups + [keys])[f])
    {
      if f < |offsets| {
        assert FilterFits(policy, result, offsets[f], LimitOf(result, offsets, f), groups[f]);
        assert LimitOf(result + more, all, f) == LimitOf(result, offsets, f);
        var s, l := offsets[f], LimitOf(result, offsets, f);
        assert (result + more)[s..l] == result[s..l];
      }
    }
  }

  function OffsetBytes(offsets: seq<nat>): seq<byte> {
    if offsets == [] then []
    else OffsetBytes(offsets[..|offsets| - 1]) + EncodeFixed32(offsets[|offsets| - 1] % TWO_32)
  }

  lemma {:induction false} OffsetAt(offsets: seq<nat>, f: nat)
    requires f < |offsets|
    ensures |OffsetBytes(offsets)| == 4 * |offsets|
    ensures DecodeFixed32(OffsetBytes(offsets)[4 * f..4 * f + 4]) == offsets[f] % TWO_32
  {
    hide EncodeFixed32, DecodeFixed32;
    var n := |offsets| - 1;
    OffsetBytesLength(offsets[..n]);
    var front, last := OffsetBytes(offsets[..n]), EncodeFixed32(offsets[n] % TWO_32);
    if f == n {
      assert (front + last)[4 * n..4 * n + 4] == last;
      DecodeEncodeFixed32(offsets[n] % TWO_32);
    } else {
      OffsetAt(offsets[..n], f);
      assert (front + last)[4 * f..4 * f + 4] == front[4 * f..4 * f + 4];
    }
  }

  lemma {:induction false} OffsetBytesLength(offsets: seq<nat>)
    ensures |OffsetBytes(offsets)| == 4 * |offsets|
  {
    hide EncodeFixed32;
    if offsets != [] { OffsetBytesLength(offsets[..|offsets| - 1]); }
  }

  function Contents(result: seq<byte>, offsets: seq<nat>): seq<byte> {
    result + OffsetBytes(offsets) + EncodeFixed32(|result| % TWO_32) + [FILTER_BASE_LG]
  }

  /** A finished filter block for these groups. */
  ghost predicate IsFilterBlock(policy: BloomFilterPolicy, contents: seq<byte>, groups: Groups) {
    exists result, offsets ::
      AllFit(policy, result, offsets, groups) && |result| < TWO_32 && contents == Contents(result, offsets)
  }

  /** The groups that were skipped have no keys. */
  function Empties(n: nat): (r: Groups)
    ensures |r| == n
  {
    seq(n, _ => [])
  }

  lemma MoreEmpties(n: nat)
    ensures Empties(n) + [[]] == Empties(n + 1)
  {
  }

  /** Every key stays in its group. */
  ghost predicate Keeps(later: Groups, before: Groups) {
    |before| <= |later| && forall f, key :: 0 <= f < |before| && key in before[f] ==> key in later[f]
  }

  class FilterBlockBuilder {
    const policy: BloomFilterPolicy
    var keys: seq<byte>
    var start: seq<nat>
    var result: seq<byte>
    var filterOffsets: seq<nat>
    ghost var pending: seq<seq<byte>>
    ghost var groups: Groups

    ghost predicate Valid()
      reads this
    {
      && policy.Valid() && AllFit(policy, result, filterOffsets, groups) && |filterOffsets| == |groups|
      && keys == Flat(pending) && |start| == |pending|
      && forall i :: 0 <= i < |start| ==> start[i] == StartOf(pending, i)
    }

    /** The groups so far, the open one last. */
    ghost function Filed(): Groups
      reads this
    {
      groups + [pending]
    }

    constructor (policy: BloomFilterPolicy)
      requires policy.Valid()
      ensures Valid() && Filed() == [[]] && this.policy == policy
    {
      this.policy := policy;
      keys, start, result, filterOffsets := [], [], [], [];
      pending, groups := [], [];
    }

    method StartBlock(blockOffset: nat)
      requires Valid() && blockOffset / FILTER_BASE >= |groups|
      modifies this
      ensures Valid() && |groups| == blockOffset / 2048 && Keeps(Filed(), old(Filed()))
      ensures Filed() == old(Filed()) + Empties(blockOffset / 2048 - old(|groups|))
      ensures |result| >= |old(result)|
    {
      hide AllFit;
      var filterIndex := blockOffset / FILTER_BASE;
      assert Filed() == Filed() + Empties(0);
      while filterIndex > |filterOffsets|
        invariant Valid() && old(|groups|) <= |filterOffsets| == |groups| <= filterIndex
        invariant Filed() == old(Filed()) + Empties(|groups| - old(|groups|)) && Keeps(Filed(), old(Filed()))
        invariant |result| >= |old(result)|
        decreases filterIndex - |filterOffsets|
      {
        ghost var before := Filed();
        GenerateFilter();
        KeepsOn(Filed(), before, old(Filed()));
        MoreEmpties(|before| - 1 - old(|groups|));
      }
    }

    method AddKey(key: seq<byte>)
      requires Valid()
      modifies this`start, this`keys, this`pending
      ensures Valid() && pending == old(pending) + [key]
    {
      hide AllFit;
      assert (pending + [key])[..|pending|] == pending;
      forall i | 0 <= i < |start| ensures start[i] == StartOf(pending + [key], i) {
        StartsStay(pending, key, i);
      }
      start := start + [|keys|];
      keys := keys + key;
      pending := pending + [key];
    }

    method Finish() returns (contents: seq<byte>)
      requires Valid()
      modifies this
      ensures Valid() && Keeps(groups + [[]], old(Filed()))
      ensures groups == if old(pending) == [] then old(groups) else old(Filed())
      ensures |result| <= |contents| && (|result| < TWO_32 ==> IsFilterBlock(policy, contents, groups))
    {
      hide AllFit, EncodeFixed32;
      if start != [] {
        GenerateFilter();
      }
      contents := result;
      assert filterOffsets[..0] == [] && result + OffsetBytes([]) == result;
      for i := 0 to |filterOffsets|
        invariant contents == result + OffsetBytes(filterOffsets[..i])
      {
        assert filterOffsets[..i + 1][..i] == filterOffsets[..i];
        contents := contents + EncodeFixed32(filterOffsets[i] % TWO_32);
      }
      assert filterOffsets[..|filterOffsets|] == filterOffsets;
      contents := contents + EncodeFixed32(|result| % TWO_32);
      contents := contents + [FILTER_BASE_LG];
      assert contents == Contents(result, filterOffsets);
    }

    method GenerateFilter()
      requires Valid()
      modifies this
      ensures Valid() && groups == old(Filed()) && pending == []
      ensures |filterOffsets| == old(|filterOffsets|) + 1 && |result| >= |old(result)|
    {
      hide AllFit;
      var numKeys := |start|;
      if numKeys == 0 {
        NothingFits(policy, result, filterOffsets, groups);
        filterOffsets := filterOffsets + [|result|];
        groups, pending := groups + [pending], [];
        return;
      }
      var tmpKeys := UserKeys();
      ghost var before := result;
      var filter := policy.CreateFilter(tmpKeys, []);
      CreatedFits(policy, before, filter, tmpKeys, pending);
      OneMoreFits(policy, before, filterOffsets, groups, filter, pending);
      filterOffsets := filterOffsets + [|result|];
      result := result + filter;
      groups, pending := groups + [pending], [];
      keys, start := [], [];
    }

    /** The keys cut out of the flattened form, as InternalFilterPolicy hands
        them on. */
    method UserKeys() returns (tmpKeys: seq<seq<byte>>)
      requires Valid()
      ensures |tmpKeys| == |pending| && forall i :: 0 <= i < |pending| ==> tmpKeys[i] == User(pending[i])
    {
      hide AllFit;
      tmpKeys := [];
      var starts := start + [|keys|];
      assert pending[..|pending|] == pending;
      for i := 0 to |start|
        invariant |tmpKeys| == i && forall m :: 0 <= m < i ==> tmpKeys[m] == User(pending[m])
      {
        FlatAt(pending, i);
        assert starts[i] == StartOf(pending, i) && starts[i + 1] == StartOf(pending, i + 1);
        tmpKeys := tmpKeys + [User(keys[starts[i]..starts[i + 1]])];
      }
    }
  }

  lemma KeepsOn(a: Groups, b: Groups, c: Groups)
    requires Keeps(a, b) && Keeps(b, c)
    ensures Keeps(a, c)
  {
  }

  lemma NothingFits(policy: BloomFilterPolicy, result: seq<byte>, offsets: seq<nat>, groups: Groups)
    requires AllFit(policy, result, offsets, groups)
    ensures AllFit(policy, result, offsets + [|result|], groups + [[]])
  {
    OneMoreFits(policy, result, offsets, groups, [], []);
    assert result + [] == result;
  }

  lemma CreatedFits(policy: BloomFilterPolicy, before: seq<byte>, filter: seq<byte>, tmpKeys: seq<seq<byte>>,
      keys: seq<seq<byte>>)
    requires |tmpKeys| == |keys| && forall i :: 0 <= i < |keys| ==> tmpKeys[i] == User(keys[i])
    requires policy.IsFilter(tmpKeys, filter[0..]) && keys != []
    ensures FilterFits(policy, before + filter, |before|, |before + filter|, keys)
  {
    hide BloomFilterPolicy.IsFilter;
    assert filter[0..] == filter && (before + filter)[|before|..|before + filter|] == filter;
    assert tmpKeys == UsersOf(keys);
  }

  /** What the reader finds for group f: the words number f and f + 1 of the
      offset array. */
  ghost predicate GroupReads(policy: BloomFilterPolicy, contents: seq<byte>, keys: seq<seq<byte>>, offsetStart: nat,
      f: nat)
    requires offsetStart <= |contents|
  {
    var start, limit := WordAt(contents, offsetStart + 4 * f), WordAt(contents, offsetStart + 4 * f + 4);
    limit <= offsetStart && FilterFits(policy, contents, start, limit, keys)
  }

  ghost predicate Reads(policy: BloomFilterPolicy, contents: seq<byte>, groups: Groups, offsetStart: nat, num: nat,
      baseLg: nat)
  {
    && baseLg == FILTER_BASE_LG && num == |groups| && offsetStart + 4 * num + 5 <= |contents|
    && forall f :: 0 <= f < num ==> GroupReads(policy, contents, groups[f], offsetStart, f)
  }

  function WordAt(contents: seq<byte>, p: nat): nat {
    if p + 4 <= |contents| then DecodeFixed32(contents[p..p + 4]) else 0
  }

  class FilterBlockReader {
    const policy: BloomFilterPolicy
    const contents: seq<byte>
    const offsetStart: nat
    const num: nat
    const baseLg: nat

    /** Any contents will do; from a finished block it finds all groups. */
    constructor (policy: BloomFilterPolicy, contents: seq<byte>, ghost groups: Groups)
      ensures this.policy == policy && this.contents == contents
      ensures num > 0 ==> offsetStart + 4 * num + 5 <= |contents|
      ensures IsFilterBlock(policy, contents, groups) ==> Reads(policy, contents, groups, offsetStart, num, baseLg)
    {
      hide Reads, IsFilterBlock, DecodeFixed32;
      this.policy, this.contents := policy, contents;
      var n := |contents|;
      var lastWord := if n < 5 then 0 else DecodeFixed32(contents[n - 5..n - 1]);
      var ok := n >= 5 && lastWord <= n - 5;
      baseLg := if n < 5 then 0 else contents[n - 1];
      offsetStart := if ok then lastWord else 0;
      num := if ok then (n - 5 - lastWord) / 4 else 0;
      new;
      if IsFilterBlock(policy, contents, groups) {
        BlockReads(policy, contents, groups);
      }
    }

    /** The filter of the group that a block at this offset belongs to decides;
        a group without keys has none of any key. */
    method KeyMayMatch(blockOffset: nat, key: seq<byte>, ghost groups: Groups) returns (r: bool)
      requires num > 0 ==> offsetStart + 4 * num + 5 <= |contents|
      ensures Reads(policy, contents, groups, offsetStart, num, baseLg) ==>
          MayMatch(policy, groups, blockOffset, User(key), r)
    {
      hide Reads, WordAt, BloomFilterPolicy.Matches, BloomFilterPolicy.IsFilter, Pow2;
      var index := blockOffset / Pow2(baseLg);
      if index < num {
        var start := WordAt(contents, offsetStart + 4 * index);
        var limit := WordAt(contents, offsetStart + 4 * index + 4);
        if Reads(policy, contents, groups, offsetStart, num, baseLg) {
          ReadsGroup(policy, contents, groups, offsetStart, num, baseLg, blockOffset);
        }
        if start <= limit && limit <= offsetStart {
          r := policy.KeyMayMatch(User(key), contents[start..limit]);
          if start == limit { TooShort(policy, contents[start..limit], User(key)); }
          return;
        } else if start == limit {
          return false;
        }
      }
      if Reads(policy, contents, groups, offsetStart, num, baseLg) {
        AsManyGroups(policy, contents, groups, offsetStart, num, baseLg, blockOffset);
      }
      return true;
    }
  }

  /** The answer that the group's filter gives; beyond the last group it is yes. */
  ghost predicate MayMatch(policy: BloomFilterPolicy, groups: Groups, blockOffset: nat, user: seq<byte>, r: bool) {
    var g := blockOffset / 2048;
    if g >= |groups| then r
    else if groups[g] == [] then !r
    else exists filter :: policy.IsFilter(UsersOf(groups[g]), filter) && (r <==> policy.Matches(filter, user))
  }

  /** So no user key of the group is denied. */
  lemma FiledMayMatch(policy: BloomFilterPolicy, groups: Groups, blockOffset: nat, key: seq<byte>, r: bool)
    requires MayMatch(policy, groups, blockOffset, User(key), r) && InGroup(groups, blockOffset, key)
    ensures r
  {
    hide BloomFilterPolicy.IsFilter, BloomFilterPolicy.Matches, User;
    var keys := groups[blockOffset / 2048];
    var filter :| policy.IsFilter(UsersOf(keys), filter) && (r <==> policy.Matches(filter, User(key)));
    var i :| 0 <= i < |keys| && keys[i] == key;
    policy.FilterMatchesKeys(UsersOf(keys), filter);
    assert UsersOf(keys)[i] == User(key);
  }

  lemma TooShort(policy: BloomFilterPolicy, filter: seq<byte>, key: seq<byte>)
    requires filter == []
    ensures !policy.Matches(filter, key)
  {
  }

  ghost predicate InGroup(groups: Groups, blockOffset: nat, key: seq<byte>) {
    blockOffset / FILTER_BASE < |groups| && key in groups[blockOffset / FILTER_BASE]
  }

  lemma ReadsGroup(policy: BloomFilterPolicy, contents: seq<byte>, groups: Groups, offsetStart: nat, num: nat,
      baseLg: nat, blockOffset: nat)
    requires Reads(policy, contents, groups, offsetStart, num, baseLg) && blockOffset / Pow2(baseLg) < num
    ensures var index := blockOffset / Pow2(baseLg);
      var start, limit := WordAt(contents, offsetStart + 4 * index), WordAt(contents, offsetStart + 4 * index + 4);
      && index == blockOffset / 2048 < |groups| && start <= limit <= offsetStart <= |contents|
      && if groups[index] == [] then start == limit
         else policy.IsFilter(UsersOf(groups[index]), contents[start..limit])
  {
    hide WordAt, BloomFilterPolicy.IsFilter;
    PowerOfBase();
    assert GroupReads(policy, contents, groups[blockOffset / 2048], offsetStart, blockOffset / 2048);
  }

  lemma AsManyGroups(policy: BloomFilterPolicy, contents: seq<byte>, groups: Groups, offsetStart: nat, num: nat,
      baseLg: nat, blockOffset: nat)
    requires Reads(policy, contents, groups, offsetStart, num, baseLg)
    ensures num == |groups| && blockOffset / Pow2(baseLg) == blockOffset / 2048
  {
    PowerOfBase();
    hide Pow2, GroupReads;
  }

  lemma PowerOfBase()
    ensures Pow2(FILTER_BASE_LG) == FILTER_BASE
  {
    assert Pow2(5) == 32 && Pow2(8) == 8 * Pow2(5) && Pow2(11) == 8 * Pow2(8);
  }

  lemma BlockReads(policy: BloomFilterPolicy, contents: seq<byte>, groups: Groups)
    requires IsFilterBlock(policy, contents, groups)
    ensures var n := |contents|;
      && n >= 5 && var lastWord := DecodeFixed32(contents[n - 5..n - 1]);
      && lastWord <= n - 5 && contents[n - 1] == FILTER_BASE_LG
      && Reads(policy, contents, groups, lastWord, (n - 5 - lastWord) / 4, FILTER_BASE_LG)
  {
    hide EncodeFixed32, DecodeFixed32, OffsetBytes, GroupReads;
    var result, offsets :|
      AllFit(policy, result, offsets, groups) && |result| < TWO_32 && contents == Contents(result, offsets);
    var n, r := |contents|, |result|;
    OffsetBytesLength(offsets);
    DecodeEncodeFixed32(r);
    assert contents[n - 5..n - 1] == EncodeFixed32(r % TWO_32);
    assert (n - 5 - r) / 4 == |groups|;
    forall f | 0 <= f < |groups| ensures GroupReads(policy, contents, groups[f], r, f) {
      GroupOf(policy, result, offsets, groups, f);
    }
  }

  lemma GroupOf(policy: BloomFilterPolicy, result: seq<byte>, offsets: seq<nat>, groups: Groups, f: nat)
    requires AllFit(policy, result, offsets, groups) && |result| < TWO_32 && f < |groups|
    ensures GroupReads(policy, Contents(result, offsets), groups[f], |result|, f)
  {
    hide EncodeFixed32, DecodeFixed32, OffsetBytes, BloomFilterPolicy.IsFilter, WordAt;
    WordsOf(result, offsets, f);
    assert FilterFits(policy, result, offsets[f], LimitOf(result, offsets, f), groups[f]);
    var contents := Contents(result, offsets);
    assert contents[offsets[f]..LimitOf(result, offsets, f)] == result[offsets[f]..LimitOf(result, offsets, f)];
  }

  lemma WordsOf(result: seq<byte>, offsets: seq<nat>, f: nat)
    requires f < |offsets| && |result| < TWO_32 && forall i :: 0 <= i < |offsets| ==> offsets[i] <= |result|
    ensures var c, r := Contents(result, offsets), |result|;
      WordAt(c, r + 4 * f) == offsets[f] && WordAt(c, r + 4 * f + 4) == LimitOf(result, offsets, f)
  {
    hide EncodeFixed32, DecodeFixed32, OffsetBytes;
    var c, r := Contents(result, offsets), |result|;
    OffsetAt(offsets, f);
    assert c[r + 4 * f..r + 4 * f + 4] == OffsetBytes(offsets)[4 * f..4 * f + 4];
    if f + 1 < |offsets| {
      OffsetAt(offsets, f + 1);
      assert c[r + 4 * f + 4..r + 4 * f + 8] == OffsetBytes(offsets)[4 * (f + 1)..4 * (f + 1) + 4];
    } else {
      DecodeEncodeFixed32(r);
      assert c[r + 4 * f + 4..r + 4 * f + 8] == EncodeFixed32(r % TWO_32);
    }
  }
}
