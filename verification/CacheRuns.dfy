/** Whole runs of a cache shard. */
module CacheRuns {
  import opened Coding
  import opened HandleLists
  import opened HandleTables
  import opened CacheStates

  /** The calls of LRUCache, with what the hash table answered. */
  datatype Call =
    | Insert(h: LRUHandle, replaced: LRUHandle?)
    | Lookup(key: seq<byte>, hash: uint32, found: LRUHandle?)
    | Release(h: LRUHandle)
    | Erase(key: seq<byte>, hash: uint32, found: LRUHandle?)
    | Prune

  ghost predicate CanCall(s: CacheState, created: set<LRUHandle>, c: Call) {
    match c
    case Insert(h, replaced) => h !in created && IsFound(Held(s), h.key, h.hash, replaced)
    case Lookup(key, hash, found) => IsFound(Held(s), key, hash, found)
    case Release(h) => h in s.clients
    case Erase(key, hash, found) => IsFound(Held(s), key, hash, found)
    case Prune => true
  }

  ghost function After(s: CacheState, c: Call, capacity: nat): CacheState {
    match c
    case Insert(h, replaced) => Inserted(s, h, replaced, capacity)
    case Lookup(_, _, found) => if found == null then s else Refd(s, found)
    case Release(h) => Released(s, h)
    case Erase(_, _, found) => ErasedIf(s, found)
    case Prune => Pruned(s)
  }

  ghost function CreatedBy(created: set<LRUHandle>, c: Call): set<LRUHandle> {
    if c.Insert? then created + {c.h} else created
  }

  lemma CallKeeps(s: CacheState, created: set<LRUHandle>, c: Call, capacity: nat)
    requires Inv(s, created) && CanCall(s, created, c)
    ensures Inv(After(s, c, capacity), CreatedBy(created, c)) && s.deleted <= After(s, c, capacity).deleted
  {
    hide Inv, Held, Distinct, IsFound, Usage, Refd, Minus;
    match c
    case Insert(h, replaced) => InsertKeeps(s, created, h, replaced, capacity);
    case Lookup(key, hash, found) =>
      if found != null {
        FoundIsHeld(s, key, hash, found);
        RefKeeps(s, created, found);
        RefdDeletes(s, found);
      }
    case Release(h) => ReleaseKeeps(s, created, h);
    case Erase(key, hash, found) =>
      if found != null {
        FoundIsHeld(s, key, hash, found);
        EraseKeeps(s, created, found);
      }
    case Prune => PrunedIs(s, created);
  }

  lemma FoundIsHeld(s: CacheState, key: seq<byte>, hash: uint32, found: LRUHandle)
    requires IsFound(Held(s), key, hash, found)
    ensures s.Cached(found)
  {
  }

  lemma RefdDeletes(s: CacheState, h: LRUHandle)
    ensures Refd(s, h).deleted == s.deleted
  {
  }

  lemma InsertKeeps(s: CacheState, created: set<LRUHandle>, h: LRUHandle, replaced: LRUHandle?, capacity: nat)
    requires Inv(s, created) && h !in created && IsFound(Held(s), h.key, h.hash, replaced)
    ensures Inv(Inserted(s, h, replaced, capacity), created + {h})
    ensures s.deleted <= Inserted(s, h, replaced, capacity).deleted
    ensures Usage(Inserted(s, h, replaced, capacity)) <= capacity || Inserted(s, h, replaced, capacity).lru == []
  {
    hide Inv, Held, Distinct, IsFound, Usage, Minus, Trimmed;
    if capacity > 0 {
      AddKeeps(s, created, h, replaced);
    } else {
      HandOutKeeps(s, created, h);
    }
    var t := if capacity > 0 then ErasedIf(Added(s, h), replaced) else s.(clients := s.clients + multiset{h});
    TrimKeeps(t, created + {h}, capacity);
    var n := TrimmedIs(t, created + {h}, capacity);
  }

  ghost predicate IsRun(states: seq<CacheState>, created: seq<set<LRUHandle>>, calls: seq<Call>, capacity: nat) {
    && |states| == |created| == |calls| + 1
    && states[0] == CacheState([], [], multiset{}, []) && created[0] == {}
    && forall i :: 0 <= i < |calls| ==>
         CanCall(states[i], created[i], calls[i]) && states[i + 1] == After(states[i], calls[i], capacity)
         && created[i + 1] == CreatedBy(created[i], calls[i])
  }

  lemma StartInv()
    ensures Inv(CacheState([], [], multiset{}, []), {})
  {
  }

  /** After any run: cached handles are on one list each, by whether a client has
      them; and a handle was deleted exactly if neither the cache nor a client
      has it, and then once. */
  lemma {:induction false} RunsKeep(states: seq<CacheState>, created: seq<set<LRUHandle>>, calls: seq<Call>,
      capacity: nat,
      i: nat)
    requires IsRun(states, created, calls, capacity) && i <= |calls|
    ensures Inv(states[i], created[i])
  {
    hide Inv, CanCall, After;
    if i == 0 {
      StartInv();
    } else {
      RunsKeep(states, created, calls, capacity, i - 1);
      CallKeeps(states[i - 1], created[i - 1], calls[i - 1], capacity);
    }
  }

  /** Nothing is deleted twice or undeleted. */
  lemma {:induction false} DeletedStays(states: seq<CacheState>, created: seq<set<LRUHandle>>, calls: seq<Call>,
      capacity: nat, i: nat, j: nat)
    requires IsRun(states, created, calls, capacity) && i <= j <= |calls|
    ensures states[i].deleted <= states[j].deleted && NoDuplicates(states[j].deleted)
    decreases j
  {
    hide Inv, CanCall, After, NoDuplicates;
    RunsKeep(states, created, calls, capacity, j);
    InvDeletes(states[j], created[j]);
    if i < j {
      RunsKeep(states, created, calls, capacity, j - 1);
      CallKeeps(states[j - 1], created[j - 1], calls[j - 1], capacity);
      DeletedStays(states, created, calls, capacity, i, j - 1);
    }
  }

  lemma InvDeletes(s: CacheState, created: set<LRUHandle>)
    requires Inv(s, created)
    ensures NoDuplicates(s.deleted)
  {
  }

  /** Once clients have given everything back and the cache is pruned, every
      value ever inserted has been deleted. */
  lemma NothingLeaks(states: seq<CacheState>, created: seq<set<LRUHandle>>, calls: seq<Call>, capacity: nat, i: nat)
    requires IsRun(states, created, calls, capacity) && i <= |calls| && states[i].clients == multiset{}
    ensures forall h :: h !in Pruned(states[i]).inUse
    ensures forall h :: h in created[i] ==> h in Pruned(states[i]).deleted
  {
    hide CanCall, After, Distinct, NoDuplicates;
    RunsKeep(states, created, calls, capacity, i);
    PrunedIs(states[i], created[i]);
  }

  // ---- least recently used ----

  /** The last call before the i-th that released h, or -1. */
  ghost function LastRelease(calls: seq<Call>, i: nat, h: LRUHandle): int
    requires i <= |calls|
  {
    if i == 0 then -1 else if calls[i - 1] == Release(h) then i - 1 else LastRelease(calls, i - 1, h)
  }

  lemma {:induction false} ReleasedBefore(calls: seq<Call>, i: nat, h: LRUHandle)
    requires i <= |calls|
    ensures LastRelease(calls, i, h) < i
  {
    if i > 0 { ReleasedBefore(calls, i - 1, h); }
  }

  ghost predicate ByRelease(calls: seq<Call>, i: nat, s: seq<LRUHandle>)
    requires i <= |calls|
  {
    forall a, b :: 0 <= a < b < |s| ==> LastRelease(calls, i, s[a]) < LastRelease(calls, i, s[b])
  }

  lemma FewerByRelease(calls: seq<Call>, i: nat, s: seq<LRUHandle>, h: LRUHandle)
    requires i <= |calls| && ByRelease(calls, i, s) && NoDuplicates(s)
    ensures ByRelease(calls, i, Minus(s, h))
  {
    hide LastRelease, Minus, NoDuplicates;
    if h in s {
      var k :| 0 <= k < |s| && s[k] == h;
      MinusAt(s, k);
    } else {
      MinusNothing(s, h);
    }
  }

  /** What is not released keeps its place. */
  lemma NotReleased(calls: seq<Call>, i: nat, s: seq<LRUHandle>)
    requires i < |calls| && ByRelease(calls, i, s) && forall h :: h in s ==> calls[i] != Release(h)
    ensures ByRelease(calls, i + 1, s)
  {
    forall a | 0 <= a < |s|
      ensures LastRelease(calls, i + 1, s[a]) == LastRelease(calls, i, s[a])
    {
      assert s[a] in s;
    }
  }

  lemma ReleaseGoesLast(calls: seq<Call>, i: nat, s: seq<LRUHandle>, h: LRUHandle)
    requires i < |calls| && calls[i] == Release(h) && ByRelease(calls, i, s) && h !in s
    ensures ByRelease(calls, i + 1, s + [h])
  {
    NotReleased(calls, i, s);
    var t := s + [h];
    forall a | 0 <= a < |s|
      ensures LastRelease(calls, i + 1, t[a]) < LastRelease(calls, i + 1, h)
    {
      assert t[a] in s;
      ReleasedBefore(calls, i, t[a]);
    }
  }

  lemma ErasedByRelease(calls: seq<Call>, i: nat, s: CacheState, h: LRUHandle?)
    requires i <= |calls| && ByRelease(calls, i, s.lru) && NoDuplicates(s.lru)
    ensures ByRelease(calls, i, ErasedIf(s, h).lru)
  {
    hide LastRelease, ByRelease, NoDuplicates;
    if h != null { FewerByRelease(calls, i, s.lru, h); }
  }

  /** The list before an insertion evicts anything. */
  ghost function BeforeEviction(s: CacheState, h: LRUHandle, replaced: LRUHandle?, capacity: nat): CacheState {
    if capacity > 0 then ErasedIf(Added(s, h), replaced) else s.(clients := s.clients + multiset{h})
  }

  lemma EvictionIsPrefix(s: CacheState, created: set<LRUHandle>, h: LRUHandle, replaced: LRUHandle?, capacity: nat)
      returns (n: nat)
    requires Inv(s, created) && h !in created && IsFound(Held(s), h.key, h.hash, replaced)
    ensures var t := BeforeEviction(s, h, replaced, capacity);
      n <= |t.lru| && Inserted(s, h, replaced, capacity).lru == t.lru[n..]
  {
    hide Inv, Held, Distinct, IsFound, Usage, Minus, Trimmed;
    if capacity > 0 {
      AddKeeps(s, created, h, replaced);
    } else {
      HandOutKeeps(s, created, h);
    }
    n := TrimmedIs(BeforeEviction(s, h, replaced, capacity), created + {h}, capacity);
  }

  lemma InvMeans(s: CacheState, created: set<LRUHandle>)
    requires Inv(s, created)
    ensures NoDuplicates(s.lru) && forall h :: h in s.lru ==> s.clients[h] == 0
  {
  }

  lemma CallByRelease(s: CacheState, created: set<LRUHandle>, calls: seq<Call>, capacity: nat, i: nat)
    requires i < |calls| && Inv(s, created) && CanCall(s, created, calls[i]) && ByRelease(calls, i, s.lru)
    ensures ByRelease(calls, i + 1, After(s, calls[i], capacity).lru)
  {
    hide Inv, Held, Distinct, IsFound, Trimmed, Minus, NoDuplicates, LastRelease, ByRelease, Inserted;
    InvMeans(s, created);
    match calls[i]
    case Insert(h, replaced) =>
      var n := EvictionIsPrefix(s, created, h, replaced, capacity);
      var t := BeforeEviction(s, h, replaced, capacity);
      ErasedByRelease(calls, i, Added(s, h), replaced);
      RestByRelease(calls, i, t.lru, n);
      NotReleased(calls, i, t.lru[n..]);
    case Lookup(_, _, found) =>
      if found != null { FewerByRelease(calls, i, s.lru, found); }
      NotReleased(calls, i, After(s, calls[i], capacity).lru);
    case Release(h) =>
      assert h !in s.lru;
      if s.clients[h] == 1 && s.Cached(h) {
        ReleaseGoesLast(calls, i, s.lru, h);
      } else {
        NotReleased(calls, i, s.lru);
      }
    case Erase(_, _, found) =>
      ErasedByRelease(calls, i, s, found);
      NotReleased(calls, i, ErasedIf(s, found).lru);
    case Prune =>
      PrunedIs(s, created);
      NothingByRelease(calls, i + 1);
  }

  lemma NothingByRelease(calls: seq<Call>, i: nat)
    requires i <= |calls|
    ensures ByRelease(calls, i, [])
  {
  }

  lemma RestByRelease(calls: seq<Call>, i: nat, s: seq<LRUHandle>, n: nat)
    requires i <= |calls| && ByRelease(calls, i, s) && n <= |s|
    ensures ByRelease(calls, i, s[n..])
  {
    hide LastRelease;
  }

  /** The list of idle handles is in the order in which they were last released. */
  lemma {:induction false} IdleByRelease(states: seq<CacheState>, created: seq<set<LRUHandle>>, calls: seq<Call>,
      capacity: nat, i: nat)
    requires IsRun(states, created, calls, capacity) && i <= |calls|
    ensures ByRelease(calls, i, states[i].lru)
  {
    hide Inv, CanCall, After, ByRelease;
    if i == 0 {
      NothingByRelease(calls, 0);
    } else {
      RunsKeep(states, created, calls, capacity, i - 1);
      IdleByRelease(states, created, calls, capacity, i - 1);
      CallByRelease(states[i - 1], created[i - 1], calls, capacity, i - 1);
    }
  }

  lemma RestMembers(s: seq<LRUHandle>, n: nat)
    requires n <= |s|
    ensures forall a :: n <= a < |s| ==> s[a] in s[n..]
  {
    forall a | n <= a < |s|
      ensures s[a] in s[n..]
    {
      assert s[n..][a - n] == s[a];
    }
  }

  /** What an insertion evicts was released longer ago than anything that stays
      idle in the cache. */
  lemma EvictsLeastRecentlyUsed(states: seq<CacheState>, created: seq<set<LRUHandle>>, calls: seq<Call>, capacity: nat,
      i: nat, gone: LRUHandle, kept: LRUHandle)
    requires IsRun(states, created, calls, capacity) && i < |calls| && calls[i].Insert?
    requires gone in states[i].lru && gone != calls[i].replaced && gone !in states[i + 1].lru
    requires kept in states[i + 1].lru
    ensures LastRelease(calls, i, gone) < LastRelease(calls, i, kept)
  {
    hide Inv, Held, Distinct, IsFound, Trimmed, NoDuplicates, LastRelease, Inserted;
    var s, c := states[i], calls[i];
    RunsKeep(states, created, calls, capacity, i);
    IdleByRelease(states, created, calls, capacity, i);
    InvMeans(s, created[i]);
    var n := EvictionIsPrefix(s, created[i], c.h, c.replaced, capacity);
    var t := BeforeEviction(s, c.h, c.replaced, capacity);
    ErasedByRelease(calls, i, Added(s, c.h), c.replaced);
    if c.replaced != null { MinusIs(s.lru, c.replaced); }
    assert gone in t.lru;
    var a :| 0 <= a < |t.lru| && t.lru[a] == gone;
    var b :| 0 <= b < |t.lru[n..]| && t.lru[n..][b] == kept;
    RestMembers(t.lru, n);
    assert t.lru[n + b] == kept;
  }
}
