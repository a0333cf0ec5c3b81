/** What a shard of the cache holds, and what its operations make of it. */
module CacheStates {
  import opened HandleLists
  import opened HandleTables

  /** Cached handles without clients, oldest first; cached handles that clients
      have; how often each handle is out with a client; and the handles whose
      values were deleted, in the order of deletion. */
  datatype CacheState = CacheState(lru: seq<LRUHandle>, inUse: seq<LRUHandle>, clients: multiset<LRUHandle>,
    deleted: seq<LRUHandle>) {
    predicate Cached(h: LRUHandle) {
      h in lru || h in inUse
    }

    function Refs(h: LRUHandle): nat {
      clients[h] + if Cached(h) then 1 else 0
    }
  }

  ghost function Held(s: CacheState): set<LRUHandle> {
    (set h | h in s.lru) + (set h | h in s.inUse)
  }

  function Charges(s: seq<LRUHandle>): nat {
    if s == [] then 0 else s[0].charge + Charges(s[1..])
  }

  function Usage(s: CacheState): nat {
    Charges(s.lru) + Charges(s.inUse)
  }

  function Minus(s: seq<LRUHandle>, h: LRUHandle): seq<LRUHandle> {
    if s == [] then [] else if s[0] == h then s[1..] else [s[0]] + Minus(s[1..], h)
  }

  // ---- the operations ----

  function Refd(s: CacheState, h: LRUHandle): CacheState {
    var clients := s.clients + multiset{h};
    if h in s.lru then CacheState(Minus(s.lru, h), s.inUse + [h], clients, s.deleted) else s.(clients := clients)
  }

  function Released(s: CacheState, h: LRUHandle): CacheState {
    var clients := s.clients - multiset{h};
    if clients[h] > 0 then s.(clients := clients)
    else if s.Cached(h) then CacheState(s.lru + [h], Minus(s.inUse, h), clients, s.deleted)
    else s.(clients := clients, deleted := s.deleted + [h])
  }

  function Erased(s: CacheState, h: LRUHandle): CacheState {
    CacheState(Minus(s.lru, h), Minus(s.inUse, h), s.clients, if s.clients[h] == 0 then s.deleted + [h] else s.deleted)
  }

  function ErasedIf(s: CacheState, h: LRUHandle?): CacheState {
    if h == null then s else Erased(s, h)
  }

  function Added(s: CacheState, h: LRUHandle): CacheState {
    s.(inUse := s.inUse + [h], clients := s.clients + multiset{h})
  }

  lemma {:induction false} MinusLength(s: seq<LRUHandle>, h: LRUHandle)
    requires h in s
    ensures |Minus(s, h)| == |s| - 1
  {
    if s[0] != h { MinusLength(s[1..], h); }
  }

  /** The loop at the end of Insert: the oldest go until the rest fits. */
  function Trimmed(s: CacheState, capacity: nat): CacheState
    decreases |s.lru|
  {
    if Usage(s) > capacity && s.lru != [] then Trimmed(Erased(s, s.lru[0]), capacity) else s
  }

  function Inserted(s: CacheState, h: LRUHandle, replaced: LRUHandle?, capacity: nat): CacheState {
    Trimmed(if capacity > 0 then ErasedIf(Added(s, h), replaced) else s.(clients := s.clients + multiset{h}), capacity)
  }

  function Pruned(s: CacheState): CacheState
    decreases |s.lru|
  {
    if s.lru != [] then Pruned(Erased(s, s.lru[0])) else s
  }

  // ---- what they keep ----

  ghost predicate Tidy(s: CacheState) {
    && NoDuplicates(s.lru) && NoDuplicates(s.inUse) && NoDuplicates(s.deleted)
    && (forall h :: h in s.lru ==> s.clients[h] == 0)
    && (forall h :: h in s.inUse ==> s.clients[h] > 0)
  }

  /** Every handle is cached, out with a client, or deleted. */
  ghost predicate Owned(s: CacheState, created: set<LRUHandle>) {
    && (forall h :: h in s.lru ==> h in created) && (forall h :: h in s.inUse ==> h in created)
    && (forall h :: h in s.clients ==> h in created)
    && (forall h :: h in s.deleted ==> h in created && s.Refs(h) == 0)
    && forall h :: h in created && s.Refs(h) == 0 ==> h in s.deleted
  }

  ghost predicate Inv(s: CacheState, created: set<LRUHandle>) {
    Tidy(s) && Owned(s, created) && Distinct(Held(s))
  }

  lemma {:induction false} MinusIs(s: seq<LRUHandle>, h: LRUHandle)
    requires NoDuplicates(s)
    ensures NoDuplicates(Minus(s, h)) && forall g :: g in Minus(s, h) <==> g in s && g != h
  {
    if s != [] {
      assert forall g :: g in s <==> g == s[0] || g in s[1..];
      if s[0] != h {
        MinusIs(s[1..], h);
        NoDuplicatesFirst(s[0], Minus(s[1..], h));
      }
    }
  }

  lemma NoDuplicatesFirst(x: LRUHandle, s: seq<LRUHandle>)
    requires NoDuplicates(s) && x !in s
    ensures NoDuplicates([x] + s)
  {
    var t := [x] + s;
    forall i, j | 0 <= i < j < |t| ensures t[i] != t[j] {
      assert t[j] == s[j - 1] && (i > 0 ==> t[i] == s[i - 1]);
    }
  }

  lemma {:induction false} MinusAt(s: seq<LRUHandle>, i: nat)
    requires NoDuplicates(s) && i < |s|
    ensures Minus(s, s[i]) == Without(s, i)
  {
    hide NoDuplicates, Without;
    TailOfDistinct(s, i);
    if i > 0 {
      MinusAt(s[1..], i - 1);
      WithoutLater(s, i);
    } else {
      WithoutFirst(s);
    }
  }

  lemma TailOfDistinct(s: seq<LRUHandle>, i: nat)
    requires NoDuplicates(s) && i < |s|
    ensures NoDuplicates(s[1..]) && (i > 0 ==> s[0] != s[i] && s[1..][i - 1] == s[i])
  {
  }

  lemma WithoutLater(s: seq<LRUHandle>, i: nat)
    requires 0 < i < |s|
    ensures Without(s, i) == [s[0]] + Without(s[1..], i - 1)
  {
  }

  lemma WithoutFirst(s: seq<LRUHandle>)
    requires s != []
    ensures Without(s, 0) == s[1..]
  {
  }

  lemma {:induction false} MinusNothing(s: seq<LRUHandle>, h: LRUHandle)
    requires h !in s
    ensures Minus(s, h) == s
  {
    if s != [] { MinusNothing(s[1..], h); }
  }

  lemma NoDuplicatesMore(s: seq<LRUHandle>, h: LRUHandle)
    requires NoDuplicates(s) && h !in s
    ensures NoDuplicates(s + [h])
  {
  }

  lemma {:induction false} ChargesMinus(s: seq<LRUHandle>, h: LRUHandle)
    ensures Charges(Minus(s, h)) == Charges(s) - if h in s then h.charge else 0
  {
    if s != [] && s[0] != h { ChargesMinus(s[1..], h); }
  }

  lemma {:induction false} ChargesMore(s: seq<LRUHandle>, h: LRUHandle)
    ensures Charges(s + [h]) == Charges(s) + h.charge
  {
    if s == [] {
      assert [h][1..] == [];
    } else {
      ChargesMore(s[1..], h);
      assert (s + [h])[1..] == s[1..] + [h];
    }
  }

  lemma FewerHeld(s: CacheState, t: CacheState)
    requires Distinct(Held(s)) && forall h :: t.Cached(h) ==> s.Cached(h)
    ensures Distinct(Held(t))
  {
    forall h | h in Held(t) ensures h in Held(s) {
      assert t.Cached(h);
    }
  }

  lemma CachedAlike(s: CacheState, t: CacheState)
    requires forall h :: t.Cached(h) <==> s.Cached(h)
    ensures Held(s) == Held(t)
  {
    forall h ensures h in Held(t) <==> h in Held(s) {
      assert t.Cached(h) <==> s.Cached(h);
    }
  }

  lemma RefKeeps(s: CacheState, created: set<LRUHandle>, h: LRUHandle)
    requires Inv(s, created) && s.Cached(h)
    ensures Inv(Refd(s, h), created) && Usage(Refd(s, h)) == Usage(s) && Held(Refd(s, h)) == Held(s)
  {
    hide Distinct, Charges, Minus, NoDuplicates, Held;
    MinusIs(s.lru, h);
    if h in s.lru {
      NoDuplicatesMore(s.inUse, h);
      ChargesMinus(s.lru, h);
      ChargesMore(s.inUse, h);
    }
    var t := Refd(s, h);
    assert forall g :: t.Cached(g) <==> s.Cached(g);
    CachedAlike(s, t);
    assert forall g :: g in created && t.Refs(g) == 0 ==> g in t.deleted;
    assert Owned(t, created);
  }

  /** The last client of a cached handle gives it back. */
  lemma ReturnKeeps(s: CacheState, created: set<LRUHandle>, h: LRUHandle)
    requires Inv(s, created) && s.clients[h] == 1 && s.Cached(h)
    ensures Inv(Released(s, h), created) && Usage(Released(s, h)) == Usage(s) && Held(Released(s, h)) == Held(s)
  {
    hide Distinct, Charges, Minus, NoDuplicates, Held;
    MinusIs(s.inUse, h);
    assert h !in s.lru && h in s.inUse;
    NoDuplicatesMore(s.lru, h);
    ChargesMinus(s.inUse, h);
    ChargesMore(s.lru, h);
    var t := CacheState(s.lru + [h], Minus(s.inUse, h), s.clients - multiset{h}, s.deleted);
    assert t == Released(s, h);
    assert forall g :: t.Cached(g) <==> s.Cached(g);
    CachedAlike(s, t);
    assert Tidy(t);
    assert forall g :: g in created && t.Refs(g) == 0 ==> g in t.deleted;
    assert Owned(t, created);
  }

  lemma ReleaseKeeps(s: CacheState, created: set<LRUHandle>, h: LRUHandle)
    requires Inv(s, created) && h in s.clients
    ensures Inv(Released(s, h), created) && Usage(Released(s, h)) == Usage(s) && Held(Released(s, h)) == Held(s)
  {
    hide Distinct, Charges, Minus, NoDuplicates, Held;
    if s.clients[h] == 1 && s.Cached(h) {
      ReturnKeeps(s, created, h);
    } else {
      var t := Released(s, h);
      if s.clients[h] == 1 {
        NoDuplicatesMore(s.deleted, h);
      }
      CachedAlike(s, t);
      assert forall g :: g in created && t.Refs(g) == 0 ==> g in t.deleted;
      assert Owned(t, created);
    }
  }

  /** Taking a handle out, even while another has its key. */
  lemma TakenOut(s: CacheState, created: set<LRUHandle>, h: LRUHandle)
    requires Tidy(s) && Owned(s, created) && s.Cached(h)
    ensures Tidy(Erased(s, h)) && Owned(Erased(s, h), created) && Usage(Erased(s, h)) == Usage(s) - h.charge
    ensures forall g :: Erased(s, h).Cached(g) <==> s.Cached(g) && g != h
  {
    hide Distinct, Charges, Minus, NoDuplicates;
    MinusIs(s.lru, h);
    MinusIs(s.inUse, h);
    ChargesMinus(s.lru, h);
    ChargesMinus(s.inUse, h);
    NoDuplicatesMore(s.deleted, h);
    var t := Erased(s, h);
    assert forall g :: t.Cached(g) <==> s.Cached(g) && g != h;
    assert forall g :: g in created && t.Refs(g) == 0 ==> g in t.deleted;
    assert Owned(t, created);
  }

  lemma HeldWithout(s: CacheState, t: CacheState, h: LRUHandle)
    requires forall g :: t.Cached(g) <==> s.Cached(g) && g != h
    ensures Held(t) == Held(s) - {h}
  {
    forall g ensures g in Held(t) <==> g in Held(s) && g != h {
      assert t.Cached(g) <==> s.Cached(g) && g != h;
    }
  }

  lemma EraseKeeps(s: CacheState, created: set<LRUHandle>, h: LRUHandle)
    requires Inv(s, created) && s.Cached(h)
    ensures Inv(Erased(s, h), created) && Usage(Erased(s, h)) == Usage(s) - h.charge
    ensures Held(Erased(s, h)) == Held(s) - {h}
  {
    hide Distinct, Tidy, Owned, Held, Erased, Usage, CacheState.Cached;
    TakenOut(s, created, h);
    FewerHeld(s, Erased(s, h));
    HeldWithout(s, Erased(s, h), h);
  }

  lemma AddedIs(s: CacheState, created: set<LRUHandle>, h: LRUHandle)
    requires Tidy(s) && Owned(s, created) && h !in created
    ensures Tidy(Added(s, h)) && Owned(Added(s, h), created + {h}) && Usage(Added(s, h)) == Usage(s) + h.charge
    ensures Held(Added(s, h)) == Held(s) + {h}
  {
    hide Charges, NoDuplicates;
    var t := Added(s, h);
    NoDuplicatesMore(s.inUse, h);
    ChargesMore(s.inUse, h);
    assert forall g :: g in created && t.Refs(g) == 0 ==> g in t.deleted;
    assert Owned(t, created + {h});
  }

  /** The new handle takes the place of the one with its key. */
  lemma AddKeeps(s: CacheState, created: set<LRUHandle>, h: LRUHandle, replaced: LRUHandle?)
    requires Inv(s, created) && h !in created && IsFound(Held(s), h.key, h.hash, replaced)
    ensures var t := ErasedIf(Added(s, h), replaced);
      && Inv(t, created + {h}) && Held(t) == WithHandle(Held(s), replaced, h)
      && Usage(t) == Usage(s) + h.charge - if replaced == null then 0 else replaced.charge
  {
    hide Tidy, Erased, Usage, Distinct;
    assert h !in Held(s) && (replaced != null ==> replaced in Held(s));
    hide Held, Owned, IsFound;
    var a, all := Added(s, h), created + {h};
    AddedIs(s, created, h);
    DistinctAfter(Held(s), replaced, h);
    if replaced != null {
      CachedMeansHeld(a, replaced);
      TakenOut(a, all, replaced);
      HeldWithout(a, Erased(a, replaced), replaced);
      assert Held(s) + {h} - {replaced} == Held(s) - {replaced} + {h};
    }
  }

  lemma CachedMeansHeld(s: CacheState, h: LRUHandle)
    ensures s.Cached(h) <==> h in Held(s)
  {
  }

  // ---- reference counts ----

  lemma RefsOfRefd(s: CacheState, h: LRUHandle)
    requires Tidy(s) && s.Cached(h)
    ensures forall g :: Refd(s, h).Refs(g) == s.Refs(g) + (if g == h then 1 else 0)
    ensures forall g :: Refd(s, h).Cached(g) <==> s.Cached(g)
  {
    hide Minus, NoDuplicates;
    MinusIs(s.lru, h);
  }

  lemma RefsOfReleased(s: CacheState, h: LRUHandle)
    requires Tidy(s) && h in s.clients
    ensures forall g :: Released(s, h).Refs(g) == s.Refs(g) - (if g == h then 1 else 0)
    ensures forall g :: Released(s, h).Cached(g) <==> s.Cached(g)
  {
    hide Minus, NoDuplicates;
    MinusIs(s.inUse, h);
  }

  lemma RefsOfErased(s: CacheState, h: LRUHandle)
    requires Tidy(s) && s.Cached(h)
    ensures forall g :: Erased(s, h).Refs(g) == s.Refs(g) - (if g == h then 1 else 0)
    ensures forall g :: Erased(s, h).Cached(g) <==> s.Cached(g) && g != h
  {
    hide Minus, NoDuplicates;
    MinusIs(s.lru, h);
    MinusIs(s.inUse, h);
  }

  /** A handle that is not cached goes to a client: capacity 0. */
  lemma HandOutKeeps(s: CacheState, created: set<LRUHandle>, h: LRUHandle)
    requires Inv(s, created) && h !in created
    ensures var t := s.(clients := s.clients + multiset{h});
      Inv(t, created + {h}) && Held(t) == Held(s) && Usage(t) == Usage(s)
  {
    hide Distinct, NoDuplicates;
    var t, all := s.(clients := s.clients + multiset{h}), created + {h};
    assert forall g :: g in created && t.Refs(g) == 0 ==> g in t.deleted;
    assert Owned(t, all);
  }

  // ---- eviction ----

  lemma OldestErased(s: CacheState, created: set<LRUHandle>)
    requires Inv(s, created) && s.lru != []
    ensures Erased(s, s.lru[0]) == CacheState(s.lru[1..], s.inUse, s.clients, s.deleted + [s.lru[0]])
  {
    hide Distinct, NoDuplicates;
    assert s.lru[0] !in s.inUse;
    MinusNothing(s.inUse, s.lru[0]);
  }

  lemma {:induction false} TrimKeeps(s: CacheState, created: set<LRUHandle>, capacity: nat)
    requires Inv(s, created)
    ensures Inv(Trimmed(s, capacity), created)
    decreases |s.lru|
  {
    hide Inv, Erased, Charges;
    if Usage(s) > capacity && s.lru != [] {
      EraseKeeps(s, created, s.lru[0]);
      OldestErased(s, created);
      TrimKeeps(Erased(s, s.lru[0]), created, capacity);
    }
  }

  /** Insert evicts from the oldest on, no more than is needed, and deletes what
      it evicts. */
  lemma {:induction false} TrimmedIs(s: CacheState, created: set<LRUHandle>, capacity: nat) returns (n: nat)
    requires Inv(s, created)
    ensures var t := Trimmed(s, capacity);
      && n <= |s.lru| && t == CacheState(s.lru[n..], s.inUse, s.clients, s.deleted + s.lru[..n])
      && (Usage(t) <= capacity || t.lru == [])
      && (n > 0 ==> Charges(s.lru[n - 1..]) + Charges(s.inUse) > capacity)
    decreases |s.lru|
  {
    hide Inv, Erased, Charges;
    n := 0;
    if Usage(s) > capacity && s.lru != [] {
      var u := Erased(s, s.lru[0]);
      EraseKeeps(s, created, s.lru[0]);
      OldestErased(s, created);
      var m := TrimmedIs(u, created, capacity);
      n := m + 1;
      assert u.lru[m..] == s.lru[n..] && (m > 0 ==> u.lru[m - 1..] == s.lru[n - 1..]);
      assert s.deleted + [s.lru[0]] + u.lru[..m] == s.deleted + s.lru[..n];
      assert s.lru[0..] == s.lru;
    } else {
      assert s.deleted + s.lru[..0] == s.deleted && s.lru[0..] == s.lru;
    }
  }

  /** Prune leaves what clients have. */
  lemma {:induction false} PrunedIs(s: CacheState, created: set<LRUHandle>)
    requires Inv(s, created)
    ensures Inv(Pruned(s), created) && Pruned(s) == CacheState([], s.inUse, s.clients, s.deleted + s.lru)
    decreases |s.lru|
  {
    hide Inv, Erased;
    if s.lru != [] {
      var u := Erased(s, s.lru[0]);
      EraseKeeps(s, created, s.lru[0]);
      OldestErased(s, created);
      PrunedIs(u, created);
      assert s.deleted + [s.lru[0]] + u.lru == s.deleted + s.lru;
    } else {
      assert s.deleted + s.lru == s.deleted;
    }
  }
}
