/** class LRUCache: one shard of the cache. */
module LruCache {
  import opened Coding
  import opened HandleLists
  import opened HandleTables
  import opened CacheStates

  ghost function HeldBut(s: CacheState, absent: LRUHandle?): set<LRUHandle> {
    if absent == null then Held(s) else Held(s) - {absent}
  }

  lemma FoundIsCached(s: CacheState, key: seq<byte>, hash: uint32, e: LRUHandle)
    requires IsFound(Held(s), key, hash, e)
    ensures s.Cached(e)
  {
  }

  ghost predicate Separate(s: CacheState, created: set<LRUHandle>) {
    && NoDuplicates(s.lru) && NoDuplicates(s.inUse) && (forall h :: h in s.lru ==> h in created)
    && forall h :: h in s.inUse ==> h in created && h !in s.lru
  }

  lemma ListsApart(s: CacheState, created: set<LRUHandle>)
    requires Tidy(s) && Owned(s, created)
    ensures Separate(s, created)
  {
    hide NoDuplicates;
  }

  lemma AddedFits(s: CacheState, created: set<LRUHandle>, e: LRUHandle)
    requires Tidy(s) && Owned(s, created) && e !in created
    ensures var t := Added(s, e);
      && Tidy(t) && Owned(t, created + {e}) && Usage(t) == Usage(s) + e.charge && t.Refs(e) == 2 && t.Cached(e)
      && t.lru == s.lru && t.inUse == s.inUse + [e]
    ensures forall g :: g in created ==> Added(s, e).Refs(g) == s.Refs(g) && (Added(s, e).Cached(g) <==> s.Cached(g))
  {
    hide Usage, NoDuplicates;
    AddedIs(s, created, e);
  }

  lemma ReplacedFits(s: CacheState, created: set<LRUHandle>, e: LRUHandle, replaced: LRUHandle?)
    requires Tidy(s) && Owned(s, created) && e !in created && IsFound(Held(s), e.key, e.hash, replaced)
    ensures HeldBut(Added(s, e), replaced) == WithHandle(Held(s), replaced, e) <= created + {e}
    ensures replaced != null ==> Added(s, e).Cached(replaced)
  {
    hide Usage, NoDuplicates;
    AddedIs(s, created, e);
  }

  /** The table finds just the handle it is asked for. */
  lemma FindsItself(s: CacheState, created: set<LRUHandle>, h: LRUHandle, found: LRUHandle?)
    requires Inv(s, created) && s.Cached(h) && IsFound(Held(s), h.key, h.hash, found)
    ensures found == h
  {
    CachedMeansHeld(s, h);
  }

  /** What giving up a reference does to the lists and the deleted values. */
  function Dropped(s: CacheState, e: LRUHandle, refs: nat, inCache: bool): (r: CacheState)
    ensures r.clients == s.clients
  {
    if refs == 0 then s.(deleted := s.deleted + [e])
    else if inCache && refs == 1 then s.(lru := s.lru + [e], inUse := Minus(s.inUse, e))
    else s
  }

  class LRUCache {
    const capacity: nat
    const lruHead: LRUHandle
    const inUseHead: LRUHandle
    const table: HandleTable
    var usage: nat
    ghost var s: CacheState
    ghost var created: set<LRUHandle>

    ghost predicate Heads()
      reads this`created
    {
      lruHead != inUseHead && lruHead !in created && inUseHead !in created
    }

    ghost predicate Lists()
      reads this`s, lruHead`next, lruHead`prev, inUseHead`next, inUseHead`prev, s.lru`next, s.lru`prev, s.inUse`next,
        s.inUse`prev
    {
      Ring(lruHead, s.lru) && Ring(inUseHead, s.inUse)
    }

    /** The reference counts: one for each client and one for the cache. */
    ghost predicate Counted()
      reads this`s, this`created, created`refs, created`inCache
    {
      forall h :: h in created ==> h.refs == s.Refs(h) && (h.inCache <==> s.Cached(h))
    }

    ghost predicate TableHolds(handles: set<LRUHandle>)
      reads this`created, table, table.list, created`nextHash
    {
      table.handles == handles && handles <= created && table.Valid()
    }

    /** Everything agrees, but for one cached handle that the table has lost. */
    ghost predicate Core(absent: LRUHandle?)
      reads this, table, table.list, lruHead, inUseHead, created
    {
      && Heads() && Tidy(s) && Owned(s, created) && Lists() && Counted() && usage == Usage(s)
      && TableHolds(HeldBut(s, absent)) && (absent != null ==> s.Cached(absent))
    }

    ghost predicate Valid()
      reads this, table, table.list, lruHead, inUseHead, created
    {
      Core(null)
    }

    constructor (capacity: nat)
      ensures Valid() && s == CacheState([], [], multiset{}, []) && created == {} && this.capacity == capacity
      ensures fresh(table) && fresh(table.list) && fresh(lruHead) && fresh(inUseHead)
    {
      this.capacity := capacity;
      lruHead := new LRUHandle.Head();
      inUseHead := new LRUHandle.Head();
      table := new HandleTable();
      usage := 0;
      s, created := CacheState([], [], multiset{}, []), {};
    }

    lemma Invariant()
      requires Valid()
      ensures Inv(s, created) && table.handles == Held(s) && table.Valid() && Held(s) <= created && Separate(s, created)
    {
      hide Tidy, Owned, Held, Distinct, Filed;
      ListsApart(s, created);
    }

    /** What the new reference changes. */
    lemma AboutRef(e: LRUHandle)
      requires Valid() && s.Cached(e)
      ensures e in created && e.inCache && e.refs == s.Refs(e) && Usage(Refd(s, e)) == Usage(s)
      ensures Tidy(Refd(s, e)) && Owned(Refd(s, e), created) && Held(Refd(s, e)) == Held(s)
      ensures forall g :: Refd(s, e).Refs(g) == s.Refs(g) + (if g == e then 1 else 0)
      ensures forall g :: Refd(s, e).Cached(g) <==> s.Cached(g)
    {
      hide TableHolds, Lists, Usage, Held, Refd, Distinct, Tidy;
      Invariant();
      RefKeeps(s, created, e);
      RefsOfRefd(s, e);
    }

    lemma AboutRelease(e: LRUHandle)
      requires Valid() && e in s.clients
      ensures e in created && e.refs == s.Refs(e) && Usage(Released(s, e)) == Usage(s)
      ensures Tidy(Released(s, e)) && Owned(Released(s, e), created) && Held(Released(s, e)) == Held(s)
      ensures forall g :: Released(s, e).Refs(g) == s.Refs(g) - (if g == e then 1 else 0)
      ensures forall g :: Released(s, e).Cached(g) <==> s.Cached(g)
      ensures (e.inCache <==> s.Cached(e)) && (s.Cached(e) ==> e in s.inUse)
      ensures s.Refs(e) > 0
      ensures Released(s, e) == Dropped(s, e, e.refs - 1, e.inCache).(clients := s.clients - multiset{e})
    {
      hide TableHolds, Lists, Usage, Held, Minus, Distinct;
      Invariant();
      ReleaseKeeps(s, created, e);
      RefsOfReleased(s, e);
    }

    /** A handle on the lru_ list moves to the in_use_ list. */
    method ToInUse(e: LRUHandle)
      requires Heads() && Tidy(s) && Owned(s, created) && Lists() && s.Cached(e) && e.inCache && e.refs == s.Refs(e)
      modifies lruHead`next, lruHead`prev, inUseHead`next, inUseHead`prev, created`next, created`prev
      ensures Ring(lruHead, Refd(s, e).lru) && Ring(inUseHead, Refd(s, e).inUse)
    {
      hide Ring, Minus;
      if e.refs == 1 && e.inCache {
        ghost var i :| 0 <= i < |s.lru| && s.lru[i] == e;
        MinusAt(s.lru, i);
        assert forall h :: h in s.lru ==> h !in s.inUse;
        Move(e, lruHead, inUseHead, s.lru, s.inUse, i);
      }
    }

    method Ref(e: LRUHandle)
      requires Valid() && s.Cached(e)
      modifies this`s, lruHead`next, lruHead`prev, inUseHead`next, inUseHead`prev, created`next, created`prev,
          created`refs
      ensures Valid() && s == Refd(old(s), e)
    {
      hide TableHolds, Tidy, Owned, Usage, Ring, Held, Refd, CacheState.Refs, CacheState.Cached;
      AboutRef(e);
      ToInUse(e);
      e.refs := e.refs + 1;
      s := Refd(s, e);
    }

    /** To the newest place of the lru_ list. */
    method ToLru(e: LRUHandle)
      requires Heads() && Lists() && Separate(s, created) && e in s.inUse
      modifies lruHead`next, lruHead`prev, inUseHead`next, inUseHead`prev, created`next, created`prev
      ensures Ring(lruHead, s.lru + [e]) && Ring(inUseHead, Minus(s.inUse, e))
    {
      hide Ring, Minus;
      ghost var i :| 0 <= i < |s.inUse| && s.inUse[i] == e;
      MinusAt(s.inUse, i);
      Move(e, inUseHead, lruHead, s.inUse, s.lru, i);
    }

    /** Drops a reference: the last one deletes the value; the last of a client
        makes a cached handle the newest on the lru_ list. */
    method Unref(e: LRUHandle)
      requires e in created && e.refs > 0 && Heads() && Lists() && Separate(s, created)
      requires e.inCache && e.refs == 2 ==> e in s.inUse
      modifies this`s, lruHead`next, lruHead`prev, inUseHead`next, inUseHead`prev, created`next, created`prev, e`refs
      ensures Lists() && e.refs == old(e.refs) - 1
      ensures s == Dropped(old(s), e, e.refs, e.inCache)
    {
      hide Minus, Ring, Separate;
      e.refs := e.refs - 1;
      if e.refs == 0 {
        s := s.(deleted := s.deleted + [e]);
      } else if e.inCache && e.refs == 1 {
        ToLru(e);
        s := s.(lru := s.lru + [e], inUse := Minus(s.inUse, e));
      }
    }

    method Release(handle: LRUHandle)
      requires Valid() && handle in s.clients
      modifies this`s, lruHead`next, lruHead`prev, inUseHead`next, inUseHead`prev, created`next, created`prev,
          created`refs
      ensures Valid() && s == Released(old(s), handle)
    {
      hide TableHolds, Counted, Tidy, Owned, Usage, Ring, Held, CacheState.Refs, CacheState.Cached, Released;
      AboutRelease(handle);
      ListsApart(s, created);
      GiveUp(handle);
    }

    /** Release, as far as the lists and the counts go. */
    method GiveUp(handle: LRUHandle)
      requires Heads() && Lists() && Counted() && Separate(s, created) && handle in created && handle.refs > 0
      requires handle.inCache ==> handle in s.inUse
      requires Released(s, handle)
        == Dropped(s, handle, handle.refs - 1, handle.inCache).(clients := s.clients - multiset{handle})
      requires forall g :: Released(s, handle).Refs(g) == s.Refs(g) - (if g == handle then 1 else 0)
      requires forall g :: Released(s, handle).Cached(g) <==> s.Cached(g)
      modifies this`s, lruHead`next, lruHead`prev, inUseHead`next, inUseHead`prev, created`next, created`prev,
          created`refs
      ensures Lists() && Counted() && s == Released(old(s), handle)
    {
      hide Separate, Ring, CacheState.Refs, CacheState.Cached, Dropped, Released;
      Unref(handle);
      s := s.(clients := s.clients - multiset{handle});
    }

    method Lookup(key: seq<byte>, hash: uint32) returns (e: LRUHandle?)
      requires Valid()
      modifies this`s, lruHead`next, lruHead`prev, inUseHead`next, inUseHead`prev, created`next, created`prev,
          created`refs
      ensures Valid() && IsFound(Held(old(s)), key, hash, e)
      ensures s == if e == null then old(s) else Refd(old(s), e)
    {
      hide Ring, Counted, TableHolds, Tidy, Owned, Usage, Inv, HandleTable.Valid, Held, IsFound;
      Invariant();
      e := table.Lookup(key, hash);
      if e != null {
        FoundIsCached(s, key, hash, e);
        Ref(e);
      }
    }

    /** LRU_Remove, from the list the handle is on. */
    method TakeOff(e: LRUHandle)
      requires Heads() && Lists() && Separate(s, created) && s.Cached(e)
      modifies this`s, lruHead`next, lruHead`prev, inUseHead`next, inUseHead`prev, created`next, created`prev
      ensures Lists() && s == old(s).(lru := Minus(old(s).lru, e), inUse := Minus(old(s).inUse, e))
    {
      hide Ring, Minus;
      ghost var inLru := e in s.lru;
      ghost var head, list := if inLru then lruHead else inUseHead, if inLru then s.lru else s.inUse;
      ghost var i :| 0 <= i < |list| && list[i] == e;
      MinusAt(list, i);
      MinusNothing(if inLru then s.inUse else s.lru, e);
      assert At(head, list, i + 1) == head || At(head, list, i + 1) in list;
      assert At(head, list, i - 1) == head || At(head, list, i - 1) in list;
      label before:
      Unlink(e, head, list, i);
      assert inLru ==> old@before(Ring(inUseHead, s.inUse)) && Ring(inUseHead, s.inUse);
      assert !inLru ==> old@before(Ring(lruHead, s.lru)) && Ring(lruHead, s.lru);
      s := s.(lru := Minus(s.lru, e), inUse := Minus(s.inUse, e));
    }

    lemma AboutErase(e: LRUHandle)
      requires Core(e)
      ensures e in created && e.refs > 0 && Separate(s, created) && usage >= e.charge
      ensures Tidy(Erased(s, e)) && Owned(Erased(s, e), created) && Usage(Erased(s, e)) == usage - e.charge
      ensures Held(Erased(s, e)) == HeldBut(s, e)
      ensures forall g :: g in created ==> Erased(s, e).Refs(g) == g.refs - (if g == e then 1 else 0)
      ensures forall g :: g in created ==> (Erased(s, e).Cached(g) <==> g.inCache && g != e)
      ensures var mid := s.(lru := Minus(s.lru, e), inUse := Minus(s.inUse, e));
        Separate(mid, created) && Erased(s, e) == Dropped(mid, e, e.refs - 1, false)
    {
      hide TableHolds, Lists, Usage, Held, Minus, NoDuplicates;
      TakenOut(s, created, e);
      HeldWithout(s, Erased(s, e), e);
      RefsOfErased(s, e);
      ListsApart(s, created);
      MinusIs(s.lru, e);
      MinusIs(s.inUse, e);
    }

    method FinishErase(e: LRUHandle?) returns (r: bool)
      requires Core(e)
      modifies this`usage, this`s, lruHead`next, lruHead`prev, inUseHead`next, inUseHead`prev
      modifies created`next, created`prev, created`refs, created`inCache
      ensures Valid() && s == ErasedIf(old(s), e) && (r <==> e != null)
    {
      hide TableHolds, Tidy, Owned, Usage, Ring, Held, CacheState.Refs, Dropped, Erased, Separate, Minus;
      if e != null {
        AboutErase(e);
        TakeOff(e);
        e.inCache := false;
        usage := usage - e.charge;
        Unref(e);
        assert s == Erased(old(s), e);
      }
      return e != null;
    }

    method RemoveFromTable(key: seq<byte>, hash: uint32) returns (e: LRUHandle?)
      requires Valid()
      modifies table, table.list, created`nextHash
      ensures Core(e) && IsFound(Held(s), key, hash, e) && table.list == old(table.list)
    {
      hide Tidy, Owned, Ring, Counted, Usage, Held, HandleTable.Valid, IsFound;
      Invariant();
      e := table.Remove(key, hash);
      if e != null { FoundIsCached(s, key, hash, e); }
    }

    method Erase(key: seq<byte>, hash: uint32) returns (ghost e: LRUHandle?)
      requires Valid()
      modifies this, table, table.list, lruHead, inUseHead, created
      ensures Valid() && created == old(created) && IsFound(Held(old(s)), key, hash, e) && s == ErasedIf(old(s), e)
      ensures table.list == old(table.list)
    {
      hide Core, Held, IsFound, Erased;
      var removed := RemoveFromTable(key, hash);
      var found := FinishErase(removed);
      e := removed;
    }

    /** lru_.next != &lru_. */
    predicate Evictable()
      reads this, lruHead
    {
      lruHead.next != lruHead
    }

    lemma AboutOldest()
      requires Valid()
      ensures Evictable() <==> s.lru != []
      ensures s.lru != [] ==> lruHead.next == s.lru[0] && s.lru[0] in created && s.lru[0].refs == 1
    {
      hide Usage, TableHolds;
      assert Joined(lruHead, s.lru, -1);
    }

    method EvictOldest()
      requires Valid() && s.lru != []
      modifies this, table, table.list, lruHead, inUseHead, created
      ensures Valid() && created == old(created) && s == Erased(old(s), old(s).lru[0]) && table.list == old(table.list)
    {
      hide Core, Held, IsFound, Erased, Evictable, Inv;
      AboutOldest();
      Invariant();
      var oldest: LRUHandle := lruHead.next;
      var removed := RemoveFromTable(oldest.key, oldest.hash);
      FindsItself(s, created, oldest, removed);
      var erased := FinishErase(removed);
    }

    method Prune()
      requires Valid()
      modifies this, table, table.list, lruHead, inUseHead, created
      ensures Valid() && created == old(created) && s == Pruned(old(s)) && table.list == old(table.list)
      ensures s == CacheState([], old(s).inUse, old(s).clients, old(s).deleted + old(s).lru)
    {
      hide Core, Held, Evictable, Inv, Erased;
      Invariant();
      PrunedIs(s, created);
      AboutOldest();
      while Evictable()
        invariant Valid() && created == old(created) && Pruned(s) == Pruned(old(s)) && table.list == old(table.list)
        invariant Evictable() <==> s.lru != []
        decreases |s.lru|
      {
        ghost var before := s;
        Invariant();
        OldestErased(s, created);
        EvictOldest();
        AboutOldest();
      }
    }

    method LinkInUse(e: LRUHandle)
      requires Heads() && Lists() && Separate(s, created) && e !in created && e != lruHead && e != inUseHead
      modifies inUseHead`next, inUseHead`prev, created`next, created`prev, e`next, e`prev
      ensures Ring(lruHead, s.lru) && Ring(inUseHead, s.inUse + [e])
    {
      hide Ring;
      ghost var n := |s.inUse| - 1;
      assert At(inUseHead, s.inUse, n) == inUseHead || At(inUseHead, s.inUse, n) in s.inUse;
      Link(inUseHead, e, s.inUse);
    }

    /** The cache's own reference, and a place on the in_use_ list. */
    method Attach(e: LRUHandle)
      requires Valid() && e !in created && e != lruHead && e != inUseHead && e.refs == 1 && !e.inCache
      modifies this`usage, this`s, this`created, inUseHead`next, inUseHead`prev, created`next, created`prev
      modifies e`next, e`prev, e`refs, e`inCache
      ensures created == old(created) + {e} && s == Added(old(s), e) && Heads() && Lists() && Counted()
      ensures Tidy(s) && Owned(s, created) && usage == Usage(s) && TableHolds(Held(old(s)))
    {
      hide Tidy, Owned, Ring, Usage, Held, HandleTable.Valid, Inv, CacheState.Refs, CacheState.Cached, Separate, Added;
      Invariant();
      AddedFits(s, created, e);
      e.refs := e.refs + 1;
      e.inCache := true;
      LinkInUse(e);
      usage := usage + e.charge;
      assert forall h :: h in created ==> h.refs == Added(s, e).Refs(h) && (h.inCache <==> Added(s, e).Cached(h));
      created := created + {e};
      s := Added(s, e);
    }

    method PutIn(e: LRUHandle) returns (replaced: LRUHandle?)
      requires Valid() && e !in created && e != lruHead && e != inUseHead && e.refs == 1 && !e.inCache
      modifies this, table, table.list, inUseHead, created`next, created`prev, created`nextHash, e
      ensures Core(replaced) && created == old(created) + {e} && IsFound(Held(old(s)), e.key, e.hash, replaced)
      ensures s == Added(old(s), e) && (table.list == old(table.list) || fresh(table.list))
    {
      hide Tidy, Owned, Ring, Usage, Held, HandleTable.Valid, IsFound, Inv, WithHandle, HeldBut, Counted,
          CacheState.Cached,
        Separate;
      Invariant();
      Attach(e);
      replaced := table.Insert(e);
      ReplacedFits(old(s), old(created), e, replaced);
    }

    /** Capacity 0: nothing is cached. */
    method HandOut(e: LRUHandle)
      requires Valid() && e !in created && e != lruHead && e != inUseHead && e.refs == 1 && !e.inCache
      modifies this`s, this`created, e`next
      ensures Valid() && created == old(created) + {e} && s == old(s).(clients := old(s).clients + multiset{e})
    {
      hide Ring, Usage, Held, HandleTable.Valid, Distinct;
      Invariant();
      HandOutKeeps(s, created, e);
      e.next := null;
      created := created + {e};
      s := s.(clients := s.clients + multiset{e});
    }

    /** Insert: the new handle is cached, unless the capacity is 0, in place of
        the one with its key; then the oldest go until the rest fits. */
    method Insert(key: seq<byte>, hash: uint32, value: int, charge: nat)
        returns (e: LRUHandle, ghost replaced: LRUHandle?)
      requires Valid()
      modifies this, table, table.list, lruHead, inUseHead, created
      ensures Valid() && fresh(e) && created == old(created) + {e}
      ensures e.key == key && e.hash == hash && e.value == value && e.charge == charge
      ensures capacity > 0 ==> IsFound(Held(old(s)), key, hash, replaced)
      ensures s == Inserted(old(s), e, replaced, capacity)
      ensures usage <= capacity || s.lru == []
      ensures table.list == old(table.list) || fresh(table.list)
    {
      hide Core, Held, Evictable, Inv, Erased, IsFound, Usage;
      e := new LRUHandle(key, hash, value, charge);
      if capacity > 0 {
        var gone := PutIn(e);
        replaced := gone;
        var erased := FinishErase(gone);
      } else {
        replaced := null;
        HandOut(e);
      }
      AboutOldest();
      while usage > capacity && Evictable()
        invariant Valid() && created == old(created) + {e}
            && Trimmed(s, capacity) == Inserted(old(s), e, replaced, capacity)
        invariant Evictable() <==> s.lru != []
        invariant table.list == old(table.list) || fresh(table.list)
        decreases |s.lru|
      {
        Invariant();
        OldestErased(s, created);
        AboutUsage();
        EvictOldest();
        AboutOldest();
      }
      AboutUsage();
    }

    lemma AboutUsage()
      requires Valid()
      ensures usage == Usage(s)
    {
    }
  }
}
