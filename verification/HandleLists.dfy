/** LRUHandle, and the circular doubly linked lists it is kept in. */
module HandleLists {
  import opened Coding

  class LRUHandle {
    const key: seq<byte>
    const hash: uint32
    const value: int
    const charge: nat
    var nextHash: LRUHandle?
    var next: LRUHandle?
    var prev: LRUHandle?
    var inCache: bool
    var refs: nat

    constructor (key: seq<byte>, hash: uint32, value: int, charge: nat)
      ensures this.key == key && this.hash == hash && this.value == value && this.charge == charge
      ensures !inCache && refs == 1
    {
      this.key, this.hash, this.value, this.charge := key, hash, value, charge;
      nextHash, next, prev := null, null, null;
      inCache, refs := false, 1;
    }

    /** The dummy head of an empty list. */
    constructor Head()
      ensures Ring(this, []) && !inCache
    {
      key, hash, value, charge := [], 0, 0, 0;
      nextHash, inCache, refs := null, false, 0;
      next, prev := this, this;
    }
  }

  /** The ring around `head`: its elements, oldest first. */
  function At(head: LRUHandle, s: seq<LRUHandle>, i: int): LRUHandle {
    if 0 <= i < |s| then s[i] else head
  }

  ghost predicate Apart(head: LRUHandle, s: seq<LRUHandle>) {
    head !in s && forall i, j :: 0 <= i < j < |s| ==> s[i] != s[j]
  }

  /** Element i and the next point at each other; the head is number -1 and
      number |s|. */
  ghost predicate Joined(head: LRUHandle, s: seq<LRUHandle>, i: int)
    reads head`next, head`prev, s`next, s`prev
  {
    At(head, s, i).next == At(head, s, i + 1) && At(head, s, i + 1).prev == At(head, s, i)
  }

  ghost predicate Ring(head: LRUHandle, s: seq<LRUHandle>)
    reads head`next, head`prev, s`next, s`prev
  {
    Apart(head, s) && forall i :: -1 <= i < |s| ==> Joined(head, s, i)
  }

  function Without<T>(s: seq<T>, i: nat): (r: seq<T>)
    requires i < |s|
    ensures |r| == |s| - 1
    ensures forall k :: 0 <= k < |r| ==> r[k] == if k < i then s[k] else s[k + 1]
  {
    s[..i] + s[i + 1..]
  }

  /** LRU_Remove. */
  method Unlink(e: LRUHandle, ghost head: LRUHandle, ghost s: seq<LRUHandle>, ghost i: nat)
    requires Ring(head, s) && i < |s| && s[i] == e
    modifies At(head, s, i + 1)`prev, At(head, s, i - 1)`next
    ensures Ring(head, Without(s, i))
  {
    assert Joined(head, s, i - 1) && Joined(head, s, i);
    e.next.prev := e.prev;
    e.prev.next := e.next;
    ghost var t := Without(s, i);
    forall k | -1 <= k < |t| ensures Joined(head, t, k) {
      assert old(Joined(head, s, k)) && old(Joined(head, s, k + 1));
    }
  }

  /** LRU_Append: e becomes the newest. */
  method Link(head: LRUHandle, e: LRUHandle, ghost s: seq<LRUHandle>)
    requires Ring(head, s) && e != head && e !in s
    modifies e`next, e`prev, At(head, s, |s| - 1)`next, head`prev
    ensures Ring(head, s + [e])
  {
    assert Joined(head, s, |s| - 1);
    e.next := head;
    e.prev := head.prev;
    e.prev.next := e;
    e.next.prev := e;
    ghost var t := s + [e];
    forall k | -1 <= k < |t| ensures Joined(head, t, k) {
      assert k < |s| ==> old(Joined(head, s, k));
    }
  }

  /** From one list to the newest place of another. */
  method Move(e: LRUHandle, from: LRUHandle, to: LRUHandle, ghost a: seq<LRUHandle>, ghost b: seq<LRUHandle>,
      ghost i: nat)
    requires Ring(from, a) && Ring(to, b) && i < |a| && a[i] == e
    requires from != to && from !in b && to !in a && forall h :: h in a ==> h !in b
    modifies from`next, from`prev, to`next, to`prev, a`next, a`prev, b`next, b`prev
    ensures Ring(from, Without(a, i)) && Ring(to, b + [e])
  {
    assert At(from, a, i + 1) == from || At(from, a, i + 1) in a;
    assert At(from, a, i - 1) == from || At(from, a, i - 1) in a;
    assert At(to, b, |b| - 1) == to || At(to, b, |b| - 1) in b;
    ghost var rest := Without(a, i);
    assert forall h :: h in rest ==> h in a && h != e;
    hide Ring;
    Unlink(e, from, a, i);
    assert Ring(to, b);
    Link(to, e, b);
    assert Ring(from, rest);
  }
}
