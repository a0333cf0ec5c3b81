/** class SkipList: one writer that links a new node level by level, and readers
    that may run between any two of its writes. */
module SkipLists {

  // A position in the order of the comparator.
  type Key = real

  const MAX_HEIGHT: nat := 12

  class Node {
    const key: Key
    var next: seq<Node?>

    constructor (k: Key, height: nat)
      ensures key == k && |next| == height && forall l :: 0 <= l < height ==> next[l] == null
    {
      key := k;
      next := seq(height, l => null);
    }
  }

  // ---- heights ----

  /** First node from j on that is linked at level l; |linked| if none. */
  function FirstTall(linked: seq<nat>, j: nat, l: nat): (r: nat)
    requires j <= |linked|
    ensures j <= r <= |linked|
    ensures r < |linked| ==> linked[r] > l
    ensures forall i :: j <= i < r ==> linked[i] <= l
    decreases |linked| - j
  {
    if j == |linked| || linked[j] > l then j else FirstTall(linked, j + 1, l)
  }

  lemma FirstTallIs(linked: seq<nat>, j: nat, l: nat, r: nat)
    requires j <= r <= |linked| && (r < |linked| ==> linked[r] > l)
    requires forall i :: j <= i < r ==> linked[i] <= l
    ensures FirstTall(linked, j, l) == r
  {
  }

  /** Linking node k at level i changes only where the search of level i used to
      pass over k. */
  lemma Raised(linked: seq<nat>, k: nat, i: nat, j: nat, l: nat)
    requires k < |linked| && linked[k] == i && j <= |linked|
    ensures var now := linked[k := i + 1];
      FirstTall(now, j, l) == if l == i && j <= k < FirstTall(linked, j, l) then k else FirstTall(linked, j, l)
  {
    var now := linked[k := i + 1];
    var r := FirstTall(linked, j, l);
    if l == i && j <= k < r {
      FirstTallIs(now, j, l, k);
    } else {
      FirstTallIs(now, j, l, r);
    }
  }

  /** Making room for a node that is linked nowhere changes no search. */
  lemma Inserted(linked: seq<nat>, k: nat, j: nat, l: nat)
    requires k <= |linked| && j <= |linked|
    ensures var now := linked[..k] + [0] + linked[k..];
      var r := FirstTall(linked, j, l);
      && FirstTall(now, if j <= k then j else j + 1, l) == (if r < k then r else r + 1)
      && (j == k ==> FirstTall(now, k + 1, l) == r + 1)
  {
    var now := linked[..k] + [0] + linked[k..];
    var r := FirstTall(linked, j, l);
    FirstTallIs(now, if j <= k then j else j + 1, l, if r < k then r else r + 1);
    if j == k { FirstTallIs(now, k + 1, l, r + 1); }
  }

  // ---- the nodes in order ----

  /** Node number p; -1 is the head, which has every level. */
  ghost function NodeOf(head: Node, order: seq<Node>, p: int): Node
    requires -1 <= p < |order|
  {
    if p == -1 then head else order[p]
  }

  ghost function LevelsOf(linked: seq<nat>, p: int): nat
    requires -1 <= p < |linked|
  {
    if p == -1 then MAX_HEIGHT else linked[p]
  }

  ghost function Successor(order: seq<Node>, linked: seq<nat>, p: int, l: nat): Node?
    requires -1 <= p < |order| && |linked| == |order|
  {
    var r := FirstTall(linked, p + 1, l);
    if r < |order| then order[r] else null
  }

  ghost function KeysOf(order: seq<Node>, linked: seq<nat>): set<Key>
    requires |linked| == |order|
  {
    set i | 0 <= i < |order| && linked[i] > 0 :: order[i].key
  }

  /** Node number p is linked right at its lowest `levels` levels. */
  ghost predicate NodeLinks(next: seq<Node?>, order: seq<Node>, linked: seq<nat>, p: int, levels: nat)
    requires -1 <= p < |order| && |linked| == |order|
  {
    |next| >= levels && forall l :: 0 <= l < levels ==> next[l] == Successor(order, linked, p, l)
  }

  lemma NodeLinksPlaced(next: seq<Node?>, order: seq<Node>, linked: seq<nat>, k: nat, x: Node, q: int, levels: nat)
    requires |linked| == |order| && k <= |order| && -1 <= q < |order| && NodeLinks(next, order, linked, q, levels)
    ensures NodeLinks(next, order[..k] + [x] + order[k..], linked[..k] + [0] + linked[k..], if q < k then q
        else q + 1, levels)
  {
    hide Successor;
    forall l | 0 <= l < levels
      ensures next[l] == Successor(order[..k] + [x] + order[k..], linked[..k] + [0] + linked[k..], if q < k then q
          else q + 1, l)
    {
      SuccessorPlaced(order, linked, k, x, q, l);
    }
  }

  /** The link arrays of the nodes. */
  ghost function Nexts(order: seq<Node>): (r: seq<seq<Node?>>)
    reads order
    ensures |r| == |order| && forall i :: 0 <= i < |order| ==> r[i] == order[i].next
  {
    if order == [] then [] else Nexts(order[..|order| - 1]) + [order[|order| - 1].next]
  }

  /** Every link leads to the next node that is linked at its level, so each
      level is a sorted part of the one below. */
  ghost predicate AllLinks(first: seq<Node?>, nexts: seq<seq<Node?>>, order: seq<Node>, linked: seq<nat>) {
    && |linked| == |order| == |nexts|
    && NodeLinks(first, order, linked, -1, MAX_HEIGHT)
    && forall j :: 0 <= j < |nexts| ==> NodeLinks(nexts[j], order, linked, j, linked[j])
  }

  lemma LinksPlaced(first: seq<Node?>, nexts: seq<seq<Node?>>, order: seq<Node>, linked: seq<nat>, k: nat, x: Node,
      own: seq<Node?>)
    requires AllLinks(first, nexts, order, linked) && k <= |order|
    ensures AllLinks(first, nexts[..k] + [own] + nexts[k..], order[..k] + [x] + order[k..],
        linked[..k] + [0] + linked[k..])
  {
    hide NodeLinks;
    var ns, o, n := nexts[..k] + [own] + nexts[k..], order[..k] + [x] + order[k..], linked[..k] + [0] + linked[k..];
    NodeLinksPlaced(first, order, linked, k, x, -1, MAX_HEIGHT);
    forall j | 0 <= j < |ns| ensures NodeLinks(ns[j], o, n, j, n[j]) {
      if j == k {
        Unlinked(own, o, n, k);
      } else {
        var q := if j < k then j else j - 1;
        assert ns[j] == nexts[q] && n[j] == linked[q];
        NodeLinksPlaced(nexts[q], order, linked, k, x, q, linked[q]);
      }
    }
  }

  lemma LinksCopied(first: seq<Node?>, nexts: seq<seq<Node?>>, order: seq<Node>, linked: seq<nat>, k: nat, v: Node?)
    requires AllLinks(first, nexts, order, linked) && k < |order| && linked[k] < |nexts[k]|
    ensures AllLinks(first, nexts[k := nexts[k][linked[k] := v]], order, linked)
  {
    hide NodeLinks;
    LinkAhead(nexts[k], order, linked, k, linked[k], v);
  }

  lemma LinksPublished(first: seq<Node?>, nexts: seq<seq<Node?>>, order: seq<Node>, linked: seq<nat>, k: nat, i: nat,
      q: int)
    requires AllLinks(first, nexts, order, linked) && k < |order| && LastBefore(order, linked, k, i, q)
    requires i < |nexts[k]| && nexts[k][i] == Successor(order, linked, k, i)
    ensures -1 <= q < k && i < |first| && (q >= 0 ==> i < |nexts[q]|)
    ensures q == -1 ==> AllLinks(first[i := order[k]], nexts, order, linked[k := i + 1])
    ensures q >= 0 ==> AllLinks(first, nexts[q := nexts[q][i := order[k]]], order, linked[k := i + 1])
  {
    hide NodeLinks, Successor, LastBefore, FirstTall;
    LastBeforeParts(order, linked, k, i, q);
    var now := linked[k := i + 1];
    LinkOf(first, order, linked, -1, MAX_HEIGHT, i);
    if q == -1 {
      LastLinksRaised(first, order, linked, k, i, q);
    } else {
      OtherLinksRaised(first, order, linked, k, i, q, -1);
      LastLinksRaised(nexts[q], order, linked, k, i, q);
    }
    forall j | 0 <= j < |nexts| && j != q ensures NodeLinks(nexts[j], order, now, j, now[j]) {
      if j == k {
        NewLinksRaised(nexts[j], order, linked, k, i);
      } else {
        OtherLinksRaised(nexts[j], order, linked, k, i, q, j);
      }
    }
  }

  lemma Unlinked(next: seq<Node?>, order: seq<Node>, linked: seq<nat>, k: nat)
    requires k < |order| && |linked| == |order|
    ensures NodeLinks(next, order, linked, k, 0)
  {
  }

  lemma LinkOf(next: seq<Node?>, order: seq<Node>, linked: seq<nat>, p: int, levels: nat, l: nat)
    requires -1 <= p < |order| && |linked| == |order| && NodeLinks(next, order, linked, p, levels) && l < levels
    ensures l < |next| && next[l] == Successor(order, linked, p, l)
  {
  }

  /** Writing a level that does not count yet. */
  lemma LinkAhead(next: seq<Node?>, order: seq<Node>, linked: seq<nat>, p: int, levels: nat, v: Node?)
    requires -1 <= p < |order| && |linked| == |order| && NodeLinks(next, order, linked, p, levels) && levels < |next|
    ensures NodeLinks(next[levels := v], order, linked, p, levels)
  {
  }

  /** q is the last node before k that level i knows. */
  ghost predicate LastBefore(order: seq<Node>, linked: seq<nat>, k: nat, i: nat, q: int)
    requires |linked| == |order| && k < |order|
  {
    -1 <= q < k && LevelsOf(linked, q) > i && k < FirstTall(linked, q + 1, i) && linked[k] == i < MAX_HEIGHT
  }

  lemma NextOfLast(order: seq<Node>, linked: seq<nat>, k: nat, i: nat, q: int)
    requires |linked| == |order| && k < |order| && LastBefore(order, linked, k, i, q)
    ensures Successor(order, linked, q, i) == Successor(order, linked, k, i)
  {
    FirstTallIs(linked, k + 1, i, FirstTall(linked, q + 1, i));
  }

  /** Other nodes do not point over k at level i. */
  lemma OthersStopBefore(order: seq<Node>, linked: seq<nat>, k: nat, i: nat, q: int, p: int)
    requires |linked| == |order| && k < |order| && LastBefore(order, linked, k, i, q)
    requires -1 <= p < k && p != q && LevelsOf(linked, p) > i
    ensures FirstTall(linked, p + 1, i) < k
  {
  }

  lemma OtherLinksRaised(next: seq<Node?>, order: seq<Node>, linked: seq<nat>, k: nat, i: nat, q: int, p: int)
    requires |linked| == |order| && k < |order| && LastBefore(order, linked, k, i, q)
    requires -1 <= p < |order| && p != q && p != k && NodeLinks(next, order, linked, p, LevelsOf(linked, p))
    ensures NodeLinks(next, order, linked[k := i + 1], p, LevelsOf(linked[k := i + 1], p))
  {
    var now := linked[k := i + 1];
    forall l | 0 <= l < LevelsOf(linked, p) ensures next[l] == Successor(order, now, p, l) {
      SuccessorRaised(order, linked, k, i, p, l);
      if l == i && p < k { OthersStopBefore(order, linked, k, i, q, p); }
    }
  }

  lemma NewLinksRaised(next: seq<Node?>, order: seq<Node>, linked: seq<nat>, k: nat, i: nat)
    requires |linked| == |order| && k < |order| && linked[k] == i < |next|
    requires NodeLinks(next, order, linked, k, i) && next[i] == Successor(order, linked, k, i)
    ensures NodeLinks(next, order, linked[k := i + 1], k, i + 1)
  {
    forall l | 0 <= l < i + 1 ensures next[l] == Successor(order, linked[k := i + 1], k, l) {
      SuccessorRaised(order, linked, k, i, k, l);
    }
  }

  lemma LastLinksRaised(next: seq<Node?>, order: seq<Node>, linked: seq<nat>, k: nat, i: nat, q: int)
    requires |linked| == |order| && k < |order| && LastBefore(order, linked, k, i, q)
    requires NodeLinks(next, order, linked, q, LevelsOf(linked, q))
    ensures i < |next| && NodeLinks(next[i := order[k]], order, linked[k := i + 1], q, LevelsOf(linked[k := i + 1], q))
  {
    var now, to := linked[k := i + 1], next[i := order[k]];
    forall l | 0 <= l < LevelsOf(linked, q) ensures to[l] == Successor(order, now, q, l) {
      SuccessorRaised(order, linked, k, i, q, l);
    }
  }

  lemma SuccessorPlaced(order: seq<Node>, linked: seq<nat>, k: nat, x: Node, q: int, l: nat)
    requires |linked| == |order| && k <= |order| && -1 <= q < |order|
    ensures Successor(order[..k] + [x] + order[k..], linked[..k] + [0] + linked[k..], if q < k then q else q + 1, l)
         == Successor(order, linked, q, l)
  {
    hide FirstTall;
    Inserted(linked, k, q + 1, l);
    PlacedNode(order, k, x, FirstTall(linked, q + 1, l));
  }

  lemma PlacedNode(order: seq<Node>, k: nat, x: Node, r: nat)
    requires k <= |order|
    ensures |order[..k] + [x] + order[k..]| == |order| + 1
    ensures r < |order| ==> (order[..k] + [x] + order[k..])[if r < k then r else r + 1] == order[r]
  {
  }

  lemma KeysPlaced(order: seq<Node>, linked: seq<nat>, k: nat, x: Node)
    requires |linked| == |order| && k <= |order|
    ensures KeysOf(order[..k] + [x] + order[k..], linked[..k] + [0] + linked[k..]) == KeysOf(order, linked)
  {
    var o, n := order[..k] + [x] + order[k..], linked[..k] + [0] + linked[k..];
    forall i | 0 <= i < |o| && n[i] > 0 ensures o[i].key in KeysOf(order, linked) {
      var q := if i < k then i else i - 1;
      assert order[q] == o[i] && linked[q] > 0;
    }
    forall q | 0 <= q < |order| && linked[q] > 0 ensures order[q].key in KeysOf(o, n) {
      var i := if q < k then q else q + 1;
      assert o[i] == order[q] && n[i] > 0;
    }
  }

  lemma SuccessorRaised(order: seq<Node>, linked: seq<nat>, k: nat, i: nat, q: int, l: nat)
    requires |linked| == |order| && k < |order| && linked[k] == i && -1 <= q < |order|
    ensures Successor(order, linked[k := i + 1], q, l)
         == if l == i && q < k < FirstTall(linked, q + 1, l) then order[k] else Successor(order, linked, q, l)
  {
    Raised(linked, k, i, q + 1, l);
  }

  lemma PlaceGrows(order: seq<Node>, linked: seq<nat>, k: nat, x: Node)
    requires |linked| == |order| && k <= |order|
    ensures Grows(order, linked, order[..k] + [x] + order[k..], linked[..k] + [0] + linked[k..])
  {
    var o, n := order[..k] + [x] + order[k..], linked[..k] + [0] + linked[k..];
    forall i | 0 <= i < |order| ensures StillThere(order[i], linked[i], o, n) {
      var j := if i < k then i else i + 1;
      assert o[j] == order[i] && n[j] == linked[i];
    }
  }

  lemma RaiseGrows(order: seq<Node>, linked: seq<nat>, k: nat, i: nat)
    requires |linked| == |order| && k < |order| && linked[k] == i
    ensures Grows(order, linked, order, linked[k := i + 1])
  {
    var now := linked[k := i + 1];
    forall j | 0 <= j < |order| ensures StillThere(order[j], linked[j], order, now) {
      assert now[j] >= linked[j];
    }
  }

  lemma KeysRaised(order: seq<Node>, linked: seq<nat>, k: nat, i: nat)
    requires |linked| == |order| && k < |order| && linked[k] == i
    ensures KeysOf(order, linked[k := i + 1]) == KeysOf(order, linked) + {order[k].key}
  {
    var now := linked[k := i + 1];
    forall j | 0 <= j < |order| && now[j] > 0 ensures order[j].key in KeysOf(order, linked) + {order[k].key} {
    }
    forall j | 0 <= j < |order| && linked[j] > 0 ensures order[j].key in KeysOf(order, now) {
      assert now[j] > 0;
    }
    assert now[k] > 0;
  }

  ghost predicate JustAt(order: seq<Node>, linked: seq<nat>, p: int, l: nat, key: Key)
    requires |linked| == |order|
  {
    && -1 <= p < |order| && LevelsOf(linked, p) > l && (p >= 0 ==> order[p].key < key)
    && var r := FirstTall(linked, p + 1, l); (r < |order| ==> order[r].key >= key)
  }

  /** Strictly ascending keys; so no node occurs twice. */
  ghost predicate Ascending(order: seq<Node>) {
    forall i, j :: 0 <= i < j < |order| ==> order[i].key < order[j].key
  }

  ghost predicate HeightsOk(linked: seq<nat>, heights: seq<nat>, max: nat) {
    |linked| == |heights| && forall i :: 0 <= i < |heights| ==> linked[i] <= heights[i] <= max
  }

  lemma AscendingPlaced(order: seq<Node>, k: nat, x: Node)
    requires Ascending(order) && k <= |order| && FitsAt(order, k, x.key)
    ensures Ascending(order[..k] + [x] + order[k..])
  {
    var o := order[..k] + [x] + order[k..];
    forall i, j | 0 <= i < j < |o| ensures o[i].key < o[j].key {
      if i < k && j > k { assert order[i].key < x.key < order[j - 1].key; }
    }
  }

  lemma HeightsPlaced(linked: seq<nat>, heights: seq<nat>, max: nat, k: nat, height: nat)
    requires HeightsOk(linked, heights, max) && k <= |heights| && height <= max
    ensures HeightsOk(linked[..k] + [0] + linked[k..], heights[..k] + [height] + heights[k..], max)
  {
  }

  ghost predicate PathIn(head: Node, order: seq<Node>, linked: seq<nat>, prev: seq<Node>, at: seq<int>, lo: nat,
      hi: nat, key: Key) {
    && |prev| == |at| == MAX_HEIGHT && hi <= MAX_HEIGHT && |linked| == |order|
    && forall l ::
        lo <= l < hi ==>
          -1 <= at[l] < |order| && JustAt(order, linked, at[l], l, key) && prev[l] == NodeOf(head, order, at[l])
  }

  ghost predicate FitsAt(order: seq<Node>, k: nat, key: Key)
    requires k <= |order|
  {
    (forall i :: 0 <= i < k ==> order[i].key < key) && (forall i :: k <= i < |order| ==> key < order[i].key)
  }

  /** Making room for the new node leaves the places found by the search. */
  lemma JustPlaced(order: seq<Node>, linked: seq<nat>, k: nat, x: Node, q: int, l: nat, key: Key)
    requires |linked| == |order| && k <= |order| && FitsAt(order, k, key) && JustAt(order, linked, q, l, key)
    ensures JustAt(order[..k] + [x] + order[k..], linked[..k] + [0] + linked[k..], q, l, key)
  {
    Inserted(linked, k, q + 1, l);
    assert q < k;
  }

  /** So does linking it at a lower level. */
  lemma JustRaised(order: seq<Node>, linked: seq<nat>, k: nat, i: nat, q: int, l: nat, key: Key)
    requires |linked| == |order| && k < |order| && linked[k] == i < l && JustAt(order, linked, q, l, key)
    ensures JustAt(order, linked[k := i + 1], q, l, key)
  {
    Raised(linked, k, i, q + 1, l);
  }

  lemma NoPathYet(head: Node, order: seq<Node>, linked: seq<nat>, prev: seq<Node>, at: seq<int>, hi: nat, key: Key)
    requires |prev| == |at| == MAX_HEIGHT && hi <= MAX_HEIGHT && |linked| == |order|
    ensures PathIn(head, order, linked, prev, at, hi, hi, key)
  {
  }

  lemma PathShorter(head: Node, order: seq<Node>, linked: seq<nat>, prev: seq<Node>, at: seq<int>, hi: nat, more: nat,
      key: Key)
    requires PathIn(head, order, linked, prev, at, 0, more, key) && hi <= more
    ensures PathIn(head, order, linked, prev, at, 0, hi, key)
  {
    hide JustAt;
  }

  lemma PathExtends(head: Node, order: seq<Node>, linked: seq<nat>, prev: seq<Node>, at: seq<int>, lo: nat, hi: nat,
      key: Key, x: Node, p: int)
    requires PathIn(head, order, linked, prev, at, lo + 1, hi, key) && lo < hi
    requires -1 <= p < |order| && JustAt(order, linked, p, lo, key) && x == NodeOf(head, order, p)
    ensures |prev| == |at| == MAX_HEIGHT && PathIn(head, order, linked, prev[lo := x], at[lo := p], lo, hi, key)
  {
    hide JustAt;
  }

  lemma PathParts(head: Node, order: seq<Node>, linked: seq<nat>, prev: seq<Node>, at: seq<int>, lo: nat, hi: nat,
      key: Key)
    requires PathIn(head, order, linked, prev, at, lo, hi, key) && lo < hi
    ensures |prev| == |at| == MAX_HEIGHT && -1 <= at[lo] < |order|
    ensures JustAt(order, linked, at[lo], lo, key) && prev[lo] == NodeOf(head, order, at[lo])
    ensures prev[lo] == head || prev[lo] in order
  {
    hide JustAt;
  }

  lemma PathPlaced(head: Node, order: seq<Node>, linked: seq<nat>, k: nat, x: Node, prev: seq<Node>, at: seq<int>,
      hi: nat, key: Key)
    requires k <= |order| && FitsAt(order, k, key) && PathIn(head, order, linked, prev, at, 0, hi, key)
    ensures PathIn(head, order[..k] + [x] + order[k..], linked[..k] + [0] + linked[k..], prev, at, 0, hi, key)
  {
    hide JustAt, FitsAt;
    var o, n := order[..k] + [x] + order[k..], linked[..k] + [0] + linked[k..];
    forall l | 0 <= l < hi ensures -1 <= at[l] < |o| && JustAt(o, n, at[l], l, key)
        && prev[l] == NodeOf(head, o, at[l]) {
      JustPlaced(order, linked, k, x, at[l], l, key);
      JustIsBefore(order, linked, k, at[l], l, key);
    }
  }

  lemma JustIsBefore(order: seq<Node>, linked: seq<nat>, k: nat, q: int, l: nat, key: Key)
    requires |linked| == |order| && k <= |order| && FitsAt(order, k, key) && JustAt(order, linked, q, l, key)
    ensures q < k
  {
  }

  lemma PathRaised(head: Node, order: seq<Node>, linked: seq<nat>, k: nat, prev: seq<Node>, at: seq<int>, i: nat,
      hi: nat, key: Key)
    requires PathIn(head, order, linked, prev, at, i, hi, key) && k < |order| && linked[k] == i < hi
    ensures PathIn(head, order, linked[k := i + 1], prev, at, i + 1, hi, key)
  {
    hide JustAt;
    forall l | i + 1 <= l < hi ensures JustAt(order, linked[k := i + 1], at[l], l, key) {
      JustRaised(order, linked, k, i, at[l], l, key);
    }
  }

  /** What the search left for level i is where the new node has to go. */
  lemma PrevIsLast(order: seq<Node>, linked: seq<nat>, k: nat, i: nat, q: int)
    requires |linked| == |order| && k < |order| && linked[k] == i < MAX_HEIGHT
        && JustAt(order, linked, q, i, order[k].key)
    requires Ascending(order)
    ensures LastBefore(order, linked, k, i, q)
  {
    var r := FirstTall(linked, q + 1, i);
    if r < |order| { assert order[r].key >= order[k].key; }
  }

  lemma FitsAfter(order: seq<Node>, linked: seq<nat>, p: int, key: Key)
    requires |linked| == |order| && JustAt(order, linked, p, 0, key)
    requires Ascending(order)
    requires forall i :: 0 <= i < |order| ==> linked[i] > 0 && order[i].key != key
    ensures FitsAt(order, p + 1, key)
  {
    assert FirstTall(linked, p + 1, 0) == p + 1;
  }

  /** Above the tallest node there is only the head. */
  lemma HeadIsJust(order: seq<Node>, linked: seq<nat>, l: nat, key: Key)
    requires |linked| == |order| && l < MAX_HEIGHT && forall i :: 0 <= i < |order| ==> linked[i] <= l
    ensures JustAt(order, linked, -1, l, key)
  {
  }

  /** Nodes stay in the list and are only ever linked at more levels. */
  ghost predicate Grows(order: seq<Node>, linked: seq<nat>, order2: seq<Node>, linked2: seq<nat>)
    requires |linked| == |order| && |linked2| == |order2|
  {
    forall i :: 0 <= i < |order| ==> StillThere(order[i], linked[i], order2, linked2)
  }

  ghost predicate StillThere(n: Node, levels: nat, order: seq<Node>, linked: seq<nat>)
    requires |linked| == |order|
  {
    exists j :: 0 <= j < |order| && order[j] == n && linked[j] >= levels
  }

  lemma GrowsSelf(order: seq<Node>, linked: seq<nat>)
    requires |linked| == |order|
    ensures Grows(order, linked, order, linked)
  {
    forall i | 0 <= i < |order| ensures StillThere(order[i], linked[i], order, linked) {
    }
  }

  lemma GrowsTransitive(o: seq<Node>, l: seq<nat>, o2: seq<Node>, l2: seq<nat>, o3: seq<Node>, l3: seq<nat>)
    requires |l| == |o| && |l2| == |o2| && |l3| == |o3|
    requires Grows(o, l, o2, l2) && Grows(o2, l2, o3, l3)
    ensures Grows(o, l, o3, l3)
  {
    forall i | 0 <= i < |o| ensures StillThere(o[i], l[i], o3, l3) {
      var j :| 0 <= j < |o2| && o2[j] == o[i] && l2[j] >= l[i];
      assert StillThere(o2[j], l2[j], o3, l3);
    }
  }

  /** What a reader looks for: Seek, Prev and SeekToLast of the iterator. */
  datatype Query = AtOrAfter(key: Key) | Before(key: Key) | Last {
    /** Whether the search goes on past a node with this key. */
    predicate Passes(k: Key) {
      Last? || k < key
    }
  }

  /** The answer on a plain set of keys: the least one at or after the key, or the
      greatest before it, or the greatest of all. */
  ghost predicate IsAnswer(keys: set<Key>, query: Query, node: Node?) {
    if query.AtOrAfter? then
      if node == null then forall k :: k in keys ==> k < query.key
      else node.key in keys && node.key >= query.key && forall k :: k in keys ==> k < query.key || k >= node.key
    else
      if node == null then forall k :: k in keys ==> !query.Passes(k)
      else node.key in keys && query.Passes(node.key) && forall k :: k in keys && query.Passes(k) ==> k <= node.key
  }

  class SkipList {
    const head: Node
    var maxHeight: nat
    // All nodes by key, and how many of its levels each is linked at.
    ghost var order: seq<Node>
    ghost var linked: seq<nat>

    ghost predicate Shape()
      reads this, head, order
    {
      && 0 < maxHeight <= MAX_HEIGHT && |head.next| == MAX_HEIGHT
      && head !in order && Ascending(order) && HeightsOk(linked, Heights(order), maxHeight)
    }

    /** Node number p of the list; -1 is the head. */
    ghost function At(p: int): Node
      requires -1 <= p < |order|
      reads this
    {
      NodeOf(head, order, p)
    }

    ghost function Levels(p: int): nat
      requires -1 <= p < |order| && |linked| == |order|
      reads this
    {
      LevelsOf(linked, p)
    }

    ghost function After(p: int, l: nat): Node?
      requires -1 <= p < |order| && |linked| == |order|
      reads this
    {
      Successor(order, linked, p, l)
    }

    ghost predicate Valid()
      reads this, head, order
    {
      Shape() && AllLinks(head.next, Nexts(order), order, linked)
    }

    lemma LinkIs(p: int, l: nat)
      requires Valid() && -1 <= p < |order| && l < Levels(p)
      ensures l < |At(p).next| && At(p).next[l] == After(p, l)
    {
      hide NodeLinks;
      if p >= 0 { assert Nexts(order)[p] == order[p].next; }
      LinkOf(At(p).next, order, linked, p, Levels(p), l);
    }

    /** The keys a reader can reach. */
    ghost function Keys(): set<Key>
      requires |linked| == |order|
      reads this
    {
      KeysOf(order, linked)
    }

    constructor ()
      ensures Valid() && fresh(head) && order == [] && linked == []
    {
      head := new Node(0.0, MAX_HEIGHT);
      maxHeight, order, linked := 1, [], [];
    }

    /** The node at p comes before `key`, and the next one at level l does not. */
    ghost predicate Just(p: int, l: nat, key: Key)
      requires |linked| == |order|
      reads this
    {
      JustAt(order, linked, p, l, key)
    }

    ghost predicate FirstAt(j: int, key: Key)
      requires 0 <= j < |order| && |linked| == |order|
      reads this
    {
      && linked[j] > 0 && order[j].key >= key
      && forall i :: 0 <= i < j && linked[i] > 0 ==> order[i].key < key
    }

    /** node is the first reachable one at or after `key`. */
    ghost predicate FirstNotBefore(node: Node?, key: Key)
      requires |linked| == |order|
      reads this
    {
      if node == null then forall i :: 0 <= i < |order| && linked[i] > 0 ==> order[i].key < key
      else exists j :: 0 <= j < |order| && node == order[j] && FirstAt(j, key)
    }

    /** At level 0 the neighbours of `key` are its neighbours among all keys. */
    lemma AtLevel0(p: int, key: Key)
      requires Valid() && Just(p, 0, key)
      ensures FirstNotBefore(After(p, 0), key)
    {
      var r := FirstTall(linked, p + 1, 0);
      assert forall i :: 0 <= i < p ==> order[i].key < order[p].key;
    }

    predicate KeyIsAfterNode(key: Key, n: Node?) {
      n != null && n.key < key
    }

    /** A search stops at a level when the next node does not come before key. */
    lemma StopsHere(p: int, l: nat, key: Key)
      requires |linked| == |order| && -1 <= p < |order| && Levels(p) > l && (p >= 0 ==> order[p].key < key)
      requires !KeyIsAfterNode(key, After(p, l))
      ensures Just(p, l, key)
    {
    }

    lemma StepsOn(p: int, l: nat) returns (r: nat)
      requires |linked| == |order| && -1 <= p < |order| && After(p, l) != null
      ensures p < r < |order| && After(p, l) == At(r) && Levels(r) > l
    {
      r := FirstTall(linked, p + 1, l);
    }

    method FindGreaterOrEqual(key: Key) returns (node: Node?, prev: seq<Node>, ghost at: seq<int>)
      requires Valid()
      ensures FirstNotBefore(node, key)
      ensures Path(prev, at, 0, maxHeight, key)
    {
      hide AllLinks, Nexts, FirstNotBefore, Ascending, Heights, PathIn, JustAt, Successor, FirstTall;
      var x := head;
      ghost var p := -1;
      var level := maxHeight - 1;
      prev, at := seq(MAX_HEIGHT, l => head), seq(MAX_HEIGHT, l => -1);
      NoPathYet(head, order, linked, prev, at, maxHeight, key);
      while true
        invariant 0 <= level < maxHeight && -1 <= p < |order| && x == At(p) && Levels(p) > level
        invariant p >= 0 ==> order[p].key < key
        invariant Path(prev, at, level + 1, maxHeight, key)
        decreases level, |order| - p
      {
        LinkIs(p, level);
        var next := x.next[level];
        if KeyIsAfterNode(key, next) {
          x := next;
          p := StepsOn(p, level);
        } else {
          StopsHere(p, level, key);
          PathExtends(head, order, linked, prev, at, level, maxHeight, key, x, p);
          prev, at := prev[level := x], at[level := p];
          if level == 0 {
            AtLevel0(p, key);
            return next, prev, at;
          } else {
            level := level - 1;
          }
        }
      }
    }

    /** The node just before `key` on level 0 holds the greatest reachable key
        before it. */
    lemma BeforeIsGreatest(key: Key, p: int)
      requires Shape() && Just(p, 0, key)
      ensures p == -1 ==> forall k :: k in Keys() ==> k >= key
      ensures p >= 0 ==> order[p].key in Keys() && order[p].key < key && forall k ::
          k in Keys() ==> k <= order[p].key || k >= key
    {
      forall i | 0 <= i < |order| && linked[i] > 0 ensures i <= p || order[i].key >= key {
        var r := FirstTall(linked, p + 1, 0);
        if i > p && r < i { assert order[r].key < order[i].key; }
      }
      forall i | 0 <= i < p ensures order[i].key < order[p].key {
      }
    }

    /** x holds the greatest reachable key before `key`; the head, if there is
        none. */
    ghost predicate IsGreatestBefore(x: Node, key: Key)
      requires |linked| == |order|
      reads this, x, order
    {
      || (x == head && forall k :: k in Keys() ==> k >= key)
      || (x in order && x.key in Keys() && x.key < key && forall k :: k in Keys() ==> k <= x.key || k >= key)
    }

    method FindLessThan(key: Key) returns (x: Node)
      requires Valid()
      ensures IsGreatestBefore(x, key)
    {
      hide AllLinks, Nexts, FirstNotBefore, Ascending, Heights;
      x := head;
      ghost var p: int := -1;
      var level := maxHeight - 1;
      while true
        invariant 0 <= level < maxHeight && -1 <= p < |order| && x == At(p) && Levels(p) > level
        invariant p >= 0 ==> order[p].key < key
        decreases level, |order| - p
      {
        LinkIs(p, level);
        var next := x.next[level];
        if next == null || next.key >= key {
          if level == 0 {
            assert Just(p, 0, key);
            BeforeIsGreatest(key, p);
            return;
          } else {
            level := level - 1;
          }
        } else {
          x := next;
          p := FirstTall(linked, p + 1, level);
        }
      }
    }

    /** x holds the greatest reachable key; the head, if the list is empty. */
    ghost predicate IsGreatest(x: Node)
      requires |linked| == |order|
      reads this, x, order
    {
      (x == head && Keys() == {}) || (x in order && x.key in Keys() && forall k :: k in Keys() ==> k <= x.key)
    }

    lemma LastIsGreatest(p: int)
      requires Shape() && -1 <= p < |order| && Levels(p) > 0 && forall i :: p < i < |order| ==> linked[i] == 0
      ensures IsGreatest(At(p))
    {
      forall i | 0 <= i < |order| && linked[i] > 0 ensures p >= 0 && order[i].key <= order[p].key {
        assert i <= p;
      }
    }

    method FindLast() returns (x: Node)
      requires Valid()
      ensures IsGreatest(x)
    {
      hide AllLinks, Nexts, FirstNotBefore, Ascending, Heights;
      x := head;
      ghost var p: int := -1;
      var level := maxHeight - 1;
      while true
        invariant 0 <= level < maxHeight && -1 <= p < |order| && x == At(p) && Levels(p) > level
        decreases level, |order| - p
      {
        LinkIs(p, level);
        var next := x.next[level];
        if next == null {
          if level == 0 {
            LastIsGreatest(p);
            return;
          } else {
            level := level - 1;
          }
        } else {
          x := next;
          p := FirstTall(linked, p + 1, level);
        }
      }
    }

    // ---- insertion, one write at a time ----

    /** NewNode: nothing links to it yet, so no reader notices. */
    method Place(key: Key, height: nat, ghost k: nat) returns (x: Node)
      requires Valid() && 0 < height <= maxHeight && k <= |order| && FitsAt(order, k, key)
      modifies this`order, this`linked
      ensures Valid() && fresh(x) && x.key == key && |x.next| == height
      ensures order == old(order[..k] + [x] + order[k..]) && linked == old(linked[..k] + [0] + linked[k..])
      ensures Keys() == old(Keys()) && Grows(old(order), old(linked), order, linked)
      ensures Heights(order) == old(Heights(order)[..k] + [height] + Heights(order)[k..])
    {
      hide AllLinks, KeysOf, Grows, Nexts, Heights, Ascending, FitsAt;
      ghost var before, was, nexts, heights := order, linked, Nexts(order), Heights(order);
      x := new Node(key, height);
      order, linked := before[..k] + [x] + before[k..], was[..k] + [0] + was[k..];
      KeysPlaced(before, was, k, x);
      PlaceGrows(before, was, k, x);
      LinksPlaced(head.next, nexts, before, was, k, x, x.next);
      NextsAre(order, nexts[..k] + [x.next] + nexts[k..]);
      HeightsAre(order, heights[..k] + [height] + heights[k..]);
      AscendingPlaced(before, k, x);
      HeightsPlaced(was, heights, maxHeight, k, height);
    }

    lemma Distinct(p: int, k: nat)
      requires Shape() && -1 <= p < |order| && k < |order| && p != k
      ensures At(p) != order[k]
    {
      if p >= 0 { assert At(p).key != order[k].key; }
    }

    /** First write at a level: the new node copies the link it will replace. */
    method CopyLink(x: Node, i: nat, before: Node, ghost k: nat, ghost q: int)
      requires Valid() && k < |order| && x == order[k] && i < |x.next|
      requires LastBefore(order, linked, k, i, q) && before == At(q)
      modifies x
      ensures Valid() && |x.next| == old(|x.next|) && x.next[i] == After(k, i) && Heights(order) == old(Heights(order))
    {
      hide AllLinks, LastBefore, Successor, FirstTall, Nexts;
      ghost var nexts := Nexts(order);
      LastBeforeParts(order, linked, k, i, q);
      NextOfLast(order, linked, k, i, q);
      LinkIs(q, i);
      LinksCopied(head.next, nexts, order, linked, k, before.next[i]);
      forall p | 0 <= p < |order| && p != k ensures order[p] != x { Distinct(p, k); }
      ghost var v := before.next[i];
      x.next := x.next[i := before.next[i]];
      NextsAre(order, nexts[k := nexts[k][i := v]]);
    }

    /** Second write: readers can reach the new node at this level from now on. */
    method Publish(x: Node, i: nat, before: Node, ghost k: nat, ghost q: int)
      requires Valid() && k < |order| && x == order[k] && i < |x.next| && x.next[i] == After(k, i)
      requires LastBefore(order, linked, k, i, q) && before == At(q)
      modifies before, this`linked
      ensures Valid() && order == old(order) && linked == old(linked)[k := i + 1]
          && Heights(order) == old(Heights(order))
      ensures Keys() == old(Keys()) + {x.key} && Grows(old(order), old(linked), order, linked)
    {
      hide AllLinks, LastBefore, Successor, FirstTall, KeysOf, Grows, Nexts;
      ghost var nexts, was := Nexts(order), linked;
      LastBeforeParts(order, was, k, i, q);
      LinksPublished(head.next, nexts, order, was, k, i, q);
      KeysRaised(order, was, k, i);
      RaiseGrows(order, was, k, i);
      forall p | 0 <= p < |order| && p != q ensures order[p] != before { Distinct(q, p); }
      before.next := before.next[i := x];
      linked := was[k := i + 1];
      NextsAre(order, if q == -1 then nexts else nexts[q := nexts[q][i := x]]);
    }

    /** All levels of every node are linked: no insertion is under way. */
    ghost predicate AllLinked()
      reads this, order
    {
      linked == Heights(order) && forall i :: 0 <= i < |linked| ==> 0 < linked[i]
    }

    /** For levels lo to hi, the node after which the new key belongs. */
    ghost predicate Path(prev: seq<Node>, at: seq<int>, lo: nat, hi: nat, key: Key)
      reads this
    {
      PathIn(head, order, linked, prev, at, lo, hi, key)
    }

    method HeadAbove(prev0: seq<Node>, ghost at0: seq<int>, height: nat, key: Key)
        returns (prev: seq<Node>, ghost at: seq<int>)
      requires Valid() && Path(prev0, at0, 0, maxHeight, key) && maxHeight <= height <= MAX_HEIGHT
      ensures Path(prev, at, 0, height, key) && at[0] == at0[0]
    {
      hide AllLinks, Nexts, FirstTall, JustAt;
      prev, at := prev0, at0;
      for i := maxHeight to height
        invariant Path(prev, at, 0, i, key) && at[0] == at0[0]
      {
        HeadIsJust(order, linked, i, key);
        prev, at := prev[i := head], at[i := -1];
      }
    }

    /** The first half of Insert: the search, and room for a taller node. */
    method FindPath(key: Key, height: nat) returns (prev: seq<Node>, ghost at: seq<int>, ghost k: nat)
      requires Valid() && AllLinked() && 0 < height <= MAX_HEIGHT && key !in Keys()
      modifies `maxHeight
      ensures Valid() && height <= maxHeight && Path(prev, at, 0, height, key) && k <= |order| && FitsAt(order, k, key)
    {
      hide AllLinks, Nexts, FirstTall, JustAt, FirstNotBefore, KeysOf, FitsAt, PathIn, Ascending, Heights;
      var node;
      node, prev, at := FindGreaterOrEqual(key);
      KeysDiffer(key);
      PathParts(head, order, linked, prev, at, 0, maxHeight, key);
      FitsAfter(order, linked, at[0], key);
      k := at[0] + 1;
      if height > maxHeight {
        prev, at := HeadAbove(prev, at, height, key);
        maxHeight := height;
      } else {
        PathShorter(head, order, linked, prev, at, height, maxHeight, key);
      }
    }

    lemma KeysDiffer(key: Key)
      requires Shape() && AllLinked() && key !in Keys()
      ensures forall i :: 0 <= i < |order| ==> linked[i] > 0 && order[i].key != key
    {
    }

    /** There is one new node, on that many levels. */
    ghost predicate NewAt(before: seq<Node>, was: seq<nat>, k: nat, key: Key, height: nat)
      reads this, order
    {
      && k <= |before| && k < |order| && order[k].key == key && |order[k].next| == height
      && order == before[..k] + [order[k]] + before[k..]
      && |was| == |before| && linked == was[..k] + [height] + was[k..]
    }

    /** Between any two writes of Insert the list is valid, and readers can reach
        the old keys or these and the new one. */
    method Insert(key: Key, height: nat) returns (ghost k: nat)
      requires Valid() && AllLinked() && 0 < height <= MAX_HEIGHT && key !in Keys()
      modifies this, head, order
      ensures Valid() && AllLinked() && Keys() == old(Keys()) + {key}
      ensures Grows(old(order), old(linked), order, linked)
      ensures NewAt(old(order), old(linked), k, key, height)
    {
      hide AllLinks, Nexts, FirstTall, JustAt, LastBefore, KeysOf, Grows, FitsAt, Heights, Ascending, PathIn, HeightsOk;
      var prev;
      ghost var at;
      prev, at, k := FindPath(key, height);
      ghost var before, was := order, linked;
      var x := Place(key, height, k);
      PathPlaced(head, before, was, k, x, prev, at, height, key);
      ghost var now := linked;
      LinkAll(x, prev, height, k, at);
      GrowsTransitive(before, was, order, now, order, linked);
      NowAllLinked(was, k, height);
    }

    lemma NowAllLinked(was: seq<nat>, k: nat, height: nat)
      requires k <= |was| && (forall i :: 0 <= i < |was| ==> 0 < was[i]) && height > 0
      requires linked == (was[..k] + [0] + was[k..])[k := height] && Heights(order) == was[..k] + [height] + was[k..]
      ensures AllLinked()
    {
      hide Heights;
    }

    /** The linking loop, from the lowest level up. */
    method LinkAll(x: Node, prev: seq<Node>, height: nat, ghost k: nat, ghost at: seq<int>)
      requires Valid() && k < |order| && order[k] == x && linked[k] == 0 && 0 < height == |x.next|
          && height <= MAX_HEIGHT
      requires Path(prev, at, 0, height, x.key)
      modifies `linked, head, order
      ensures Valid() && order == old(order) && linked == old(linked)[k := height]
      ensures Keys() == old(Keys()) + {x.key} && Grows(old(order), old(linked), order, linked)
          && Heights(order) == old(Heights(order))
    {
      hide AllLinks, Nexts, FirstTall, JustAt, LastBefore, KeysOf, Grows, Heights, Ascending, PathIn;
      ghost var was := linked;
      GrowsSelf(order, was);
      for i := 0 to height
        invariant Valid() && order == old(order) && linked == was[k := i] && |x.next| == height
        invariant Path(prev, at, i, height, x.key)
        invariant Keys() == if i == 0 then old(Keys()) else old(Keys()) + {x.key}
        invariant Grows(order, was, order, linked) && Heights(order) == old(Heights(order))
      {
        ghost var now := linked;
        LinkLevel(x, i, prev, height, k, at);
        GrowsTransitive(order, was, order, now, order, linked);
      }
    }

    /** One round of the linking loop. */
    method LinkLevel(x: Node, i: nat, prev: seq<Node>, ghost height: nat, ghost k: nat, ghost at: seq<int>)
      requires Valid() && k < |order| && order[k] == x && linked[k] == i < height == |x.next| && height <= MAX_HEIGHT
      requires Path(prev, at, i, height, x.key)
      modifies `linked, head, order
      ensures Valid() && order == old(order) && linked == old(linked)[k := i + 1]
      ensures Path(prev, at, i + 1, height, x.key) && |x.next| == height
      ensures Keys() == old(Keys()) + {x.key} && Grows(old(order), old(linked), order, linked)
          && Heights(order) == old(Heights(order))
    {
      hide AllLinks, Nexts, FirstTall, JustAt, LastBefore, KeysOf, Grows, Heights, Successor;
      PathParts(head, order, linked, prev, at, i, height, x.key);
      PrevIsLast(order, linked, k, i, at[i]);
      PathRaised(head, order, linked, k, prev, at, i, height, x.key);
      CopyLink(x, i, prev[i], k, at[i]);
      Publish(x, i, prev[i], k, at[i]);
    }

    /** What a search finds is the answer on the plain set of reachable keys. */
    lemma FoundIsAnswer(key: Key, node: Node?)
      requires Shape() && FirstNotBefore(node, key)
      ensures IsAnswer(Keys(), AtOrAfter(key), node)
    {
      if node != null {
        var j :| 0 <= j < |order| && node == order[j] && FirstAt(j, key);
        forall i | 0 <= i < |order| && linked[i] > 0 ensures order[i].key < key || order[i].key >= node.key {
          if i > j { assert order[j].key < order[i].key; }
        }
      }
    }

    /** Where the other two searches stop is their answer; none if it is the head. */
    lemma StoppedIsAnswer(query: Query, p: int)
      requires Shape() && !query.AtOrAfter? && -1 <= p < |order| && Levels(p) > 0
      requires p >= 0 ==> query.Passes(order[p].key)
      requires After(p, 0) == null || !query.Passes(After(p, 0).key)
      ensures IsAnswer(Keys(), query, if At(p) == head then null else At(p))
    {
      hide Heights, HeightsOk;
      assert At(p) == head <==> p == -1;
      if query.Before? {
        BeforeIsGreatest(query.key, p);
      } else {
        LastIsGreatest(p);
      }
    }
  }

  // ---- a reader that runs between the writes ----

  /** FindGreaterOrEqual (with no prev), FindLessThan or FindLast, one step at a
      time: first it reads head and maxHeight, then one link a step. */
  class Search {
    const list: SkipList
    const query: Query
    var started: bool
    var x: Node
    var level: nat
    var done: bool
    var node: Node?
    // The reachable keys when the search began, and when it ended.
    ghost var atStart: set<Key>
    ghost var atEnd: set<Key>

    /** x is in the list, linked at the level being searched, and to be passed. */
    ghost predicate Valid()
      reads this, list, list.head, list.order
    {
      && list.Shape() && (done ==> started)
      && (started && !done ==> OnTheWay(list.head, list.order, list.linked, x, level, query) && atStart <= list.Keys())
      && (done ==> atStart <= atEnd && IsAnswer(atEnd, query, node))
    }

    constructor (l: SkipList, q: Query)
      requires l.Valid()
      ensures Valid() && list == l && query == q && !started && !done
    {
      list, query, started, x, level, done, node := l, q, false, l.head, 0, false, null;
      atStart, atEnd := {}, {};
    }

    method Step()
      requires Valid() && list.Valid() && !done
      modifies this
      ensures Valid() && started
      ensures if old(started) then atStart == old(atStart) else atStart == list.Keys()
      ensures done ==> atEnd == list.Keys()
    {
      hide AllLinks, Nexts, Ascending, Heights, OnTheWay, IsAnswer, KeysOf;
      if !started {
        started, x, level := true, list.head, list.maxHeight - 1;
        atStart := list.Keys();
        FromHead(list.head, list.order, list.linked, level, query);
      } else {
        ReadLink();
      }
    }

    method ReadLink()
      requires Valid() && list.Valid() && started && !done
      modifies `x, `level, `done, `node, `atEnd
      ensures Valid() && (done ==> atEnd == list.Keys())
    {
      hide AllLinks, Nexts, Ascending, Heights, Successor, FirstTall, JustAt, SkipList.FirstNotBefore, KeysOf, IsAnswer;
      ghost var p :| StandsAt(list.head, list.order, list.linked, x, level, query, p);
      list.LinkIs(p, level);
      var next := x.next[level];
      if next != null && query.Passes(next.key) {
        ghost var r := list.StepsOn(p, level);
        x := next;
        assert StandsAt(list.head, list.order, list.linked, x, level, query, r);
      } else if level > 0 {
        level := level - 1;
        assert StandsAt(list.head, list.order, list.linked, x, level, query, p);
      } else if query.AtOrAfter? {
        list.StopsHere(p, level, query.key);
        list.AtLevel0(p, query.key);
        node, done, atEnd := next, true, list.Keys();
        list.FoundIsAnswer(query.key, node);
      } else {
        node, done, atEnd := if x == list.head then null else x, true, list.Keys();
        list.StoppedIsAnswer(query, p);
      }
    }
  }

  lemma FromHead(head: Node, order: seq<Node>, linked: seq<nat>, level: nat, query: Query)
    requires |linked| == |order| && level < MAX_HEIGHT
    ensures OnTheWay(head, order, linked, head, level, query)
  {
    assert StandsAt(head, order, linked, head, level, query, -1);
  }

  /** The search began and ended when one of the two key sets was reachable. */
  ghost predicate Between(s: Search, before: set<Key>, now: set<Key>)
    reads s
  {
    && (s.started ==> s.atStart == before || s.atStart == now)
    && (s.done ==> s.atEnd == before || s.atEnd == now)
  }

  /** Any number of steps with no write in between. */
  method Run(s: Search, turns: nat, ghost before: set<Key>)
    requires s.Valid() && s.list.Valid() && Between(s, before, s.list.Keys())
    modifies s
    ensures s.Valid() && Between(s, before, s.list.Keys())
  {
    hide IsAnswer, AllLinks, Nexts, Ascending, Heights, OnTheWay, KeysOf;
    var n := 0;
    while n < turns && !s.done
      invariant s.Valid() && Between(s, before, s.list.Keys())
    {
      s.Step();
      n := n + 1;
    }
  }

  /** Insert and a search, interleaved write by write and read by read in any way
      (`turns` steps of the search before each write; it may also begin between
      two writes).  When it has ended, its answer is right for the keys that were
      reachable at its end: those before the insertion or those after it, and
      the latter if it began after the new node could be reached. */
  method InsertWhileSearching(list: SkipList, key: Key, height: nat, s: Search, turns: nat -> nat)
      returns (ghost k: nat)
    requires list.Valid() && list.AllLinked() && 0 < height <= MAX_HEIGHT && key !in list.Keys()
    requires s.list == list && s.Valid() && Between(s, list.Keys(), list.Keys())
    modifies list, list.head, list.order, s
    ensures list.Valid() && list.AllLinked() && list.Keys() == old(list.Keys()) + {key}
    ensures Grows(old(list.order), old(list.linked), list.order, list.linked)
    ensures list.NewAt(old(list.order), old(list.linked), k, key, height)
    ensures s.Valid() && Between(s, old(list.Keys()), list.Keys())
    ensures s.done ==> s.atStart <= s.atEnd && IsAnswer(s.atEnd, s.query, s.node)
  {
    hide IsAnswer, AllLinks, Nexts, Ascending, Heights, KeysOf, JustAt, FirstTall, LastBefore, Grows, FitsAt, PathIn,
        OnTheWay,
         HeightsOk, Successor;
    ghost var keys, before, was := list.Keys(), list.order, list.linked;
    var x, prev;
    ghost var at;
    x, prev, k, at := PlaceWhileSearching(list, key, height, s, turns(0), turns(1));
    ghost var order, now := list.order, list.linked;
    LinkAllWhileSearching(list, x, prev, height, k, at, s, turns, keys);
    GrowsTransitive(before, was, order, now, list.order, list.linked);
    list.NowAllLinked(was, k, height);
  }

  /** The search and the new node, before anything links to it. */
  method PlaceWhileSearching(list: SkipList, key: Key, height: nat, s: Search, first: nat, second: nat)
    returns (x: Node, prev: seq<Node>, ghost k: nat, ghost at: seq<int>)
    requires list.Valid() && list.AllLinked() && 0 < height <= MAX_HEIGHT && key !in list.Keys()
    requires s.list == list && s.Valid() && Between(s, list.Keys(), list.Keys())
    modifies list, s
    ensures list.Valid() && fresh(x) && x.key == key && |x.next| == height && k <= |old(list.order)|
    ensures list.order == old(list.order[..k] + [x] + list.order[k..])
        && list.linked == old(list.linked[..k] + [0] + list.linked[k..])
    ensures Heights(list.order) == old(list.linked[..k] + [height] + list.linked[k..])
    ensures list.Path(prev, at, 0, height, key) && list.Keys() == old(list.Keys())
    ensures Grows(old(list.order), old(list.linked), list.order, list.linked)
    ensures s.Valid() && Between(s, list.Keys(), list.Keys())
  {
    hide IsAnswer, AllLinks, Nexts, Ascending, Heights, KeysOf, JustAt, FirstTall, LastBefore, Grows, FitsAt, PathIn,
        OnTheWay,
         HeightsOk, Successor;
    ghost var keys := list.Keys();
    Run(s, first, keys);
    prev, at, k := list.FindPath(key, height);
    Run(s, second, keys);
    ghost var before, was := list.order, list.linked;
    x := list.Place(key, height, k);
    PathPlaced(list.head, before, was, k, x, prev, at, height, key);
    StillSearching(s, before, was, keys);
  }

  method LinkAllWhileSearching(list: SkipList, x: Node, prev: seq<Node>, height: nat, ghost k: nat, ghost at: seq<int>,
                               s: Search, turns: nat -> nat, ghost keys: set<Key>)
    requires list.Valid() && k < |list.order| && list.order[k] == x && list.linked[k] == 0
    requires 0 < height == |x.next| && height <= MAX_HEIGHT
    requires list.Path(prev, at, 0, height, x.key) && list.Keys() == keys
    requires s.list == list && s.Valid() && Between(s, keys, keys)
    modifies list`linked, list.head, list.order, s
    ensures list.Valid() && list.order == old(list.order) && list.linked == old(list.linked)[k := height]
    ensures list.Keys() == keys + {x.key} && Heights(list.order) == old(Heights(list.order))
    ensures Grows(old(list.order), old(list.linked), list.order, list.linked)
    ensures s.Valid() && Between(s, keys, keys + {x.key})
  {
    hide IsAnswer, AllLinks, Nexts, Ascending, Heights, KeysOf, JustAt, FirstTall, LastBefore, Grows, PathIn, OnTheWay,
        Successor;
    ghost var was := list.linked;
    GrowsSelf(list.order, was);
    for i := 0 to height
      invariant list.Valid() && list.order == old(list.order) && list.linked == was[k := i] && |x.next| == height
      invariant list.Path(prev, at, i, height, x.key)
      invariant list.Keys() == if i == 0 then keys else keys + {x.key}
      invariant Grows(list.order, was, list.order, list.linked) && Heights(list.order) == old(Heights(list.order))
      invariant s.Valid() && Between(s, keys, list.Keys())
    {
      ghost var now := list.linked;
      LinkWhileSearching(list, x, i, prev, height, k, at, s, turns(2 * i + 2), turns(2 * i + 3), keys);
      GrowsTransitive(list.order, was, list.order, now, list.order, list.linked);
    }
    Run(s, turns(2 * height + 2), keys);
  }

  /** One round of the linking loop, with the search running before and between
      its two writes. */
  method LinkWhileSearching(list: SkipList, x: Node, i: nat, prev: seq<Node>, ghost height: nat, ghost k: nat,
      ghost at: seq<int>,
                            s: Search, first: nat, second: nat, ghost keys: set<Key>)
    requires list.Valid() && s.list == list && s.Valid() && Between(s, keys, list.Keys())
    requires list.Keys() == keys || list.Keys() == keys + {x.key}
    requires k < |list.order| && list.order[k] == x && list.linked[k] == i < height == |x.next| && height <= MAX_HEIGHT
    requires list.Path(prev, at, i, height, x.key)
    modifies list`linked, list.head, list.order, s
    ensures list.Valid() && list.order == old(list.order) && list.linked == old(list.linked)[k := i + 1]
    ensures list.Path(prev, at, i + 1, height, x.key) && |x.next| == height
    ensures list.Keys() == keys + {x.key} && Heights(list.order) == old(Heights(list.order))
    ensures Grows(old(list.order), old(list.linked), list.order, list.linked)
    ensures s.Valid() && Between(s, keys, list.Keys())
  {
    hide IsAnswer, AllLinks, Nexts, Ascending, Heights, KeysOf, JustAt, FirstTall, LastBefore, Grows, PathIn, OnTheWay,
        Successor;
    var key := x.key;
    PathParts(list.head, list.order, list.linked, prev, at, i, height, key);
    PrevIsLast(list.order, list.linked, k, i, at[i]);
    PathRaised(list.head, list.order, list.linked, k, prev, at, i, height, key);
    Run(s, first, keys);
    list.CopyLink(x, i, prev[i], k, at[i]);
    Run(s, second, keys);
    ghost var order, linked, reachable := list.order, list.linked, list.Keys();
    list.Publish(x, i, prev[i], k, at[i]);
    StillSearching(s, order, linked, reachable);
  }

  lemma StillSearching(s: Search, order: seq<Node>, linked: seq<nat>, keys: set<Key>)
    requires s.list.Shape() && |linked| == |order| && Grows(order, linked, s.list.order, s.list.linked)
    requires s.started && !s.done ==>
        OnTheWay(s.list.head, order, linked, s.x, s.level, s.query) && s.atStart <= keys <= s.list.Keys()
    requires s.done ==> s.started && s.atStart <= s.atEnd && IsAnswer(s.atEnd, s.query, s.node)
    ensures s.Valid()
  {
    hide Grows, OnTheWay, IsAnswer;
    if s.started && !s.done {
      StillOnTheWay(s.list.head, order, linked, s.list.order, s.list.linked, s.x, s.level, s.query);
    }
  }

  ghost predicate StandsAt(head: Node, order: seq<Node>, linked: seq<nat>, x: Node, level: nat, query: Query, p: int)
    requires |linked| == |order|
  {
    -1 <= p < |order| && x == NodeOf(head, order, p) && LevelsOf(linked, p) > level && (p >= 0 ==> query.Passes(x.key))
  }

  ghost predicate OnTheWay(head: Node, order: seq<Node>, linked: seq<nat>, x: Node, level: nat, query: Query)
    requires |linked| == |order|
  {
    exists p :: StandsAt(head, order, linked, x, level, query, p)
  }

  /** A search under way is not disturbed by what a writer does. */
  lemma StillOnTheWay(head: Node, order: seq<Node>, linked: seq<nat>, order2: seq<Node>, linked2: seq<nat>, x: Node,
      level: nat, query: Query)
    requires |linked| == |order| && |linked2| == |order2|
    requires OnTheWay(head, order, linked, x, level, query) && Grows(order, linked, order2, linked2)
    ensures OnTheWay(head, order2, linked2, x, level, query)
  {
    var p :| StandsAt(head, order, linked, x, level, query, p);
    if p == -1 {
      assert StandsAt(head, order2, linked2, x, level, query, -1);
    } else {
      assert StillThere(order[p], linked[p], order2, linked2);
      var j :| 0 <= j < |order2| && order2[j] == order[p] && linked2[j] >= linked[p];
      assert StandsAt(head, order2, linked2, x, level, query, j);
    }
  }

  ghost function Heights(order: seq<Node>): (r: seq<nat>)
    reads order
    ensures |r| == |order| && forall i :: 0 <= i < |order| ==> r[i] == |order[i].next|
  {
    if order == [] then [] else Heights(order[..|order| - 1]) + [|order[|order| - 1].next|]
  }

  lemma HeightsAre(order: seq<Node>, hs: seq<nat>)
    requires |hs| == |order| && forall i :: 0 <= i < |order| ==> hs[i] == |order[i].next|
    ensures Heights(order) == hs
  {
  }

  lemma NextsAre(order: seq<Node>, ns: seq<seq<Node?>>)
    requires |ns| == |order| && forall i :: 0 <= i < |order| ==> ns[i] == order[i].next
    ensures Nexts(order) == ns
  {
  }

  lemma LastBeforeParts(order: seq<Node>, linked: seq<nat>, k: nat, i: nat, q: int)
    requires |linked| == |order| && k < |order| && LastBefore(order, linked, k, i, q)
    ensures linked[k] == i < MAX_HEIGHT && -1 <= q < k && LevelsOf(linked, q) > i
  {
  }
}
