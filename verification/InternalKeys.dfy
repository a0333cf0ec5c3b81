/** Internal keys: the order in which every memtable, table file and iterator
    keeps the versions of the user keys.

    The user comparator is any total order on byte strings.  A countable total
    order embeds into the rationals, so a user key is represented by its
    position in that order; nothing below looks inside a key. */
module InternalKeys {

  type UserKey = real

  datatype ValueType = TypeDeletion | TypeValue {
    function Code(): nat {
      match this
      case TypeDeletion => 0
      case TypeValue => 1
    }
  }

  // The type that sorts first among equal sequence numbers.
  const VALUE_TYPE_FOR_SEEK := TypeValue

  const MAX_SEQUENCE_NUMBER: nat := 0xff_ffff_ffff_ffff

  // Sequence numbers leave the low byte of the trailer to the type.
  type SequenceNumber = n: nat | n <= MAX_SEQUENCE_NUMBER

  datatype InternalKey = InternalKey(user: UserKey, sqn: SequenceNumber, kind: ValueType)

  /** The 64-bit trailer of an encoded internal key. */
  function PackSequenceAndType(sqn: SequenceNumber, t: ValueType): nat {
    256 * sqn + t.Code()
  }

  /** InternalKeyComparator::Compare: user key up, packed trailer down. */
  function Compare(a: InternalKey, b: InternalKey): int {
    if a.user < b.user then -1
    else if a.user > b.user then 1
    else
      var anum := PackSequenceAndType(a.sqn, a.kind);
      var bnum := PackSequenceAndType(b.sqn, b.kind);
      if anum > bnum then -1 else if anum < bnum then 1 else 0
  }

  /** The same order, spelled out component by component. */
  predicate Less(a: InternalKey, b: InternalKey) {
    || a.user < b.user
    || (a.user == b.user && (a.sqn > b.sqn || (a.sqn == b.sqn && a.kind.TypeValue? && b.kind.TypeDeletion?)))
  }

  predicate AtMost(a: InternalKey, b: InternalKey) {
    !Less(b, a)
  }

  /** Packing the type below the sequence number makes the integer comparison
      of trailers the lexicographic order, so no two internal keys collide. */
  lemma CompareIsLexicographic(a: InternalKey, b: InternalKey)
    ensures Compare(a, b) < 0 <==> Less(a, b)
    ensures Compare(a, b) > 0 <==> Less(b, a)
    ensures Compare(a, b) == 0 <==> a == b
  {
    match (a.kind, b.kind)
    case (TypeDeletion, TypeDeletion) =>
    case (TypeDeletion, TypeValue) =>
    case (TypeValue, TypeDeletion) =>
    case (TypeValue, TypeValue) =>
  }

  /** The key LookupKey builds: it sorts before every version of `user` that
      `snapshot` can see and after every newer one. */
  function LookupKey(user: UserKey, snapshot: SequenceNumber): InternalKey {
    InternalKey(user, snapshot, VALUE_TYPE_FOR_SEEK)
  }

  /** A stored version of a user key.  The value of a deletion is empty. */
  datatype Entry = Entry(key: InternalKey, value: string)

  predicate Sorted(es: seq<Entry>) {
    forall i, j :: 0 <= i < j < |es| ==> Less(es[i].key, es[j].key)
  }

  /** Index of the first entry at or after `target`, |es| if there is none:
      where every iterator's Seek lands. */
  function SeekIndex(es: seq<Entry>, target: InternalKey): (i: nat)
    ensures i <= |es|
    ensures forall j :: 0 <= j < i ==> Less(es[j].key, target)
    ensures i < |es| ==> AtMost(target, es[i].key)
  {
    if |es| == 0 || AtMost(target, es[0].key) then 0 else 1 + SeekIndex(es[1..], target)
  }

  /** Seeking a lookup key lands on the newest visible version of the user key,
      or on another user key when there is none. */
  lemma SeekFindsNewest(es: seq<Entry>, user: UserKey, snapshot: SequenceNumber)
    requires Sorted(es)
    ensures var i := SeekIndex(es, LookupKey(user, snapshot));
      if i < |es| && es[i].key.user == user then
        es[i].key.sqn <= snapshot &&
        forall e :: e in es && e.key.user == user && e.key.sqn <= snapshot ==> e.key.sqn <= es[i].key.sqn
      else
        forall e :: e in es && e.key.user == user ==> e.key.sqn > snapshot
  {
    var t := LookupKey(user, snapshot);
    var i := SeekIndex(es, t);
    forall e | e in es && e.key.user == user && e.key.sqn <= snapshot
      ensures i < |es| && es[i].key.user == user && e.key.sqn <= es[i].key.sqn
    {
      var j :| 0 <= j < |es| && es[j] == e;
      assert !Less(e.key, t);
      assert j >= i;
    }
  }
}
