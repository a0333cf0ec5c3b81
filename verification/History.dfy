/** The meaning of the database: a plain map changed by a list of operations.
    Operation number n carries sequence number n. */
module History {
  import opened InternalKeys
  import opened Versions

  datatype Op = Op(user: UserKey, kind: ValueType, value: string)

  type Store = map<UserKey, string>

  function ApplyOp(m: Store, op: Op): Store {
    match op.kind
    case TypeValue => m[op.user := op.value]
    case TypeDeletion => m - {op.user}
  }

  function Replay(ops: seq<Op>): Store {
    if ops == [] then map[] else ApplyOp(Replay(ops[..|ops| - 1]), ops[|ops| - 1])
  }

  function Lookup(m: Store, user: UserKey): GetResult {
    if user in m then Found(m[user]) else NotFound
  }

  /** What a reader at snapshot s must see. */
  function ReadAt(ops: seq<Op>, s: nat, user: UserKey): GetResult
    requires s <= |ops|
  {
    Lookup(Replay(ops[..s]), user)
  }

  /** Number of the last operation on `user` among the first s, 0 if none. */
  function LastWrite(ops: seq<Op>, user: UserKey, s: nat): (q: nat)
    requires s <= |ops|
    ensures q <= s
    ensures q > 0 ==> ops[q - 1].user == user
    ensures forall i :: q <= i < s ==> ops[i].user != user
  {
    if s == 0 || ops[s - 1].user == user then s else LastWrite(ops, user, s - 1)
  }

  function ResultOf(op: Op): GetResult {
    if op.kind.TypeValue? then Found(op.value) else NotFound
  }

  /** Only the last write of a key matters for what a reader sees. */
  lemma {:induction false} LastWriteDecides(ops: seq<Op>, user: UserKey, s: nat)
    requires s <= |ops|
    ensures var q := LastWrite(ops, user, s);
      ReadAt(ops, s, user) == if q == 0 then NotFound else ResultOf(ops[q - 1])
  {
    if s > 0 {
      assert ops[..s][..s - 1] == ops[..s - 1];
      if ops[s - 1].user != user {
        LastWriteDecides(ops, user, s - 1);
      }
    }
  }

  lemma LastWriteUnique(ops: seq<Op>, user: UserKey, s: nat, q: nat)
    requires 0 < q <= s <= |ops| && ops[q - 1].user == user
    requires forall i :: q <= i < s ==> ops[i].user != user
    ensures LastWrite(ops, user, s) == q
  {
  }

  lemma {:induction false} LastWriteOfPrefix(ops: seq<Op>, more: seq<Op>, user: UserKey, s: nat)
    requires s <= |ops|
    ensures LastWrite(ops + more, user, s) == LastWrite(ops, user, s)
    ensures ReadAt(ops + more, s, user) == ReadAt(ops, s, user)
  {
    assert (ops + more)[..s] == ops[..s];
    if s > 0 {
      LastWriteOfPrefix(ops, more, user, s - 1);
    }
  }

  function EntryOf(ops: seq<Op>, q: nat): Entry
    requires 0 < q <= |ops| <= MAX_SEQUENCE_NUMBER
  {
    Entry(InternalKey(ops[q - 1].user, q, ops[q - 1].kind), ops[q - 1].value)
  }

  ghost predicate FromHistory(ops: seq<Op>, e: Entry)
    requires |ops| <= MAX_SEQUENCE_NUMBER
  {
    0 < e.key.sqn <= |ops| && e == EntryOf(ops, e.key.sqn)
  }
}
