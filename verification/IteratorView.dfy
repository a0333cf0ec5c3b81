/** The iterator over a database shows the plain map that the operations made. */
module IteratorView {
  import opened InternalKeys
  import opened Versions
  import opened History
  import opened LsmState
  import opened DbIter

  /** es is what the internal iterator of `db` runs over: every stored version,
      each once, in internal key order. */
  ghost predicate StreamOf(db: Db, es: seq<Entry>) {
    Sorted(es) && forall e :: e in es <==> Holds(db, e)
  }

  /** Entry i yields for `user` exactly when it is the newest visible version
      held, and a value. */
  lemma YieldIsNewest(db: Db, es: seq<Entry>, s: SequenceNumber, i: int)
    requires StreamOf(db, es) && Yield(es, s, i)
    ensures NewestHeld(db, es[i].key.user, s, es[i])
  {
    forall f | Holds(db, f) && Visible(f, es[i].key.user, s)
      ensures f.key.sqn <= es[i].key.sqn
    {
      assert f in es;
      var j :| 0 <= j < |es| && es[j] == f;
      assert j >= i;
    }
  }

  lemma NewestYields(db: Db, es: seq<Entry>, user: UserKey, s: SequenceNumber, e: Entry)
    requires StreamOf(db, es) && NewestHeld(db, user, s, e) && e.key.kind.TypeValue?
    ensures exists i :: Yield(es, s, i) && es[i] == e
  {
    assert e in es;
    var i :| 0 <= i < |es| && es[i] == e;
    forall j | 0 <= j < i && es[j].key.user == user ensures es[j].key.sqn > s {
      assert es[j] in es;
      assert Less(es[j].key, es[i].key);
    }
    assert Yield(es, s, i);
  }

  /** The live keys a database iterator moves over, with their values, are the
      contents of the map after the first s operations. */
  lemma IteratorShowsHistory(db: Db, es: seq<Entry>, s: SequenceNumber)
    requires Shape(db) && ReadsRight(db) && db.floor <= s <= |db.ops| && StreamOf(db, es)
    ensures View(es, s) == Replay(db.ops[..s])
  {
    hide Shape, Replay, View;
    HistoryFits(db);
    ViewIsYields(es, s);
    forall user: UserKey
      ensures user in View(es, s) <==> user in Replay(db.ops[..s])
      ensures user in View(es, s) ==> View(es, s)[user] == Replay(db.ops[..s])[user]
    {
      assert Reads(db, user, s, ReadAt(db.ops, s, user));
      if user in View(es, s) {
        var i :| Yield(es, s, i) && es[i].key.user == user;
        YieldIsNewest(db, es, s, i);
        assert Reads(db, user, s, Found(es[i].value));
        OneAnswer(db, user, s, Found(es[i].value));
      } else if user in Replay(db.ops[..s]) {
        var e :| NewestHeld(db, user, s, e) && Found(Replay(db.ops[..s])[user]) == Answer(e);
        NewestYields(db, es, user, s, e);
      }
    }
  }

  lemma OneAnswer(db: Db, user: UserKey, s: SequenceNumber, r: GetResult)
    requires Shape(db) && ReadsRight(db) && db.floor <= s <= |db.ops| && Reads(db, user, s, r)
    ensures ReadAt(db.ops, s, user) == r
  {
    ReadsIsFunctional(db, user, s, ReadAt(db.ops, s, user), r);
  }
}
