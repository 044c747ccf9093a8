/** What mdb_freelist_save does to the freeDB is the step that the page-lifetime protocol takes at that point. */
module SaveRefines {
  import opened Idl
  import FreelistSave
  import Mvcc

  function Ids(s: seq<Id>): set<nat> { set x: nat | x in s }

  /** The records with keys up to pglast, as sets of pages. */
  ghost function Reserved(db: FreelistSave.Db, pglast: nat): map<nat, set<nat>> {
    map k | k in db && k <= pglast :: Ids(db[k].ids)
  }

  ghost function Later(db: FreelistSave.Db, pglast: nat): map<nat, set<nat>> {
    map k | k in db && pglast < k :: Ids(db[k].ids)
  }

  ghost function AsSets(db: FreelistSave.Db): map<nat, set<nat>> { map k | k in db :: Ids(db[k].ids) }

  function Own(txnid: nat, free: seq<Id>): map<nat, set<nat>> { if free == [] then map[] else map[txnid := Ids(free)] }

  lemma ReservedRest(db: FreelistSave.Db, pghead: seq<Id>, pglast: nat)
    requires FreelistSave.Stored(db, 1, pglast) == pghead && forall k :: k in db ==> 1 <= k
    ensures Mvcc.Rest(Reserved(db, pglast), 0) == Ids(pghead)
  {
    var recs := Reserved(db, pglast);
    forall x: nat | x in pghead ensures x in Mvcc.Rest(recs, 0) {
      var k := FreelistSave.StoredSome(db, 1, pglast, x);
      assert k in recs && x in recs[k];
    }
    forall x | x in Mvcc.Rest(recs, 0) ensures x in Ids(pghead) {
      var k :| k in recs && 0 < k && x in recs[k];
      FreelistSave.StoredIn(db, 1, pglast, k, x);
    }
  }

  lemma ReservedDisjoint(db: FreelistSave.Db, pghead: seq<Id>, pglast: nat)
    requires FreelistSave.Stored(db, 1, pglast) == pghead && forall k :: k in db ==> 1 <= k
    requires forall x: Id :: multiset(pghead)[x] <= 1
    ensures Mvcc.DisjointRecords(Reserved(db, pglast))
  {
    var recs := Reserved(db, pglast);
    forall j, k | j in recs && k in recs && j != k ensures recs[j] !! recs[k] {
      forall x | x in recs[j] ensures x !in recs[k] {
        if x in recs[k] { FreelistSave.InTwo(db, pglast, if j < k then j else k, if j < k then k else j, pghead, x); }
      }
    }
  }

  lemma SavedSets(db0: FreelistSave.Db, db: FreelistSave.Db, pglast: nat, free: seq<Id>, txnid: nat)
    requires FreelistSave.Above(db0, db, pglast, txnid) && pglast < txnid
    requires txnid !in db0 && if free == [] then txnid !in db else txnid in db && db[txnid].ids == free
    ensures AsSets(db) == Later(db0, pglast) + Reserved(db, pglast) + Own(txnid, free)
  {
    var all := Later(db0, pglast) + Reserved(db, pglast) + Own(txnid, free);
    forall k ensures k in AsSets(db) <==> k in all {
    }
    forall k | k in AsSets(db) ensures AsSets(db)[k] == all[k] {
    }
  }

  /**
   * What FreelistSave.Txn.Save leaves, from a freeDB db0, is the result of Mvcc.SaveFreelistStep by a writer with these
   * lists: later records as they were, me_pghead spread over disjoint records with keys in 1..me_pglast, and mt_free_pgs,
   * unless it is empty, under the transaction's own key.
   */
  lemma SaveIsStep(db0: FreelistSave.Db, db: FreelistSave.Db, pghead: seq<Id>, free: seq<Id>, w: Mvcc.Writer)
    requires w.freedb == AsSets(db0) && w.head == Ids(pghead) && w.freed == Ids(free) && w.pglast < w.id
    requires FreelistSave.Stored(db, 1, w.pglast) == pghead && FreelistSave.Above(db0, db, w.pglast, w.id)
    requires w.id !in db0 && if free == [] then w.id !in db else w.id in db && db[w.id].ids == free
    requires (forall k :: k in db ==> 1 <= k) && forall x: Id :: multiset(pghead)[x] <= 1
    ensures var recs := Reserved(db, w.pglast);
      && (forall k :: k in recs ==> 1 <= k <= w.pglast) && Mvcc.DisjointRecords(recs) && Mvcc.Rest(recs, 0) == w.head
      && Mvcc.SavedRecords(w, recs) == AsSets(db)
  {
    ReservedRest(db, pghead, w.pglast);
    ReservedDisjoint(db, pghead, w.pglast);
    SavedSets(db0, db, w.pglast, free, w.id);
    SameRecords(db0, free, w, Reserved(db, w.pglast));
  }

  lemma SameRecords(db0: FreelistSave.Db, free: seq<Id>, w: Mvcc.Writer, recs: map<nat, set<nat>>)
    requires w.freedb == AsSets(db0) && w.freed == Ids(free)
    ensures Mvcc.SavedRecords(w, recs) == Later(db0, w.pglast) + recs + Own(w.id, free)
  {
    SameLater(db0, w);
    assert free != [] ==> free[0] in Ids(free);
    assert Mvcc.OwnRecord(w) == Own(w.id, free);
  }

  lemma SameLater(db0: FreelistSave.Db, w: Mvcc.Writer)
    requires w.freedb == AsSets(db0)
    ensures (map k | k in w.freedb && w.pglast < k :: w.freedb[k]) == Later(db0, w.pglast)
  {
  }
}
