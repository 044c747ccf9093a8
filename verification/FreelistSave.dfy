/** mdb_freelist_save: the page lists of a committing transaction become records of the freeDB. */
module FreelistSave {
  import opened Idl
  import Spill
  import IdlSort

  /** A freeDB record with space for room ids, of which the first |ids| are set. */
  datatype Record = Record(room: nat, ids: seq<Id>)

  /**
   * What one operation on the freeDB does to the lists besides its own work, by touching, allocating and freeing
   * pages: me_pghead becomes any list, me_pglast moves to a later record, mt_free_pgs grows.
   */
  datatype Change = Change(pghead: seq<Id>, pglast: nat, freed: seq<Id>)

  type Db = map<nat, Record>

  function Freed(changes: seq<Change>): seq<Id> {
    if |changes| == 0 then [] else changes[0].freed + Freed(changes[1..])
  }

  // ---------------------------------------------------------------- records below me_pglast

  function RoomAt(db: Db, k: nat): nat { if k in db then db[k].room else 0 }

  function IdsAt(db: Db, k: nat): seq<Id> { if k in db then db[k].ids else [] }

  /** Space in the records with keys from lo to hi. */
  function RoomSum(db: Db, lo: nat, hi: nat): nat {
    if hi < lo then 0 else if hi == 0 then RoomAt(db, 0) else RoomSum(db, lo, hi - 1) + RoomAt(db, hi)
  }

  /** The ids in the records with keys from hi down to lo. */
  function Stored(db: Db, lo: nat, hi: nat): seq<Id> {
    if hi < lo then [] else if hi == 0 then IdsAt(db, 0) else IdsAt(db, hi) + Stored(db, lo, hi - 1)
  }

  lemma {:induction false} SameRoom(db: Db, other: Db, lo: nat, hi: nat)
    requires forall k :: lo <= k <= hi ==> RoomAt(db, k) == RoomAt(other, k)
    ensures RoomSum(db, lo, hi) == RoomSum(other, lo, hi)
    decreases hi
  {
    if lo <= hi && hi > 0 { SameRoom(db, other, lo, hi - 1); }
  }

  /** Changing the lowest record. */
  lemma {:induction false} LowestRoom(db: Db, lo: nat, hi: nat)
    requires lo <= hi
    ensures RoomSum(db, lo, hi) == RoomAt(db, lo) + RoomSum(db, lo + 1, hi)
    decreases hi
  {
    if lo < hi { LowestRoom(db, lo, hi - 1); }
  }

  lemma {:induction false} SameStored(db: Db, other: Db, lo: nat, hi: nat)
    requires forall k :: lo <= k <= hi ==> IdsAt(db, k) == IdsAt(other, k)
    ensures Stored(db, lo, hi) == Stored(other, lo, hi)
    decreases hi
  {
    if lo <= hi && hi > 0 { SameStored(db, other, lo, hi - 1); }
  }

  lemma {:induction false} StoredEmpty(db: Db, lo: nat, hi: nat)
    requires forall k :: lo <= k <= hi ==> IdsAt(db, k) == []
    ensures Stored(db, lo, hi) == []
    decreases hi
  {
    if lo <= hi && hi > 0 { StoredEmpty(db, lo, hi - 1); }
  }

  lemma {:induction false} StoredSplit(db: Db, lo: nat, mid: nat, hi: nat)
    requires lo <= mid <= hi + 1
    ensures Stored(db, lo, hi) == Stored(db, mid, hi) + (if mid == 0 then [] else Stored(db, lo, mid - 1))
    decreases hi
  {
    if mid <= hi && hi > 0 { StoredSplit(db, lo, mid, hi - 1); }
  }

  /**
   * What the loop has reserved: the records with keys up to pl are empty, they are exactly those from head on,
   * and their sizes add up to total; head itself may still be missing, with no room.
   */
  ghost predicate Reserved(db: Db, pl: nat, head: nat, headRoom: nat, total: nat) {
    && (pl == 0 ==> head == 0 && headRoom == 0 && total == 0)
    && (pl > 0 ==>
      && 1 <= head <= pl && total == RoomSum(db, head, pl) && headRoom == RoomAt(db, head)
      && (forall k :: head < k <= pl ==> k in db) && (head !in db ==> head == pl)
      && (forall k :: k in db && k <= pl ==> head <= k && db[k].ids == []))
  }

  /** Writing the head record. */
  lemma ReserveHead(db: Db, pl: nat, head: nat, headRoom: nat, total: nat, room: nat)
    requires Reserved(db, pl, head, headRoom, total) && pl > 0
    ensures total >= headRoom && Reserved(db[head := Record(room, [])], pl, head, room, total - headRoom + room)
  {
    var other := db[head := Record(room, [])];
    LowestRoom(db, head, pl);
    LowestRoom(other, head, pl);
    SameRoom(db, other, head + 1, pl);
  }

  /** Writing one more record, below the head record. */
  lemma ReserveNext(db: Db, pl: nat, head: nat, headRoom: nat, total: nat, room: nat)
    requires Reserved(db, pl, head, headRoom, total) && pl > 0 && head > 1 && head in db
    ensures Reserved(db[head - 1 := Record(room, [])], pl, head - 1, room, total + room)
  {
    var other := db[head - 1 := Record(room, [])];
    LowestRoom(other, head - 1, pl);
    SameRoom(db, other, head, pl);
  }

  /** Records above me_pglast, other than the transaction's own, are as they were. */
  ghost predicate Above(db0: Db, db: Db, pglast: nat, txnid: nat) {
    forall k :: pglast < k && k != txnid ==> (k in db <==> k in db0) && (k in db ==> db[k] == db0[k])
  }

  // ---------------------------------------------------------------- the lists and what changes them

  /** The freeDB, me_pghead, me_pglast, mt_free_pgs, and what the next operations will do to the lists. */
  datatype Lists = Lists(db: Db, pghead: seq<Id>, pglast: nat, free: seq<Id>, changes: seq<Change>)

  ghost predicate Ok(l: Lists, txnid: nat) {
    && l.pglast < txnid && (l.pglast == 0 ==> l.pghead == []) && (forall k :: k in l.db ==> 1 <= k <= txnid)
    && |l.free| + |Freed(l.changes)| <= IdlSort.INT_MAX
  }

  /** All ids that are or will be on mt_free_pgs. */
  ghost function AllFreed(l: Lists): multiset<Id> { multiset(l.free) + multiset(Freed(l.changes)) }

  /** The lists after an operation on the freeDB has done its page work. */
  function Touched(l: Lists, txnid: nat): Lists {
    if l.changes == [] then l else
      var c := l.changes[0];
      var last := if c.pglast in l.db && l.pglast < c.pglast < txnid then c.pglast else l.pglast;
      Lists(l.db, if last > 0 then c.pghead else l.pghead, last, l.free + c.freed, l.changes[1..])
  }

  /** One operation or more has worked on the lists: changes are used up, and without any left the lists stay. */
  ghost predicate Worked(l: Lists, m: Lists) {
    if l.changes == [] then m.changes == [] && m.pghead == l.pghead && m.pglast == l.pglast && |m.free| == |l.free|
    else |m.changes| < |l.changes|
  }

  /** mdb_cursor_put with MDB_RESERVE. */
  function Put(l: Lists, txnid: nat, k: nat, rec: Record): Lists {
    var t := Touched(l, txnid);
    t.(db := t.db[k := rec])
  }

  /** mdb_cursor_del */
  function Deleted(l: Lists, txnid: nat, k: nat): Lists {
    var t := Touched(l, txnid);
    t.(db := t.db - {k})
  }

  lemma TouchedOk(l: Lists, txnid: nat)
    requires Ok(l, txnid)
    ensures var t := Touched(l, txnid);
      && Ok(t, txnid) && AllFreed(t) == AllFreed(l) && l.free <= t.free && t.db == l.db
      && (t.pglast == l.pglast || (t.pglast > l.pglast && t.pglast in l.db))
      && (if l.changes == [] then t == l else |t.changes| < |l.changes|)
  {
  }

  /** The variables of the loop: pglast, head_id, head_room, total_room, freecnt. */
  datatype Vars = Vars(pl: nat, head: nat, headRoom: nat, total: nat, freecnt: nat)

  /** The transaction's own record holds the first freecnt ids of mt_free_pgs. */
  ghost predicate OwnRecord(l: Lists, txnid: nat, freecnt: nat) {
    && freecnt <= |l.free|
    && (freecnt > 0 ==> txnid in l.db && l.db[txnid] == Record(freecnt, l.free[..freecnt]) && Sorted(l.free[..freecnt]))
  }

  ghost predicate Loop(l0: Lists, l: Lists, v: Vars, txnid: nat) {
    && Ok(l, txnid) && v.pl <= l.pglast && (v.pl < l.pglast ==> l.pglast in l.db)
    && Reserved(l.db, v.pl, v.head, v.headRoom, v.total) && Above(l0.db, l.db, l.pglast, txnid)
    && AllFreed(l) == AllFreed(l0) && OwnRecord(l, txnid, v.freecnt) && NoOwnYet(l0, l, txnid)
  }

  /** Without freed pages the transaction gets no record. */
  ghost predicate NoOwnYet(l0: Lists, l: Lists, txnid: nat) { l.free == [] ==> (txnid in l.db <==> txnid in l0.db) }

  lemma TouchLoop(l0: Lists, l: Lists, v: Vars, txnid: nat)
    requires Loop(l0, l, v, txnid)
    ensures Loop(l0, Touched(l, txnid), v, txnid)
  {
    TouchedOk(l, txnid);
    var t := Touched(l, txnid);
    assert l.free[..v.freecnt] == t.free[..v.freecnt];
  }

  /** Deleting the first record while the loop is behind me_pglast. */
  lemma DeleteLoop(l0: Lists, l: Lists, v: Vars, txnid: nat, k: nat)
    requires Loop(l0, l, v, txnid) && v.pl < l.pglast && k in l.db && forall j :: j in l.db ==> k <= j
    ensures Loop(l0, Deleted(l, txnid, k), Vars(k, k, 0, 0, v.freecnt), txnid)
  {
    TouchLoop(l0, l, v, txnid);
    DeleteFirst(l0, Touched(l, txnid), v, txnid, k);
  }

  lemma DeleteFirst(l0: Lists, l: Lists, v: Vars, txnid: nat, k: nat)
    requires Loop(l0, l, v, txnid) && v.pl < l.pglast && k in l.db && forall j :: j in l.db ==> k <= j
    ensures Loop(l0, l.(db := l.db - {k}), Vars(k, k, 0, 0, v.freecnt), txnid)
  {
    DeleteReserved(l.db, k);
  }

  lemma DeleteReserved(db: Db, k: nat)
    requires k in db && k >= 1 && forall j :: j in db ==> k <= j
    ensures Reserved(db - {k}, k, k, 0, 0)
  {
    LowestRoom(db - {k}, k, k);
  }

  lemma HeadLoop(l0: Lists, l: Lists, v: Vars, txnid: nat, room: nat)
    requires Loop(l0, l, v, txnid) && v.pl > 0
    ensures v.total >= v.headRoom
    ensures Loop(l0, Put(l, txnid, v.head, Record(room, [])), v.(headRoom := room, total := v.total - v.headRoom + room), txnid)
  {
    TouchLoop(l0, l, v, txnid);
    ReserveHead(l.db, v.pl, v.head, v.headRoom, v.total, room);
    WriteRecord(l0, Touched(l, txnid), v, v.(headRoom := room, total := v.total - v.headRoom + room), txnid, v.head, room);
  }

  lemma NextLoop(l0: Lists, l: Lists, v: Vars, txnid: nat, room: nat)
    requires Loop(l0, l, v, txnid) && v.pl > 0 && v.head > 1 && v.head in l.db
    ensures Loop(l0, Put(l, txnid, v.head - 1, Record(room, [])),
      v.(head := v.head - 1, headRoom := room, total := v.total + room), txnid)
  {
    TouchLoop(l0, l, v, txnid);
    ReserveNext(l.db, v.pl, v.head, v.headRoom, v.total, room);
    WriteRecord(l0, Touched(l, txnid), v, v.(head := v.head - 1, headRoom := room, total := v.total + room),
      txnid, v.head - 1, room);
  }

  lemma WriteRecord(l0: Lists, l: Lists, v: Vars, w: Vars, txnid: nat, k: nat, room: nat)
    requires Loop(l0, l, v, txnid) && 1 <= k <= v.pl == w.pl && w.freecnt == v.freecnt
    requires Reserved(l.db[k := Record(room, [])], w.pl, w.head, w.headRoom, w.total)
    ensures Loop(l0, l.(db := l.db[k := Record(room, [])]), w, txnid)
  {
  }

  /** The transaction's own record is reserved. */
  lemma OwnPut(l0: Lists, l: Lists, v: Vars, txnid: nat, rec: Record)
    requires Loop(l0, l, v, txnid) && l.free != []
    ensures Loop(l0, Put(l, txnid, txnid, rec), v.(freecnt := 0), txnid)
  {
    TouchLoop(l0, l, v, txnid);
    OwnReserved(l.db, txnid, v, rec);
  }

  /** The transaction's own record is filled with the sorted list. */
  lemma OwnLoop(l0: Lists, l: Lists, v: Vars, txnid: nat, ids: seq<Id>)
    requires Loop(l0, l, v, txnid) && multiset(ids) == multiset(l.free) && Sorted(ids) && l.free != []
    ensures Loop(l0, l.(free := ids, db := l.db[txnid := Record(|ids|, ids)]), v.(freecnt := |ids|), txnid)
  {
    assert |ids| == |multiset(ids)| == |l.free|;
    assert ids[..|ids|] == ids;
    OwnReserved(l.db, txnid, v, Record(|ids|, ids));
  }

  lemma OwnReserved(db: Db, txnid: nat, v: Vars, rec: Record)
    requires Reserved(db, v.pl, v.head, v.headRoom, v.total) && v.pl < txnid
    ensures Reserved(db[txnid := rec], v.pl, v.head, v.headRoom, v.total)
  {
    SameRoom(db, db[txnid := rec], v.head, v.pl);
  }

  lemma WholePages(n: nat, m: nat)
    requires m > 0
    ensures (n + (m - 1 - n % m) + 1) % m == 0
  {
    assert n + (m - 1 - n % m) + 1 == (n / m + 1) * m;
    Multiple(n / m + 1, m);
  }

  function RoundUp(n: nat, maxfree: nat): (r: nat)
    ensures n <= r <= n + maxfree && (r + 1) % (maxfree + 1) == 0 && r >= maxfree
  {
    WholePages(n, maxfree + 1);
    n + (maxfree - n % (maxfree + 1))
  }

  lemma Multiple(k: nat, m: nat)
    requires m > 0
    ensures (k * m) % m == 0
  {
    var d := k - k * m / m;
    assert d * m == (k * m) % m;
    Beyond(d, m);
  }

  lemma Beyond(d: int, m: nat)
    ensures (d >= 1 ==> d * m >= m) && (d <= -1 ==> d * m + m <= 0)
  {
  }

  class Txn {
    const txnid: nat
    /** me_maxfree_1pg: ids in a record that fits one page. */
    const maxfree: nat
    var db: Db
    var pghead: seq<Id>
    var pglast: nat
    var free: seq<Id>
    var changes: seq<Change>

    ghost function Now(): Lists
      reads this
    {
      Lists(db, pghead, pglast, free, changes)
    }

    /** The page work of one operation on the freeDB. */
    method Touch()
      modifies this`pghead, this`pglast, this`free, this`changes
      ensures Now() == Touched(old(Now()), txnid)
    {
      if changes != [] {
        var c := changes[0];
        changes, free := changes[1..], free + c.freed;
        if c.pglast in db && pglast < c.pglast < txnid {
          pglast := c.pglast;
        }
        if pglast > 0 {
          pghead := c.pghead;
        }
      }
    }

    method PutRecord(k: nat, rec: Record)
      modifies this`pghead, this`pglast, this`free, this`changes, this`db
      ensures Now() == Put(old(Now()), txnid, k, rec)
    {
      Touch();
      db := db[k := rec];
    }

    /** The key of the first record. */
    method FirstKey() returns (k: nat)
      requires db != map[]
      ensures k in db && forall j :: j in db ==> k <= j
    {
      var rest := db.Keys;
      k :| k in rest;
      rest := rest - {k};
      while rest != {}
        invariant rest <= db.Keys && k in db && forall j :: j in db && j !in rest ==> k <= j
        decreases |rest|
      {
        var j :| j in rest;
        rest := rest - {j};
        k := if j < k then j else k;
      }
    }

    /** One round of mdb.c:2631-2641. */
    method DeleteFirstRecord(v0: Vars, ghost l0: Lists) returns (v: Vars)
      requires Loop(l0, Now(), v0, txnid) && v0.pl < pglast
      modifies this`pghead, this`pglast, this`free, this`changes, this`db
      ensures Loop(l0, Now(), v, txnid) && v.freecnt == v0.freecnt && Worked(old(Now()), Now()) && |db| < |old(db)|
    {
      var k := FirstKey();
      DeleteLoop(l0, Now(), v0, txnid, k);
      v := Vars(k, k, 0, 0, v0.freecnt);
      Touch();
      db := db - {k};
    }

    /** mdb.c:2629-2642: records that this transaction consumed are deleted, with those reserved so far. */
    method DeleteUsed(v0: Vars, ghost l0: Lists) returns (v: Vars)
      requires Loop(l0, Now(), v0, txnid)
      modifies this`pghead, this`pglast, this`free, this`changes, this`db
      ensures Loop(l0, Now(), v, txnid) && v.pl == pglast && v.freecnt == v0.freecnt
      ensures if v0.pl == old(pglast) then v == v0 && Now() == old(Now()) else Worked(old(Now()), Now())
    {
      v := v0;
      while v.pl < pglast
        invariant Loop(l0, Now(), v, txnid) && v.freecnt == v0.freecnt
        invariant (v == v0 && Now() == old(Now())) || (v0.pl != old(pglast) && Worked(old(Now()), Now()))
        decreases |db|
      {
        v := DeleteFirstRecord(v, l0);
      }
    }

    /** One put of the transaction's own record, whose contents are set later. */
    method PutOwn(v: Vars, n: nat, ghost l0: Lists)
      requires Loop(l0, Now(), v, txnid) && v.freecnt == 0 && free != []
      modifies this`pghead, this`pglast, this`free, this`changes, this`db
      ensures Loop(l0, Now(), v, txnid) && Worked(old(Now()), Now()) && |free| >= |old(free)|
    {
      OwnPut(l0, Now(), v, txnid, Record(n, []));
      TouchedOk(Now(), txnid);
      PutRecord(txnid, Record(n, []));
    }

    /** mdb.c:2655-2663: the record is put again as long as putting it adds pages to the list. */
    method PutUntilStable(v: Vars, ghost l0: Lists)
      requires Loop(l0, Now(), v, txnid) && v.freecnt == 0 && free != []
      modifies this`pghead, this`pglast, this`free, this`changes, this`db
      ensures Loop(l0, Now(), v, txnid) && Worked(old(Now()), Now()) && free != []
    {
      var n := |free|;
      PutOwn(v, n, l0);
      while n < |free|
        invariant Loop(l0, Now(), v, txnid) && Worked(old(Now()), Now()) && n <= |free| && free != []
        invariant old(changes) == [] ==> n == |free|
        decreases |changes|, |free| - n
      {
        n := |free|;
        PutOwn(v, n, l0);
      }
    }

    /** mdb.c:2644-2676: mt_free_pgs goes to the record of this transaction. */
    method SaveFree(v0: Vars, ghost l0: Lists) returns (v: Vars)
      requires Loop(l0, Now(), v0, txnid) && v0.pl == pglast && v0.freecnt < |free|
      modifies this`pghead, this`pglast, this`free, this`changes, this`db
      ensures Loop(l0, Now(), v, txnid) && v == v0.(freecnt := |free|) && Worked(old(Now()), Now())
    {
      if v0.freecnt == 0 {
        TouchLoop(l0, Now(), v0, txnid);
        TouchedOk(Now(), txnid);
        Touch();
      }
      v := v0.(freecnt := 0);
      PutUntilStable(v, l0);
      var ids := Spill.SortList(free);
      assert |ids| == |multiset(ids)| == |free|;
      OwnLoop(l0, Now(), v, txnid, ids);
      free := ids;
      db := db[txnid := Record(|ids|, ids)];
      v := v.(freecnt := |ids|);
    }

    /**
     * mdb.c:2694-2703: the size of the record that the loop (re)writes, when the others hold rest ids.  A share of what is
     * missing, if there are smaller keys for more, rounded up so that count and ids fill whole pages.
     */
    function NewRoom(rest: nat, head: nat): (room: nat)
      requires maxfree >= 1 && head >= 1
      reads this
      ensures room >= |pghead| - rest || (room >= maxfree && head > 1)
      ensures |pghead| >= rest && (|pghead| - rest <= maxfree || head <= 1) ==> room == |pghead| - rest
      ensures |pghead| < rest ==> room == 0
      ensures |pghead| - rest > maxfree && head > 1 ==>
        var share := (|pghead| - rest) / head; share <= room <= share + maxfree && (room + 1) % (maxfree + 1) == 0
    {
      var need := |pghead| - rest;
      if need > maxfree && head > 1 then
        RoundUp(need / head, maxfree)
      else if need < 0 then 0
      else need
    }

    /** mdb.c:2685-2716: the head record gets a new size, or a new head record is added below it. */
    method Reserve(v0: Vars, ghost l0: Lists) returns (v: Vars)
      requires maxfree >= 1 && Loop(l0, Now(), v0, txnid) && v0.pl == pglast && v0.total != |pghead|
      modifies this`pghead, this`pglast, this`free, this`changes, this`db
      ensures Loop(l0, Now(), v, txnid) && Worked(old(Now()), Now()) && v.pl == v0.pl && v.freecnt == v0.freecnt
      ensures old(changes) == [] && v0.total < |pghead| ==>
        v.head < v0.head || (v.head == v0.head && Stage(v, |pghead|) < Stage(v0, |pghead|))
      ensures v.head == if v0.total < old(|pghead|) && v0.headRoom >= maxfree && v0.head > 1 then v0.head - 1 else v0.head
      ensures var rest := if v.head == v0.head then v0.total - v0.headRoom else v0.total;
        rest >= 0 && v.headRoom == old(NewRoom(rest, v.head)) && v.total == rest + v.headRoom
    {
      TouchedOk(Now(), txnid);
      if v0.total < |pghead| && v0.headRoom >= maxfree && v0.head > 1 {
        var room := NewRoom(v0.total, v0.head - 1);
        NextLoop(l0, Now(), v0, txnid, room);
        v := v0.(head := v0.head - 1, headRoom := room, total := v0.total + room);
        PutRecord(v.head, Record(room, []));
      } else {
        assert v0.total >= v0.headRoom by { HeadLoop(l0, Now(), v0, txnid, 0); }
        var room := NewRoom(v0.total - v0.headRoom, v0.head);
        HeadLoop(l0, Now(), v0, txnid, room);
        v := v0.(headRoom := room, total := v0.total - v0.headRoom + room);
        PutRecord(v.head, Record(room, []));
      }
    }

    /** How far the head record is from its last size. */
    function Stage(v: Vars, len: nat): nat
    {
      if v.total == len then 0 else if v.headRoom >= maxfree && v.head > 1 then 1 else 2
    }

    /** mdb.c:2622-2717.  The loop ends whenever the operations stop changing the lists. */
    method ReserveAll(ghost l0: Lists) returns (v: Vars)
      requires maxfree >= 1 && Loop(l0, Now(), Vars(0, 0, 0, 0, 0), txnid)
      modifies this`pghead, this`pglast, this`free, this`changes, this`db
      ensures Loop(l0, Now(), v, txnid) && v.pl == pglast && v.freecnt == |free| && v.total >= |pghead|
    {
      v := Vars(0, 0, 0, 0, 0);
      var more: nat := 1;
      while true
        invariant Loop(l0, Now(), v, txnid)
        decreases |changes|, if v.pl < pglast then 1 else 0, if v.freecnt < |free| then 1 else 0, more, v.head, Stage(v, |pghead|)
      {
        v := DeleteUsed(v, l0);
        if v.freecnt < |free| {
          v := SaveFree(v, l0);
          continue;
        }
        if v.total >= |pghead| {
          if v.total == |pghead| || more == 0 {
            return;
          }
          more := more - 1;
        }
        v := Reserve(v, l0);
      }
    }

    /** The key of the record behind k. */
    method NextKey(k: nat) returns (n: nat)
      requires k + 1 in db
      ensures n == k + 1
    {
      var rest: set<nat> := set j | j in db && j > k;
      assert k + 1 in rest;
      n :| n in rest;
      rest := rest - {n};
      while rest != {}
        invariant n > k && n in db && (forall j :: j in rest ==> j in db && j > k)
        invariant forall j :: j in db && j > k && j !in rest ==> n <= j
        decreases |rest|
      {
        var j :| j in rest;
        rest := rest - {j};
        n := if j < n then j else n;
      }
    }

    /** One record of the loop at mdb.c:2726-2745. */
    method FillRecord(v: Vars, rest0: nat, key: nat, ghost db0: Db) returns (rest: nat)
      requires 0 < rest0 && Filling(db0, db, v, pghead, rest0, key)
      modifies this`db
      ensures rest <= rest0
      ensures if rest > 0 then key + 1 <= v.pl && Filling(db0, db, v, pghead, rest, key + 1) else Full(db0, db, v, pghead, key)
    {
      var len := if db[key].room > rest0 then rest0 else db[key].room;
      FillOne(db0, db, v, pghead, rest0, key, len);
      db := db[key := Record(len, pghead[rest0 - len..rest0])];
      rest := rest0 - len;
    }

    /** mdb.c:2719-2746: the ids of me_pghead go into the reserved records, smallest ids first. */
    method Fill(v: Vars)
      requires Reserved(db, v.pl, v.head, v.headRoom, v.total) && v.total >= |pghead| && v.pl == pglast
      requires forall k :: k in db ==> k >= 1
      modifies this`db
      ensures Stored(db, 1, pglast) == pghead
      ensures forall k :: k in db && k <= pglast ==> |db[k].ids| == db[k].room || db[k].ids == []
      ensures forall k :: (k in db <==> k in old(db)) && (k in db && k > pglast ==> db[k] == old(db)[k])
    {
      if pghead == [] {
        StoredEmpty(db, 1, pglast);
        return;
      }
      ghost var db0 := db;
      FirstReserved(db, v, pghead);
      var key := FirstKey();
      var rest := |pghead|;
      rest := FillRecord(v, rest, key, db0);
      while rest > 0
        invariant v.pl == pglast && key <= v.pl
        invariant if rest > 0 then key + 1 <= v.pl && Filling(db0, db, v, pghead, rest, key + 1)
          else Full(db0, db, v, pghead, key)
        decreases v.pl - key
      {
        key := NextKey(key);
        rest := FillRecord(v, rest, key, db0);
      }
      Filled(db0, db, v, pghead, key);
    }

    /**
     * mdb_freelist_save.  Each id of me_pghead ends up in the records with keys from 1 to me_pglast, in order, and
     * surplus records are empty; mt_free_pgs is in the transaction's own record; later records are untouched.
     */
    method Save()
      requires maxfree >= 1 && Ok(Now(), txnid) && (pglast > 0 ==> pglast in db)
      modifies this`pghead, this`pglast, this`free, this`changes, this`db
      ensures Stored(db, 1, pglast) == pghead && 0 <= pglast < txnid
      ensures forall k :: k in db && k <= pglast ==> |db[k].ids| == db[k].room || db[k].ids == []
      ensures Above(old(db), db, pglast, txnid)
      ensures free != [] ==> txnid in db && db[txnid] == Record(|free|, free) && Sorted(free)
      ensures free == [] ==> (txnid in db <==> txnid in old(db))
      ensures AllFreed(Now()) == AllFreed(old(Now()))
    {
      ghost var l0 := Now();
      if pglast > 0 {
        TouchLoop(l0, Now(), Vars(0, 0, 0, 0, 0), txnid);
        Touch();
      }
      var v := ReserveAll(l0);
      ghost var l := Now();
      assert l.free[..v.freecnt] == l.free;
      Fill(v);
    }
  }

  lemma FirstReserved(db: Db, v: Vars, s: seq<Id>)
    requires Reserved(db, v.pl, v.head, v.headRoom, v.total) && v.total >= |s| > 0
    requires forall k :: k in db ==> k >= 1
    ensures v.head in db && (forall k :: k in db ==> v.head <= k) && Filling(db, db, v, s, |s|, v.head)
  {
    LowestRoom(db, v.pl, v.pl);
  }

  /** Records up to key - 1 are filled with the ids behind position rest, those from key on are as reserved. */
  ghost predicate Filling(db0: Db, db: Db, v: Vars, s: seq<Id>, rest: nat, key: nat) {
    && rest <= |s| && 1 <= v.head <= key <= v.pl && (forall k :: k in db <==> k in db0)
    && (forall k :: v.head <= k <= v.pl ==> k in db) && (forall k :: k in db ==> v.head <= k)
    && (forall k :: k in db && key <= k ==> db[k] == db0[k]) && (forall k :: k in db && key <= k <= v.pl ==> db[k].ids == [])
    && (forall k :: k in db && k < key ==> |db[k].ids| == db[k].room)
    && Stored(db, v.head, key - 1) == s[rest..] && RoomSum(db, key, v.pl) >= rest
  }

  /** Filling one record: the ids come before those already stored, and the rest still fits behind. */
  lemma FillSums(db: Db, head: nat, pl: nat, s: seq<Id>, rest: nat, key: nat, len: nat)
    requires 1 <= head <= key <= pl && len <= rest <= |s| && key in db && db[key].room >= len
    requires Stored(db, head, key - 1) == s[rest..]
    ensures var e := db[key := Record(len, s[rest - len..rest])];
      && Stored(e, head, key) == s[rest - len..] && RoomSum(e, key + 1, pl) == RoomSum(db, key, pl) - db[key].room
  {
    var e := db[key := Record(len, s[rest - len..rest])];
    LowestRoom(db, key, pl);
    SameRoom(db, e, key + 1, pl);
    SameStored(db, e, head, key - 1);
    Adjoining(s, rest - len, rest);
    StoredTop(e, head, key);
  }

  lemma Adjoining(s: seq<Id>, i: nat, j: nat)
    requires i <= j <= |s|
    ensures s[i..j] + s[j..] == s[i..]
  {
  }

  lemma StoredTop(db: Db, lo: nat, hi: nat)
    requires lo <= hi && 0 < hi
    ensures Stored(db, lo, hi) == IdsAt(db, hi) + Stored(db, lo, hi - 1)
  {
  }

  lemma FillOne(db0: Db, db: Db, v: Vars, s: seq<Id>, rest: nat, key: nat, len: nat)
    requires Filling(db0, db, v, s, rest, key) && rest > 0 && len == if db[key].room > rest then rest else db[key].room
    ensures var e := db[key := Record(len, s[rest - len..rest])];
      if rest > len then key + 1 <= v.pl && Filling(db0, e, v, s, rest - len, key + 1)
      else Full(db0, e, v, s, key)
  {
    var e := db[key := Record(len, s[rest - len..rest])];
    FillSums(db, v.head, v.pl, s, rest, key, len);
    assert RoomSum(e, v.pl + 1, v.pl) == 0;
    if rest == len { assert s[0..] == s; }
  }

  /** All of s is stored in the records up to key; those behind it are as reserved, empty. */
  ghost predicate Full(db0: Db, db: Db, v: Vars, s: seq<Id>, key: nat) {
    && 1 <= v.head <= key <= v.pl && (forall k :: k in db <==> k in db0) && (forall k :: k in db ==> v.head <= k)
    && (forall k :: k in db && key < k ==> db[k] == db0[k]) && (forall k :: k in db && key < k <= v.pl ==> db[k].ids == [])
    && (forall k :: k in db && k <= key ==> |db[k].ids| == db[k].room) && Stored(db, v.head, key) == s
  }

  lemma Filled(db0: Db, db: Db, v: Vars, s: seq<Id>, key: nat)
    requires Full(db0, db, v, s, key)
    ensures Stored(db, 1, v.pl) == s
    ensures forall k :: k in db && k <= v.pl ==> |db[k].ids| == db[k].room || db[k].ids == []
    ensures forall k :: (k in db <==> k in db0) && (k in db && k > v.pl ==> db[k] == db0[k])
  {
    StoredSplit(db, v.head, key + 1, v.pl);
    StoredEmpty(db, key + 1, v.pl);
    StoredSplit(db, 1, v.head, v.pl);
    if v.head > 1 { StoredEmpty(db, 1, v.head - 1); }
  }

  lemma {:induction false} StoredIn(db: Db, lo: nat, hi: nat, k: nat, x: Id)
    requires lo <= k <= hi && x in IdsAt(db, k)
    ensures x in Stored(db, lo, hi)
    decreases hi
  {
    if k < hi { StoredIn(db, lo, hi - 1, k, x); }
  }

  lemma {:induction false} StoredSome(db: Db, lo: nat, hi: nat, x: Id) returns (k: nat)
    requires x in Stored(db, lo, hi)
    ensures lo <= k <= hi && x in IdsAt(db, k)
    decreases hi
  {
    if x in IdsAt(db, hi) { k := hi; } else { k := StoredSome(db, lo, hi - 1, x); }
  }

  /** When me_pghead has no page twice, each of its pages is in exactly one record with a key in 1..me_pglast. */
  lemma SavedOnce(db: Db, hi: nat, pghead: seq<Id>, x: Id) returns (k: nat)
    requires Stored(db, 1, hi) == pghead && multiset(pghead)[x] == 1
    ensures 1 <= k <= hi && x in IdsAt(db, k) && forall j :: 1 <= j <= hi && j != k ==> x !in IdsAt(db, j)
  {
    assert x in multiset(pghead);
    k := StoredSome(db, 1, hi, x);
    forall j | 1 <= j <= hi && j != k ensures x !in IdsAt(db, j) {
      if x in IdsAt(db, j) { InTwo(db, hi, if j < k then j else k, if j < k then k else j, pghead, x); }
    }
  }

  lemma InStored(db: Db, lo: nat, hi: nat, k: nat, x: Id, s: seq<Id>)
    requires lo <= k <= hi && x in IdsAt(db, k) && s == Stored(db, lo, hi)
    ensures x in s
  {
    StoredIn(db, lo, hi, k, x);
  }

  lemma InTwo(db: Db, hi: nat, j: nat, k: nat, s: seq<Id>, x: Id)
    requires 1 <= j < k <= hi && Stored(db, 1, hi) == s && x in IdsAt(db, j) && x in IdsAt(db, k)
    ensures multiset(s)[x] >= 2
  {
    StoredSplit(db, 1, k, hi);
    var a, b := Stored(db, k, hi), Stored(db, 1, k - 1);
    InStored(db, k, hi, k, x, a);
    InStored(db, 1, k - 1, j, x, b);
    Twice(a, b, s, x);
  }

  lemma Twice(a: seq<Id>, b: seq<Id>, s: seq<Id>, x: Id)
    requires s == a + b && x in a && x in b
    ensures multiset(s)[x] >= 2
  {
    assert x in multiset(a) && x in multiset(b);
  }
}
