/** mdb_page_alloc: the free list in memory, the freeDB records that feed it, and the end of the map. */
module Allocator {
  import opened Idl
  import opened PageAlloc

  /** A freeDB record: the pages that transaction txnid freed, highest first. */
  datatype Record = Record(txnid: nat, ids: seq<Id>)

  datatype AllocResult = Ok(pgno: nat) | MDB_MAP_FULL | MDB_TXN_FULL

  // ---------------------------------------------------------------- the records

  /** Keys strictly ascending, as a cursor walks them, and every list strictly descending. */
  ghost predicate Ascending(db: seq<Record>) {
    && (forall i, j :: 0 <= i < j < |db| ==> db[i].txnid < db[j].txnid)
    && (forall i :: 0 <= i < |db| ==> FreeList(db[i].ids))
  }

  ghost predicate Small(s: seq<Id>) { forall k :: 0 <= k < |s| ==> s[k] < MAXID }

  ghost predicate Distinct(s: seq<Id>) { forall x: nat :: multiset(s)[x] <= 1 }

  /** The list in memory together with the pages of the records from position from up to lim. */
  function Pool(head: seq<Id>, db: seq<Record>, from: nat, lim: nat): seq<Id>
    requires lim <= |db|
  {
    if lim <= from then head else Pool(head, db, from, lim - 1) + db[lim - 1].ids
  }

  ghost predicate NoRunIn(s: seq<Id>, num: nat) { forall p :: !HasRun(s, p, num) }

  /** Where a cursor set to key with MDB_SET_RANGE stands. */
  function SetRange(db: seq<Record>, key: nat): (pos: nat)
    ensures pos <= |db|
    ensures forall i :: 0 <= i < pos ==> db[i].txnid < key
    ensures pos < |db| ==> db[pos].txnid >= key
  {
    if |db| == 0 || db[0].txnid >= key then 0 else SetRange(db[1..], key) + 1
  }

  lemma {:induction false} PoolGrows(head: seq<Id>, db: seq<Record>, from: nat, n: nat, lim: nat)
    requires from <= n <= lim <= |db|
    ensures multiset(Pool(head, db, from, n)) <= multiset(Pool(head, db, from, lim))
    decreases lim
  {
    if n < lim { PoolGrows(head, db, from, n, lim - 1); }
  }

  /** When no page is listed twice the next record has nothing in common with what was merged before. */
  lemma NextIsNew(head: seq<Id>, db: seq<Record>, from: nat, n: nat, lim: nat)
    requires from <= n < lim <= |db| && Distinct(Pool(head, db, from, lim))
    ensures forall x :: x in Pool(head, db, from, n) ==> x !in db[n].ids
  {
    PoolGrows(head, db, from, n + 1, lim);
    var a, b, all := Pool(head, db, from, n), db[n].ids, Pool(head, db, from, lim);
    forall x | x in a ensures x !in b {
      assert multiset(all)[x] >= multiset(a + b)[x] == multiset(a)[x] + multiset(b)[x];
    }
  }

  /** Adding one record: what is in memory afterwards is the pool with that record, strictly descending. */
  lemma MergeKeeps(a: seq<Id>, pool: seq<Id>, b: seq<Id>)
    requires Descending(a) && Descending(b) && Small(a) && Small(b) && multiset(a) == multiset(pool)
    requires forall x :: x in pool ==> x !in b
    ensures Descending(Merged(a, b)) && Small(Merged(a, b)) && |a| + |b| <= MAXID
    ensures multiset(Merged(a, b)) == multiset(pool + b)
  {
    forall x | x in a ensures x !in b { SameMembers(a, pool, x); }
    MergedDescends(a, b);
    MergedMultiset(a, b);
    var m := Merged(a, b);
    forall k | 0 <= k < |m| ensures m[k] < MAXID { MergedMember(a, b, m[k]); }
    if |m| > 0 { Spread(m, 0, |m| - 1); }
  }

  lemma SameMembers(a: seq<Id>, b: seq<Id>, x: Id)
    requires multiset(a) == multiset(b)
    ensures x in a <==> x in b
  {
    assert x in a <==> x in multiset(a);
    assert x in b <==> x in multiset(b);
  }

  lemma SameRuns(a: seq<Id>, b: seq<Id>, num: nat)
    requires multiset(a) == multiset(b)
    ensures forall p :: HasRun(a, p, num) <==> HasRun(b, p, num)
  {
    forall q: nat ensures q in a <==> q in b {
      if q in a || q in b { SameMembers(a, b, q); }
    }
    forall p: nat ensures HasRun(a, p, num) <==> HasRun(b, p, num) {
      assert HasRun(a, p, num) ==> forall q: nat :: p <= q < p + num ==> q in b;
    }
  }

  lemma RunCut(a: seq<Id>, u: seq<Id>, s: seq<Id>, i: nat, num: nat)
    requires 1 <= num <= i <= |s| < |a| == |u| && s == a[1..|s| + 1]
    requires u[1..|s| - num + 1] == a[1..i - num + 1] + a[i + 1..|s| + 1]
    ensures u[1..|s| - num + 1] == s[..i - num] + s[i..]
  {
    assert s[..i - num] == a[1..i - num + 1] && s[i..] == a[i + 1..|s| + 1];
  }

  /** Cutting the run out of the list leaves a descending list and loses nothing but the run. */
  lemma CutRun(s: seq<Id>, i: nat, num: nat)
    requires Descending(s) && Small(s) && 1 <= num <= i <= |s| && RunAt(s, i - 1, num - 1)
    ensures s[i - 1] + num <= MAXID
    ensures var t := s[..i - num] + s[i..];
      Descending(t) && Small(t) && multiset(s) == multiset(t) + multiset(Range(s[i - 1], num))
  {
    assert s[i - num] == s[i - 1] + (i - 1 - (i - num));
    var r := Range(s[i - 1], num);
    assert s[i - num..i] == r;
    assert s == s[..i - num] + r + s[i..];
  }

  // ---------------------------------------------------------------- the allocator

  /** The end of the records from position from on that may be read: those below oldest. */
  function End(db: seq<Record>, from: nat, oldest: nat): (lim: nat)
    requires from <= |db|
    ensures from <= lim <= |db|
    ensures forall i :: from <= i < lim ==> db[i].txnid < oldest
    ensures lim < |db| ==> db[lim].txnid >= oldest
    decreases |db| - from
  {
    if from == |db| || db[from].txnid >= oldest then from else End(db, from + 1, oldest)
  }

  /** The first record that this transaction has not read. */
  function Next(db: seq<Record>, pglast: nat): (pos: nat)
    ensures pos <= |db|
  {
    SetRange(db, pglast + 1)
  }

  /** me_pglast when the records from position from up to lim have been read. */
  function LastRead(db: seq<Record>, from: nat, lim: nat, pglast: nat): nat {
    if from < lim <= |db| then db[lim - 1].txnid else pglast
  }

  lemma LastBelow(db: seq<Record>, pglast: nat, pos: nat)
    requires Ascending(db) && Next(db, pglast) <= pos <= |db|
    ensures pos < |db| ==> LastRead(db, Next(db, pglast), pos, pglast) < db[pos].txnid
  {
  }

  ghost predicate FreeList(s: seq<Id>) { Descending(s) && Small(s) }

  /** Room for the record in the list, then the merge (mdb.c:1821-1849). */
  method MergeInto(mop: array<Id>, idl: seq<Id>) returns (m: array<Id>)
    requires 1 <= mop.Length && mop[0] < mop.Length && mop[0] + |idl| <= MAXID && Small(idl)
    modifies mop
    ensures m == mop || fresh(m)
    ensures 1 <= m.Length && m[0] < m.Length && m[1..m[0] + 1] == Merged(old(mop[1..mop[0] + 1]), idl)
  {
    m := NeedRoom(mop, |idl|);
    MergeRecord(m, idl);
  }

  /** TakeRun on the ids without the count. */
  method CutOut(mop: array<Id>, i: nat, num: nat, ghost s: seq<Id>)
    requires 1 <= num <= i <= |s| < mop.Length && |s| == mop[0] && s == mop[1..mop[0] + 1]
    modifies mop
    ensures mop[0] < mop.Length && mop[1..mop[0] + 1] == s[..i - num] + s[i..]
  {
    ghost var a := mop[..];
    TakeRun(mop, i, num);
    RunCut(a, mop[..], s, i, num);
  }

  class Env {
    /** me_pghead; the null pointer is the list without ids. */
    var mop: array<Id>
    var pglast: nat
    var nextPgno: nat
    var dirtyRoom: nat
    const maxpg: nat
    /** The ids in mop. */
    ghost var free: seq<Id>

    constructor (maxpg: nat, nextPgno: nat, dirtyRoom: nat)
      ensures Valid() && free == [] && pglast == 0 && fresh(mop)
      ensures this.nextPgno == nextPgno && this.dirtyRoom == dirtyRoom && this.maxpg == maxpg
    {
      this.maxpg, this.nextPgno, this.dirtyRoom := maxpg, nextPgno, dirtyRoom;
      pglast, free := 0, [];
      mop := new Id[1](i => 0);
    }

    ghost predicate Valid()
      reads this, mop
    {
      1 <= mop.Length && mop[0] < mop.Length && free == mop[1..mop[0] + 1] && FreeList(free)
    }

    /** One more record goes into me_pghead (mdb.c:1818-1849). */
    method ReadRecord(rec: Record, ghost pool: seq<Id>)
      requires Valid() && FreeList(rec.ids)
      requires multiset(free) == multiset(pool) && forall x :: x in pool ==> x !in rec.ids
      modifies this`mop, this`pglast, this`free, mop
      ensures Valid() && (mop == old(mop) || fresh(mop))
      ensures multiset(free) == multiset(pool + rec.ids) && pglast == rec.txnid
    {
      MergeKeeps(free, pool, rec.ids);
      mop := MergeInto(mop, rec.ids);
      free := Merged(free, rec.ids);
      pglast := rec.txnid;
    }

    /** The pages of a run that ends at slot i leave me_pghead (mdb.c:1870-1875). */
    method Take(i: nat, num: nat)
      requires Valid() && 1 <= num <= i <= |free| && RunAt(free, i - 1, num - 1)
      modifies this`free, mop
      ensures Valid() && FromList(old(free), free, old(free)[i - 1], num)
    {
      ghost var s := free;
      CutRun(s, i, num);
      CutOut(mop, i, num, s);
      free := s[..i - num] + s[i..];
    }

    /** The record under the cursor joins me_pghead, if it may be read, and the search is repeated (mdb.c:1786-1849). */
    method Fetch(db: seq<Record>, pos: nat, oldest: nat, num: nat, ghost head: seq<Id>, ghost pg0: nat)
      returns (i: nat, more: bool)
      requires num >= 1 && Valid() && Readable(head, db, pg0, oldest) && NoRunIn(free, num)
      requires Progress(head, free, pglast, db, pg0, pos, oldest, num)
      modifies this`mop, this`pglast, this`free, mop
      ensures Valid() && (mop == old(mop) || fresh(mop))
      ensures more ==> pos < |db| && Progress(head, free, pglast, db, pg0, pos + 1, oldest, num)
      ensures !more ==> pos == End(db, Next(db, pg0), oldest)
      ensures !more ==> Progress(head, free, pglast, db, pg0, pos, oldest, num)
      ensures Found(free, i, num)
    {
      LastBelow(db, pg0, pos);
      if oldest <= pglast + 1 || pos == |db| || oldest <= db[pos].txnid {
        return 0, false;
      }
      ghost var from := Next(db, pg0);
      NextIsNew(head, db, from, pos, End(db, from, oldest));
      SameRuns(free, Pool(head, db, from, pos), num);
      ghost var was := free;
      ReadRecord(db[pos], Pool(head, db, from, pos));
      LazyNext(head, was, free, db, from, pos, oldest, num);
      more := true;
      i := Search(num);
    }

    /** The search on me_pghead. */
    method Search(num: nat) returns (i: nat)
      requires Valid() && num >= 1
      ensures Found(free, i, num)
    {
      i := FindRun(mop, num);
    }

    /**
     * The loop at mdb.c:1766-1850: search me_pghead, read one record, search again, until a run ends at slot i
     * or all records below oldest have been read.  lim is the position behind the last record read.
     */
    method Collect(num: nat, db: seq<Record>, oldest: nat) returns (i: nat, ghost lim: nat)
      requires num >= 1 && Valid() && Readable(free, db, pglast, oldest)
      modifies this`mop, this`pglast, this`free, mop
      ensures Valid() && (mop == old(mop) || fresh(mop)) && Found(free, i, num)
      ensures Progress(old(free), free, pglast, db, old(pglast), lim, oldest, num)
      ensures i == 0 ==> lim == End(db, Next(db, old(pglast)), oldest)
    {
      ghost var head, pg0 := free, pglast;
      var pos, more := SetRange(db, pglast + 1), true;
      i := Search(num);
      while i == 0 && more
        invariant Valid() && (mop == old(mop) || fresh(mop)) && Found(free, i, num)
        invariant Progress(head, free, pglast, db, pg0, pos, oldest, num)
        invariant !more ==> pos == End(db, Next(db, pg0), oldest)
        decreases |db| - pos, more
      {
        i, more := Fetch(db, pos, oldest, num, head, pg0);
        pos := if more then pos + 1 else pos;
      }
      lim := pos;
    }

    /** What mdb_page_alloc does with the pages it found in the records it read. */
    twostate predicate Outcome(r: AllocResult, found: seq<Id>, num: nat)
      reads this
    {
      match r
      case MDB_TXN_FULL => free == found == old(free) && nextPgno == old(nextPgno) && old(dirtyRoom) == 0
      case MDB_MAP_FULL => free == found && NoRunIn(found, num) && nextPgno == old(nextPgno) && nextPgno + num >= maxpg
      case Ok(pgno) =>
        if nextPgno == old(nextPgno) then FromList(found, free, pgno, num)
        else free == found && NoRunIn(found, num) && pgno == old(nextPgno) && nextPgno == pgno + num < maxpg
    }

    /** mdb.c:1852-1880: the run that ends at slot i, or new pages from the map when i is 0. */
    method Finish(i: nat, num: nat) returns (r: AllocResult)
      requires Valid() && dirtyRoom > 0
      requires Found(free, i, num)
      requires num >= 1
      modifies this`free, this`nextPgno, this`dirtyRoom, mop
      ensures Valid() && Outcome(r, old(free), num) && r != MDB_TXN_FULL
      ensures i > 0 ==> r.Ok? && nextPgno == old(nextPgno)
      ensures dirtyRoom == old(dirtyRoom) - (if r.Ok? then 1 else 0)
    {
      if i > 0 {
        r := Ok(mop[i]);
        assert mop[i] == free[i - 1];
        Take(i, num);
      } else if nextPgno + num >= maxpg {
        return MDB_MAP_FULL;
      } else {
        r := Ok(nextPgno);
        nextPgno := nextPgno + num;
      }
      dirtyRoom := dirtyRoom - 1;
    }

    /** mdb_page_alloc.  lim is the position behind the last freeDB record it read. */
    method Alloc(num: nat, db: seq<Record>, oldest: nat) returns (r: AllocResult, ghost found: seq<Id>, ghost lim: nat)
      requires num >= 1 && Valid() && Readable(free, db, pglast, oldest)
      modifies this, mop
      ensures Valid() && Outcome(r, found, num)
      ensures Progress(old(free), found, pglast, db, old(pglast), lim, oldest, num)
      ensures nextPgno != old(nextPgno) || r == MDB_MAP_FULL ==> lim == End(db, Next(db, old(pglast)), oldest)
      ensures dirtyRoom == old(dirtyRoom) - (if r.Ok? then 1 else 0) && (r == MDB_TXN_FULL <==> old(dirtyRoom) == 0)
    {
      found, lim := free, Next(db, pglast);
      if dirtyRoom == 0 {
        return MDB_TXN_FULL, found, lim;
      }
      var i;
      i, lim := Collect(num, db, oldest);
      found := free;
      r := Finish(i, num);
    }
  }

  /** The records are in order, and no page is in two of those that may be read, or in one and the list. */
  ghost predicate Readable(head: seq<Id>, db: seq<Record>, pglast: nat, oldest: nat) {
    Ascending(db) && Distinct(Pool(head, db, Next(db, pglast), End(db, Next(db, pglast), oldest)))
  }

  /** Reading has gone from me_pglast == pg0 up to position pos. */
  ghost predicate Progress(head: seq<Id>, free: seq<Id>, pglast: nat, db: seq<Record>, pg0: nat, pos: nat, oldest: nat, num: nat) {
    Lazy(head, free, db, Next(db, pg0), pos, oldest, num) && pglast == LastRead(db, Next(db, pg0), pos, pg0)
  }

  /** Records from position from up to lim were read in order, the last one only because there was no run without it. */
  ghost predicate Lazy(head: seq<Id>, free: seq<Id>, db: seq<Record>, from: nat, lim: nat, oldest: nat, num: nat)
    requires from <= |db|
  {
    && from <= lim <= End(db, from, oldest) && multiset(free) == multiset(Pool(head, db, from, lim))
    && (lim > from ==> NoRunIn(Pool(head, db, from, lim - 1), num))
  }

  lemma LazyNext(head: seq<Id>, free: seq<Id>, more: seq<Id>, db: seq<Record>, from: nat, pos: nat, oldest: nat, num: nat)
    requires from <= pos < |db| && Lazy(head, free, db, from, pos, oldest, num) && NoRunIn(free, num)
    requires multiset(more) == multiset(Pool(head, db, from, pos) + db[pos].ids) && db[pos].txnid < oldest
    ensures Lazy(head, more, db, from, pos + 1, oldest, num)
  {
    SameRuns(free, Pool(head, db, from, pos), num);
  }

  /** Slot i ends a run, or there is no run when i is 0. */
  ghost predicate Found(free: seq<Id>, i: nat, num: nat) {
    if i > 0 then 1 <= num <= i <= |free| && RunAt(free, i - 1, num - 1) else NoRunIn(free, num)
  }

  /** The num pages from pgno on were in the pool, and left is the pool without them. */
  ghost predicate FromList(pool: seq<Id>, left: seq<Id>, pgno: nat, num: nat) {
    pgno + num <= MAXID && multiset(pool) == multiset(left) + multiset(Range(pgno, num))
  }
}
