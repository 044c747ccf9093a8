/**
 * The pages a write transaction sees, through its own and its ancestors' dirty and spill lists, and what nested
 * begin, commit and abort, spilling and unspilling do to them.
 */
module TxnPages {
  import opened Idl
  import opened Id2l
  import opened SpillList
  import opened Spill
  import DirtyMerge

  /** One transaction of the chain: its dirty list, its spill list, mt_dirty_room. */
  datatype Level = Level(dirty: seq<ID2>, spill: seq<Id>, room: int)

  /** The chain of transactions, innermost first, and the pages on disk. */
  datatype State = State(chain: seq<Level>, disk: Disk, lost: nat)

  type Pages = map<Id, Bytes>

  // ---------------------------------------------------------------- mdb_page_get

  function View(chain: seq<Level>, disk: Disk, p: Id): Option<Bytes> {
    if |chain| == 0 || Live(chain[0].spill, p) then At(disk, p)
    else if Get(chain[0].dirty, p).Some? then Some(Get(chain[0].dirty, p).value.data)
    else View(chain[1..], disk, p)
  }

  /** Some transaction of the chain has the page on a list. */
  ghost predicate Mine(chain: seq<Level>, p: Id) {
    |chain| > 0 && (Live(chain[0].spill, p) || Get(chain[0].dirty, p).Some? || Mine(chain[1..], p))
  }

  /** The page as mdb_page_get finds it, and the level of the list it is on, 0 for the map; else MDB_PAGE_NOTFOUND. */
  method PageGet(chain: seq<Level>, disk: Disk, nextPgno: nat, p: Id) returns (found: bool, r: Option<Bytes>, lvl: nat)
    ensures found <==> Mine(chain, p) || p < nextPgno
    ensures found ==> r == View(chain, disk, p)
    ensures lvl > 0 <==> Mine(chain, p)
    ensures lvl > 0 ==> lvl <= |chain| && (Live(chain[lvl - 1].spill, p) || Get(chain[lvl - 1].dirty, p).Some?)
    ensures forall k :: 0 <= k < lvl - 1 ==> !Live(chain[k].spill, p) && Get(chain[k].dirty, p).None?
  {
    var k := 0;
    assert chain[0..] == chain;
    while k < |chain|
      invariant k <= |chain| && View(chain, disk, p) == View(chain[k..], disk, p) && (Mine(chain, p) <==> Mine(chain[k..], p))
      invariant forall j :: 0 <= j < k ==> !Live(chain[j].spill, p) && Get(chain[j].dirty, p).None?
    {
      assert chain[k..][1..] == chain[k + 1..];
      if Live(chain[k].spill, p) {
        return true, At(disk, p), k + 1;
      }
      var page := Get(chain[k].dirty, p);
      if page.Some? {
        return true, Some(page.value.data), k + 1;
      }
      k := k + 1;
    }
    return p < nextPgno, At(disk, p), 0;
  }

  /** The page is found through a spill list. */
  ghost predicate FoundSpilled(chain: seq<Level>, p: Id) {
    |chain| > 0 && (Live(chain[0].spill, p) || (Get(chain[0].dirty, p).None? && FoundSpilled(chain[1..], p)))
  }

  /** The page is found on a dirty list. */
  ghost predicate FoundDirty(chain: seq<Level>, p: Id) {
    |chain| > 0 && !Live(chain[0].spill, p) && (Get(chain[0].dirty, p).Some? || FoundDirty(chain[1..], p))
  }

  // ---------------------------------------------------------------- the invariant

  ghost predicate LevelOk(l: Level) {
    Asc(l.dirty) && Tidy(l.dirty) && Small(l.dirty) && Ordered(l.spill) && Apart(l.dirty, l.spill)
  }

  /** A transaction to which page p matters has it on its own list or an ancestor's: it is no committed page. */
  ghost predicate Covered(chain: seq<Level>, maps: seq<Pages>, p: Id)
    requires |maps| == |chain|
  {
    |chain| > 0 ==> (p in maps[0] ==> Mine(chain, p)) && Covered(chain[1..], maps[1..], p)
  }

  /** Some transaction of the chain has the page spilled. */
  ghost predicate SpilledIn(chain: seq<Level>, p: Id) {
    |chain| > 0 && (Live(chain[0].spill, p) || SpilledIn(chain[1..], p))
  }

  /** A transaction to which page p matters finds it in memory: what is on disk does not matter. */
  ghost predicate Safe(chain: seq<Level>, maps: seq<Pages>, p: Id)
    requires |maps| == |chain|
  {
    |chain| > 0 ==> (p in maps[0] ==> FoundDirty(chain, p)) && Safe(chain[1..], maps[1..], p)
  }

  /** No transaction of the chain cares about page p. */
  ghost predicate Absent(maps: seq<Pages>, p: Id) { forall k :: 0 <= k < |maps| ==> p !in maps[k] }

  ghost predicate TopOk(l: Level, rest: seq<Level>, disk: Disk, m: Pages, maps: seq<Pages>)
    requires |maps| == |rest|
  {
    && LevelOk(l)
    && (forall p: Id :: Live(l.spill, p) ==> !SpilledIn(rest, p))
    && (forall p: Id :: Live(l.spill, p) || Get(l.dirty, p).Some? ==> Covered(rest, maps, p))
    && (forall p: Id :: p in m ==> View([l] + rest, disk, p) == Some(m[p]))
  }

  /** maps[k] is what the k-th transaction of the chain is to see. */
  ghost predicate Inv(chain: seq<Level>, disk: Disk, maps: seq<Pages>) {
    && |maps| == |chain|
    && (|chain| > 0 ==> TopOk(chain[0], chain[1..], disk, maps[0], maps[1..]) && Inv(chain[1..], disk, maps[1..]))
  }

  lemma ViewTop(l: Level, rest: seq<Level>, disk: Disk, p: Id)
    ensures View([l] + rest, disk, p) ==
      if Live(l.spill, p) then At(disk, p)
      else if Get(l.dirty, p).Some? then Some(Get(l.dirty, p).value.data) else View(rest, disk, p)
  {
    assert ([l] + rest)[1..] == rest;
  }

  lemma {:induction false} CoveredSafe(chain: seq<Level>, maps: seq<Pages>, p: Id)
    requires |maps| == |chain| && Covered(chain, maps, p) && !SpilledIn(chain, p)
    ensures Safe(chain, maps, p)
  {
    if |chain| > 0 {
      CoveredSafe(chain[1..], maps[1..], p);
      if Mine(chain, p) { MineFound(chain, p); }
    }
  }

  lemma {:induction false} MineFound(chain: seq<Level>, p: Id)
    requires Mine(chain, p) && !SpilledIn(chain, p)
    ensures FoundDirty(chain, p)
  {
    if Get(chain[0].dirty, p).None? { MineFound(chain[1..], p); }
  }

  lemma {:induction false} FoundView(chain: seq<Level>, disk: Disk, other: Disk, p: Id)
    requires FoundDirty(chain, p)
    ensures View(chain, other, p) == View(chain, disk, p)
  {
    if Get(chain[0].dirty, p).None? { FoundView(chain[1..], disk, other, p); }
  }

  lemma {:induction false} AbsentCovered(chain: seq<Level>, maps: seq<Pages>, p: Id)
    requires |maps| == |chain| && Absent(maps, p)
    ensures Covered(chain, maps, p)
  {
    if |chain| > 0 {
      assert Absent(maps[1..], p);
      AbsentCovered(chain[1..], maps[1..], p);
    }
  }

  /** A page that is found on a list matters to nobody above that list who does not know it. */
  lemma {:induction false} FoundCovered(chain: seq<Level>, disk: Disk, maps: seq<Pages>, p: Id)
    requires Inv(chain, disk, maps) && (FoundSpilled(chain, p) || FoundDirty(chain, p))
    ensures Mine(chain, p) && Covered(chain, maps, p)
  {
    if !Live(chain[0].spill, p) && Get(chain[0].dirty, p).None? {
      FoundCovered(chain[1..], disk, maps[1..], p);
    }
  }

  lemma {:induction false} FoundOnDisk(chain: seq<Level>, disk: Disk, p: Id)
    requires FoundSpilled(chain, p)
    ensures View(chain, disk, p) == At(disk, p)
  {
    if !Live(chain[0].spill, p) { FoundOnDisk(chain[1..], disk, p); }
  }

  /** Writing pages that nobody in the chain looks for on disk. */
  lemma {:induction false} DiskFrame(chain: seq<Level>, disk: Disk, other: Disk, maps: seq<Pages>)
    requires Inv(chain, disk, maps) && forall p: Id :: At(other, p) == At(disk, p) || Safe(chain, maps, p)
    ensures Inv(chain, other, maps)
  {
    if |chain| > 0 {
      DiskFrame(chain[1..], disk, other, maps[1..]);
      assert [chain[0]] + chain[1..] == chain;
      forall p: Id | p in maps[0] ensures View(chain, other, p) == Some(maps[0][p]) {
        assert View(chain, disk, p) == Some(maps[0][p]);
        if At(other, p) == At(disk, p) { SameView(chain, disk, other, p); } else { FoundView(chain, disk, other, p); }
      }
    }
  }

  lemma {:induction false} SameView(chain: seq<Level>, disk: Disk, other: Disk, p: Id)
    requires At(other, p) == At(disk, p)
    ensures View(chain, other, p) == View(chain, disk, p)
  {
    if |chain| > 0 { SameView(chain[1..], disk, other, p); }
  }
}
