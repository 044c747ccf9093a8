/** Runs of nested write transactions refine a stack of page maps. */
module TxnSteps {
  import opened Idl
  import opened Id2l
  import opened SpillList
  import opened Spill
  import opened TxnPages
  import DirtyMerge

  datatype Step =
    | Begin | New(p: Id, data: Bytes) | Copy(p: Id) | Write(p: Id, data: Bytes) | DoSpill | Unspill(p: Id)
    | Drop(p: Id) | Release(p: Id) | Join | Abort

  /** What a step means to the stack of page maps: maps[0] is what the innermost transaction sees. */
  function Meaning(maps: seq<Pages>, step: Step): seq<Pages>
    requires |maps| > 0 && (step.Join? || step.Abort? ==> |maps| > 1)
  {
    match step
    case Begin => [maps[0]] + maps
    case New(p, data) => [maps[0][p := data]] + maps[1..]
    case Write(p, data) => [maps[0][p := data]] + maps[1..]
    case Copy(_) => maps
    case DoSpill => maps
    case Unspill(_) => maps
    case Drop(p) => [maps[0] - {p}] + maps[1..]
    case Release(p) => [maps[0] - {p}] + maps[1..]
    case Join => [maps[0]] + maps[2..]
    case Abort => maps[1..]
  }

  // ---------------------------------------------------------------- the steps on the lists

  /** The dirty list gains page p with the given contents. */
  ghost predicate Gains(d: seq<ID2>, e: seq<ID2>, p: Id, data: Bytes) {
    p > 0 && 2 * p < MAXID && exists x: nat, keep: bool :: Inserted(d, e, ID2(p, Page(p, keep, data)), x)
  }

  ghost predicate Replaced(d: seq<ID2>, e: seq<ID2>, p: Id, data: Bytes) {
    exists k: nat :: k < |d| && d[k].mid == p && e == d[k := ID2(p, d[k].mptr.(data := data))]
  }

  ghost predicate Removed(d: seq<ID2>, e: seq<ID2>, p: Id) {
    exists k: nat :: k < |d| && d[k].mid == p && e == d[..k] + d[k + 1..]
  }

  /** Only the innermost transaction changes. */
  ghost predicate TopOnly(s: State, t: State) {
    |t.chain| == |s.chain| > 0 && t.chain[1..] == s.chain[1..]
  }

  /** mdb_txn_begin with a parent. */
  ghost predicate BeginStep(s: State, t: State)
    requires |s.chain| > 0
  {
    t == s.(chain := [Level([], [], s.chain[0].room)] + s.chain)
  }

  /** mdb_page_alloc and mdb_page_dirty: p is in nobody's tree and on nobody's list. */
  ghost predicate NewStep(s: State, t: State, maps: seq<Pages>, p: Id, data: Bytes) {
    && TopOnly(s, t) && t.disk == s.disk && t.lost == s.lost && Absent(maps, p) && !Mine(s.chain, p)
    && Gains(s.chain[0].dirty, t.chain[0].dirty, p, data)
    && t.chain[0].spill == s.chain[0].spill && t.chain[0].room == s.chain[0].room - 1 >= 0
  }

  /** mdb_page_touch in a nested transaction, for a page that an ancestor has dirty (mdb.c:2017-2042). */
  ghost predicate CopyStep(s: State, t: State, p: Id) {
    && TopOnly(s, t) && t.disk == s.disk && t.lost == s.lost
    && FoundDirty(s.chain, p) && Get(s.chain[0].dirty, p).None? && View(s.chain, s.disk, p).Some?
    && Gains(s.chain[0].dirty, t.chain[0].dirty, p, View(s.chain, s.disk, p).value)
    && t.chain[0].spill == s.chain[0].spill && t.chain[0].room == s.chain[0].room
  }

  /** The transaction changes a page that it has dirty. */
  ghost predicate WriteStep(s: State, t: State, p: Id, data: Bytes) {
    && TopOnly(s, t) && t.disk == s.disk && t.lost == s.lost
    && Replaced(s.chain[0].dirty, t.chain[0].dirty, p, data)
    && t.chain[0].spill == s.chain[0].spill && t.chain[0].room == s.chain[0].room
  }

  ghost function Ups(chain: seq<Level>): seq<seq<Id>> {
    if |chain| == 0 then [] else [chain[0].spill] + Ups(chain[1..])
  }

  /** mdb_page_spill. */
  ghost predicate SpillsStep(s: State, t: State) {
    && TopOnly(s, t) && t.lost == s.lost
    && SpillStep(s.chain[0].dirty, t.chain[0].dirty, s.chain[0].spill, t.chain[0].spill, Ups(s.chain[1..]), s.disk, t.disk)
    && Asc(t.chain[0].dirty) && Tidy(t.chain[0].dirty) && Small(t.chain[0].dirty) && Ordered(t.chain[0].spill)
    && t.chain[0].room == s.chain[0].room + |s.chain[0].dirty| - |t.chain[0].dirty|
  }

  /** mdb_page_unspill of a page that was found through a spill list. */
  ghost predicate UnspillStep(s: State, t: State, p: Id) {
    && TopOnly(s, t) && t.disk == s.disk && t.lost == s.lost
    && FoundSpilled(s.chain, p) && Get(s.chain[0].dirty, p).None? && p in s.disk
    && Gains(s.chain[0].dirty, t.chain[0].dirty, p, s.disk[p]) && t.chain[0].room == s.chain[0].room - 1 >= 0
    && SpillDrop(s.chain[0].spill, t.chain[0].spill, p)
  }

  ghost predicate SpillDrop(sp: seq<Id>, sq: seq<Id>, p: Id) {
    if Live(sp, p) then Unlisted(sp, sq, 2 * p) else sq == sp
  }

  /** mdb_ovpage_free in a top-level transaction: a page of this transaction goes back to me_pghead. */
  ghost predicate ReleaseStep(s: State, t: State, p: Id) {
    && TopOnly(s, t) && |s.chain| == 1 && t.disk == s.disk && t.chain[0].room == s.chain[0].room
    && SpillDrop(s.chain[0].spill, t.chain[0].spill, p)
    && if Live(s.chain[0].spill, p) then t.chain[0].dirty == s.chain[0].dirty && t.lost == s.lost
       else Removed(s.chain[0].dirty, t.chain[0].dirty, p) && t.lost == s.lost + 1
  }

  /** The spill lists join: pages that the child has dirty leave the parent's, then the child's is appended. */
  ghost predicate SpillsJoin(child: Level, parent: Level, l: Level) {
    && l.room == child.room && Sorted(l.spill)
    && exists sq :: Squashed(parent.spill, sq, Doubled(child.dirty)) && multiset(l.spill) == multiset(sq + child.spill)
  }

  /** mdb_txn_commit of a nested transaction, as to its lists (mdb.c:2957-3022), when the dirty lists merge well. */
  ghost predicate Joined(child: Level, parent: Level, l: Level) {
    l.dirty == DirtyMerge.Union(parent.dirty, child.dirty) && SpillsJoin(child, parent, l)
  }

  /** The same with the length that is given for the joined dirty list; see DirtyMerge.JoinDirty. */
  ghost predicate JoinedAs(child: Level, parent: Level, len: nat, l: Level) {
    && DirtyMerge.Fits(parent.dirty, child.dirty, len) && SpillsJoin(child, parent, l)
    && exists slots :: MergedIn(slots, parent.dirty, child.dirty, len, l.dirty)
  }

  /** The parent's list lies in the slots of its array, and the merge leaves list r there. */
  ghost predicate MergedIn(slots: seq<ID2>, d: seq<ID2>, e: seq<ID2>, len: nat, r: seq<ID2>) {
    |slots| == MDB_IDL_UM_MAX && d <= slots && DirtyMerge.MergedTo(slots, d, e, len, r)
  }

  /** That length: counted, or with a top-level parent taken from the child's room (mdb.c:2983-2997). */
  ghost function JoinLen(chain: seq<Level>): int
    requires |chain| > 1
  {
    if |chain| > 2 then |DirtyMerge.Union(chain[1].dirty, chain[0].dirty)| else MDB_IDL_UM_MAX - chain[0].room
  }

  ghost predicate JoinStep(s: State, t: State) {
    && |s.chain| > 1 && |t.chain| == |s.chain| - 1 && t.chain[1..] == s.chain[2..] && t.disk == s.disk && t.lost == s.lost
    && 0 <= JoinLen(s.chain) <= MDB_IDL_UM_MAX && JoinedAs(s.chain[0], s.chain[1], JoinLen(s.chain), t.chain[0])
  }

  /** The pages that the child has spilled and its parent still holds dirty. */
  ghost predicate Stale(child: Level, parent: Level, p: Id) { Live(child.spill, p) && Get(parent.dirty, p).Some? }

  /**
   * What it takes for a nested commit to go well: no page of the parent has gone stale, and into a top-level transaction
   * no dirty page was given back to me_pghead.
   */
  ghost predicate ProperJoin(s: State)
    requires |s.chain| > 1
  {
    (|s.chain| == 2 ==> s.lost == 0) && forall p: Id :: !Stale(s.chain[0], s.chain[1], p)
  }

  /** mdb_txn_abort of a nested transaction. */
  ghost predicate AbortStep(s: State, t: State) {
    |s.chain| > 1 && t == s.(chain := s.chain[1..])
  }

  ghost predicate Next(s: State, t: State, maps: seq<Pages>, step: Step) {
    && |s.chain| > 0 && |maps| == |s.chain|
    && match step
      case Begin => BeginStep(s, t)
      case New(p, data) => NewStep(s, t, maps, p, data)
      case Copy(p) => CopyStep(s, t, p)
      case Write(p, data) => WriteStep(s, t, p, data)
      case DoSpill => SpillsStep(s, t)
      case Unspill(p) => UnspillStep(s, t, p)
      case Drop(p) => t == s
      case Release(p) => ReleaseStep(s, t, p)
      case Join => JoinStep(s, t)
      case Abort => AbortStep(s, t)
  }

  // ---------------------------------------------------------------- what the list steps do page by page

  lemma GainsKeeps(d: seq<ID2>, e: seq<ID2>, p: Id, data: Bytes, q: Id)
    requires Asc(d) && Gains(d, e, p, data) && Get(d, p).None?
    ensures Asc(e) && Data(Get(e, q)) == if q == p then Some(data) else Data(Get(d, q))
  {
    var x: nat, keep: bool :| Inserted(d, e, ID2(p, Page(p, keep, data)), x);
    InsertKeeps(d, e, ID2(p, Page(p, keep, data)), x, q);
  }

  lemma GainsTidy(d: seq<ID2>, e: seq<ID2>, p: Id, data: Bytes)
    requires Gains(d, e, p, data)
    ensures (Tidy(d) ==> Tidy(e)) && (Small(d) ==> Small(e)) && |e| == |d| + 1
  {
  }

  lemma ReplacedKeeps(d: seq<ID2>, e: seq<ID2>, p: Id, data: Bytes, q: Id)
    requires Asc(d) && Replaced(d, e, p, data)
    ensures Asc(e) && (Tidy(d) ==> Tidy(e)) && (Small(d) ==> Small(e)) && |e| == |d|
    ensures Get(d, p).Some? && Data(Get(e, q)) == if q == p then Some(data) else Data(Get(d, q))
  {
    var k: nat :| k < |d| && d[k].mid == p && e == d[k := ID2(p, d[k].mptr.(data := data))];
    SameNumbers(d, e);
    Unique(d, k);
    Unique(e, k);
    if q != p {
      ReplacedGet(d, k, e[k], q);
    }
  }

  lemma ReplacedGet(d: seq<ID2>, k: nat, x: ID2, q: Id)
    requires k < |d| && x.mid == d[k].mid != q
    ensures Get(d[k := x], q) == Get(d, q)
  {
    assert d == d[..k] + [d[k]] + d[k + 1..] && d[k := x] == d[..k] + [x] + d[k + 1..];
    OtherGet(d[..k], d[k], d[k + 1..], q);
    OtherGet(d[..k], x, d[k + 1..], q);
  }

  lemma SameNumbers(d: seq<ID2>, e: seq<ID2>)
    requires |e| == |d| && forall k :: 0 <= k < |d| ==> e[k].mid == d[k].mid && e[k].mptr.pgno == d[k].mptr.pgno
    ensures (Asc(d) ==> Asc(e)) && (Tidy(d) ==> Tidy(e)) && (Small(d) ==> Small(e))
  {
  }

  /** An entry for another page makes no difference. */
  lemma OtherGet(a: seq<ID2>, x: ID2, b: seq<ID2>, q: Id)
    requires x.mid != q
    ensures Get(a + [x] + b, q) == Get(a + b, q)
  {
    GetCat(a + [x], b, q);
    GetCat(a, [x], q);
    GetCat(a, b, q);
  }

  lemma AbsentIn(s: seq<ID2>, q: Id)
    requires forall k :: 0 <= k < |s| ==> s[k].mid != q
    ensures Get(s, q).None?
  {
    GetMeans(s, q);
  }

  lemma RemovedKeeps(d: seq<ID2>, e: seq<ID2>, p: Id, q: Id)
    requires Asc(d) && Removed(d, e, p)
    ensures Asc(e) && (Tidy(d) ==> Tidy(e)) && (Small(d) ==> Small(e)) && |e| == |d| - 1
    ensures Get(d, p).Some? && Get(e, q) == if q == p then None else Get(d, q)
  {
    var k: nat :| k < |d| && d[k].mid == p && e == d[..k] + d[k + 1..];
    RemovedAsc(d, e, k);
    Unique(d, k);
    if q == p {
      AbsentIn(e, q);
    } else {
      RemovedGet(d, k, q);
    }
  }

  lemma RemovedGet(d: seq<ID2>, k: nat, q: Id)
    requires k < |d| && d[k].mid != q
    ensures Get(d[..k] + d[k + 1..], q) == Get(d, q)
  {
    assert d == d[..k] + [d[k]] + d[k + 1..];
    OtherGet(d[..k], d[k], d[k + 1..], q);
  }

  lemma RemovedAsc(d: seq<ID2>, e: seq<ID2>, k: nat)
    requires Asc(d) && k < |d| && e == d[..k] + d[k + 1..]
    ensures Asc(e) && (Tidy(d) ==> Tidy(e)) && (Small(d) ==> Small(e)) && forall j :: 0 <= j < |e| ==> e[j].mid != d[k].mid
  {
  }
}
