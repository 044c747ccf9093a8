/** mdb_get, mdb_put and mdb_del on a database, against a finite map. */
module BTreeMap {
  import opened SplitPoint
  import opened BTree
  import opened BTreeInsert
  import opened BTreeInsertProof
  import opened BTreeDelete
  import opened BTreeDeleteProof

  datatype Root = NoRoot | Root(t: Tree)

  /** md_root and md_depth. */
  datatype Db = Db(root: Root, depth: nat)

  datatype Got = NotFound | Found(dlen: nat, val: int)
  datatype Result = KeyExist | KeyMissing | PageFull | Ok(db: Db)

  // ---------------------------------------------------------------- operations

  function Find(t: Tree, rank: int): Got
    requires Sized(t)
    decreases t
  {
    match t
    case Leaf(es) =>
      if BTreeInsert.Found(es, rank) then var e := es[LeafIndex(es, rank)]; Found(e.dlen, e.val) else NotFound
    case Branch(keys, kids) => Find(kids[ChildIndex(keys, rank)], rank)
  }

  ghost predicate SizedDb(db: Db) { db.root.Root? ==> Sized(db.root.t) && Bushy(db.root.t) }

  function Get(db: Db, rank: int): Got
    requires SizedDb(db)
  {
    if db.root.NoRoot? then NotFound else Find(db.root.t, rank)
  }

  /** The last entry, which mdb_cursor_last finds. */
  function LastRank(t: Tree): int
    requires Sized(t)
    decreases t
  {
    match t
    case Leaf(es) => if |es| == 0 then 0 else es[|es| - 1].key.rank
    case Branch(_, kids) => LastRank(kids[|kids| - 1])
  }

  /** mdb_put.  reuse: overflow pages of an old value are dirty and large enough to be overwritten. */
  function Put(db: Db, key: Key, dlen: nat, val: int, append: bool, nooverwrite: bool, reuse: bool): Result
    requires SizedDb(db) && KeyOk(key)
  {
    var e := NewEntry(key, dlen, val);
    match db.root
    case NoRoot =>
      EmptyLeafSized();
      RootOf(PutTree(Leaf([]), e, append, reuse), 1)
    case Root(t) =>
      if append && key.rank <= LastRank(t) then KeyExist
      else if nooverwrite && Find(t, key.rank).Found? then KeyExist
      else RootOf(PutTree(t, e, append, reuse), db.depth)
  }

  /** A split root gets a new root page above it. */
  function RootOf(res: PutRes, depth: nat): Result {
    match res
    case Full => PageFull
    case One(t) => Ok(Db(Root(t), depth))
    case Two(l, sep, r) => Ok(Db(Root(Branch([NOKEY, sep], [l, r])), depth + 1))
  }

  /** mdb_rebalance at the root: drop an empty root, skip a root with one child. */
  function Collapse(t: Tree, depth: nat): Db
    requires Movable(t)
  {
    if NumKeys(t) == 0 then Db(NoRoot, 0)
    else if t.Branch? && |t.keys| == 1 then Db(Root(t.kids[0]), if depth > 0 then depth - 1 else 0)
    else Db(Root(t), depth)
  }

  function RootAfter(res: DelRes, depth: nat): Db
    requires res.Done? || res.Halves? || (res.Check? && Movable(res.t))
  {
    match res
    case Done(t) => Db(Root(t), depth)
    case Check(t) => Collapse(t, depth)
    case Halves(l, sep, r) => Db(Root(Branch([NOKEY, sep], [l, r])), depth + 1)
  }

  /** mdb_del */
  function Del(db: Db, rank: int): Result
    requires SizedDb(db)
  {
    if db.root.NoRoot? then KeyMissing
    else
      var res := DelTree(db.root.t, rank);
      if res.Missing? then KeyMissing else if res.Stuck? then PageFull else Ok(RootAfter(res, db.depth))
  }

  lemma EmptyLeafSized()
    ensures Sized(Leaf([]))
  {
    assert LeafSizes([]) == [];
  }

  // ---------------------------------------------------------------- meaning

  /** The entries as a map from key rank to data. */
  function AsMap(es: seq<Entry>): map<int, (nat, int)> {
    if |es| == 0 then map[] else
      var e := es[|es| - 1]; AsMap(es[..|es| - 1])[e.key.rank := (e.dlen, e.val)]
  }

  function Contents(db: Db): map<int, (nat, int)> {
    if db.root.NoRoot? then map[] else AsMap(Flat(db.root.t))
  }

  ghost predicate Spanned(t: Tree, d: nat) { exists lo, hi :: Good(t, d, lo, hi) }

  /** Uniform depth, sorted, separated, every page fits and holds its minimum of nodes. */
  ghost predicate Wf(db: Db) {
    match db.root
    case NoRoot => db.depth == 0
    case Root(t) => db.depth >= 1 && Bushy(t) && Sized(t) && Spanned(t, db.depth - 1)
  }

  lemma {:induction false} AsMapCat(a: seq<Entry>, b: seq<Entry>)
    ensures AsMap(a + b) == AsMap(a) + AsMap(b)
    decreases |b|
  {
    if |b| == 0 {
      assert a + b == a;
    } else {
      AsMapCat(a, b[..|b| - 1]);
      assert (a + b)[..|a + b| - 1] == a + b[..|b| - 1];
    }
  }

  lemma {:induction false} AsMapKeys(es: seq<Entry>)
    requires SortedEs(es)
    ensures forall r :: r in AsMap(es) <==> exists i :: 0 <= i < |es| && es[i].key.rank == r
    ensures forall i :: 0 <= i < |es| ==> AsMap(es)[es[i].key.rank] == (es[i].dlen, es[i].val)
  {
    if |es| > 0 {
      var f, n := es[..|es| - 1], |es| - 1;
      AsMapKeys(f);
      forall r | r in AsMap(es) ensures exists i :: 0 <= i < |es| && es[i].key.rank == r {
        if r != es[n].key.rank {
          var i :| 0 <= i < |f| && f[i].key.rank == r;
          assert es[i].key.rank == r;
        }
      }
      forall i | 0 <= i < |es|
        ensures es[i].key.rank in AsMap(es) && AsMap(es)[es[i].key.rank] == (es[i].dlen, es[i].val)
      {
        if i < n { assert f[i] == es[i]; }
      }
    }
  }

  lemma OneMap(x: Entry)
    ensures AsMap([x]) == map[x.key.rank := (x.dlen, x.val)]
  {
    assert [x][..0] == [];
  }

  /** The map of three parts whose last one does not mention k. */
  lemma ThreeMaps(a: seq<Entry>, x: Entry, b: seq<Entry>)
    requires x.key.rank !in AsMap(b)
    ensures AsMap(a + [x] + b) == AsMap(a + b)[x.key.rank := (x.dlen, x.val)]
    ensures x.key.rank !in AsMap(a) ==> AsMap(a + b) == AsMap(a + [x] + b) - {x.key.rank}
  {
    AsMapCat(a, [x]); AsMapCat(a + [x], b); AsMapCat(a, b);
    OneMap(x);
    PutBetween(AsMap(a), AsMap(b), x.key.rank, (x.dlen, x.val));
  }

  lemma PutBetween(a: map<int, (nat, int)>, b: map<int, (nat, int)>, k: int, v: (nat, int))
    requires k !in b
    ensures a + map[k := v] + b == (a + b)[k := v]
    ensures k !in a ==> a + b == (a + map[k := v] + b) - {k}
  {
  }

  lemma NotInTail(es: seq<Entry>, a: seq<Entry>, x: Entry, b: seq<Entry>)
    requires SortedEs(es) && es == a + [x] + b
    ensures x.key.rank !in AsMap(a) && x.key.rank !in AsMap(b)
  {
    var n := |a|;
    assert es[n] == x;
    assert forall i :: 0 <= i < |a| ==> a[i] == es[i];
    assert forall i :: 0 <= i < |b| ==> b[i] == es[n + 1 + i];
    AsMapKeys(a);
    AsMapKeys(b);
  }

  lemma UpsertedMap(was: seq<Entry>, now: seq<Entry>, e: Entry)
    requires Upserted(was, now, e) && SortedEs(now)
    ensures AsMap(now) == AsMap(was)[e.key.rank := (e.dlen, e.val)]
  {
    var p: nat, q: nat, x: Entry :| UpsertAt(was, now, e, p, q, x);
    var a, b := was[..p], was[q..];
    NotInTail(now, a, x, b);
    ThreeMaps(a, x, b);
    if q == p {
      assert was == a + b;
    } else {
      assert was == a + [was[p]] + b;
      ThreeMaps(a, was[p], b);
    }
  }

  lemma RemovedMap(was: seq<Entry>, now: seq<Entry>, rank: int)
    requires Removed(was, now, rank) && SortedEs(was)
    ensures rank in AsMap(was) && AsMap(now) == AsMap(was) - {rank}
  {
    var p: nat :| RemovedAt(was, now, rank, p);
    var a, x, b := was[..p], was[p], was[p + 1..];
    assert was == a + [x] + b;
    NotInTail(was, a, x, b);
    ThreeMaps(a, x, b);
  }

  // ---------------------------------------------------------------- mdb_get

  lemma {:induction false} FindIsLookup(t: Tree, rank: int, d: nat, lo: int, hi: int)
    requires Good(t, d, lo, hi) && lo <= rank < hi
    ensures match Find(t, rank)
      case NotFound => forall i :: 0 <= i < |Flat(t)| ==> Flat(t)[i].key.rank != rank
      case Found(dlen, val) =>
        exists i :: 0 <= i < |Flat(t)| && Flat(t)[i].key.rank == rank && Flat(t)[i].dlen == dlen && Flat(t)[i].val == val
    decreases d
  {
    match t
    case Leaf(es) =>
      if BTreeInsert.Found(es, rank) {
        assert es[LeafIndex(es, rank)] == Flat(t)[LeafIndex(es, rank)];
      } else {
        BTreeDeleteProof.NotFound(es, rank);
      }
    case Branch(keys, kids) =>
      var i := ChildIndex(keys, rank);
      ChildIndexOk(keys, lo, hi, rank);
      FindIsLookup(kids[i], rank, d - 1, Lo(keys, lo, i), Hi(keys, hi, i));
      if Find(kids[i], rank).NotFound? {
        MissingElsewhere(keys, kids, d, lo, hi, i, rank);
      } else {
        FlatAt(kids, i);
        var f := Flat(kids[i]);
        var j :| 0 <= j < |f| && f[j].key.rank == rank && f[j].dlen == Find(t, rank).dlen && f[j].val == Find(t, rank).val;
        assert Flat(t)[|FlatAll(kids[..i])| + j] == f[j];
      }
  }

  lemma WideBounds(t: Tree, d: nat, rank: int) returns (lo: int, hi: int)
    requires Spanned(t, d)
    ensures Good(t, d, lo, hi) && lo <= rank < hi
  {
    var l, h :| Good(t, d, l, h);
    lo := if l <= rank then l else rank;
    hi := if rank < h then h else rank + 1;
    Widen(t, d, l, h, lo, hi);
  }

  /** A search of the tree is a lookup in the map. */
  lemma GetIsLookup(db: Db, rank: int)
    requires Wf(db)
    ensures Get(db, rank) == if rank in Contents(db) then Found(Contents(db)[rank].0, Contents(db)[rank].1) else NotFound
  {
    if db.root.Root? {
      var t := db.root.t;
      var lo, hi := WideBounds(t, db.depth - 1, rank);
      FindIsLookup(t, rank, db.depth - 1, lo, hi);
      FlatSorted(t, db.depth - 1, lo, hi);
      AsMapKeys(Flat(t));
    }
  }

  // ---------------------------------------------------------------- mdb_put

  lemma RootTwo(l: Tree, sep: Key, r: Tree, d: nat, lo: int, hi: int)
    requires Good(l, d, lo, sep.rank) && Good(r, d, sep.rank, hi) && lo < sep.rank < hi && KeyOk(sep)
    ensures var t := Branch([NOKEY, sep], [l, r]); Good(t, d + 1, lo, hi) && Bushy(t) && Flat(t) == Flat(l) + Flat(r)
  {
    var t := Branch([NOKEY, sep], [l, r]);
    TwoOrdered(l, sep, r, d + 1, lo, hi);
    KeySumAtMost(t.keys);
    GoodIsBushy(t, d + 1, lo, hi);
    FlatTwo(l, r);
  }

  lemma FlatTwo(l: Tree, r: Tree)
    ensures FlatAll([l, r]) == Flat(l) + Flat(r)
  {
    FlatCat([l], [r]); FlatOne(l); FlatOne(r);
    assert [l] + [r] == [l, r];
  }

  /** mdb_put with MDB_APPEND is refused exactly for keys that are not above the last one. */
  lemma {:induction false} LastIsMax(t: Tree, d: nat, lo: int, hi: int)
    requires Good(t, d, lo, hi)
    ensures |Flat(t)| >= 1 && LastRank(t) == Flat(t)[|Flat(t)| - 1].key.rank
    decreases d
  {
    if t.Branch? {
      var n := |t.kids| - 1;
      LastIsMax(t.kids[n], d - 1, Lo(t.keys, lo, n), Hi(t.keys, hi, n));
    }
  }

  lemma AppendRefused(db: Db, key: Key, dlen: nat, val: int, reuse: bool)
    requires Wf(db) && KeyOk(key)
    ensures Put(db, key, dlen, val, true, false, reuse).KeyExist? <==> exists r :: r in Contents(db) && key.rank <= r
  {
    if db.root.Root? {
      var t := db.root.t;
      var lo, hi := WideBounds(t, db.depth - 1, key.rank);
      var flat := Flat(t);
      LastIsMax(t, db.depth - 1, lo, hi);
      FlatSorted(t, db.depth - 1, lo, hi);
      AsMapKeys(flat);
      if key.rank <= LastRank(t) {
        assert flat[|flat| - 1].key.rank in Contents(db);
      }
    }
  }

  /** MDB_KEYEXIST: with MDB_NOOVERWRITE for a key that is there, with MDB_APPEND for one that is not above all others. */
  ghost predicate Refused(db: Db, key: Key, append: bool, nooverwrite: bool) {
    (nooverwrite && key.rank in Contents(db)) || (append && exists r :: r in Contents(db) && key.rank <= r)
  }

  /** Exactly when mdb_put is refused, for every combination of flags. */
  lemma RefusedExactly(db: Db, key: Key, dlen: nat, val: int, append: bool, nooverwrite: bool, reuse: bool)
    requires Wf(db) && KeyOk(key)
    ensures Put(db, key, dlen, val, append, nooverwrite, reuse).KeyExist? <==> Refused(db, key, append, nooverwrite)
  {
    GetIsLookup(db, key.rank);
    AppendRefused(db, key, dlen, val, reuse);
  }

  /** A successful mdb_put yields exactly the old map with the key set, in a well-formed tree whose
      md_depth is its depth. */
  lemma PutIsUpdate(db: Db, key: Key, dlen: nat, val: int, append: bool, nooverwrite: bool, reuse: bool)
    requires Wf(db) && KeyOk(key)
    ensures match Put(db, key, dlen, val, append, nooverwrite, reuse)
      case Ok(db') =>
        !Refused(db, key, append, nooverwrite) && Wf(db') && Contents(db') == Contents(db)[key.rank := (dlen, val)]
      case KeyExist => Refused(db, key, append, nooverwrite)
      case PageFull => !Refused(db, key, append, nooverwrite)
      case KeyMissing => false
  {
    var e := NewEntry(key, dlen, val);
    RefusedExactly(db, key, dlen, val, append, nooverwrite, reuse);
    var res := Put(db, key, dlen, val, append, nooverwrite, reuse);
    if res.Ok? {
      var t := if db.root.Root? then db.root.t else Leaf([]);
      var d := if db.root.Root? then db.depth - 1 else 0;
      var lo, hi;
      if db.root.Root? {
        lo, hi := WideBounds(t, d, key.rank);
        PutTreeGood(t, e, append, reuse, d, lo, hi);
      } else {
        EmptyLeafSized();
        lo, hi := key.rank, key.rank + 1;
        PutLeafGood([], e, false, reuse, lo, hi);
      }
      var r := PutTree(t, e, append, reuse);
      PutRootGood(r, Flat(t), e, d, lo, hi);
    }
  }

  lemma PutRootGood(r: PutRes, was: seq<Entry>, e: Entry, d: nat, lo: int, hi: int)
    requires PutGood(r, was, e, d, lo, hi) && !r.Full?
    ensures var res := RootOf(r, d + 1); res.Ok? && Wf(res.db) && Contents(res.db) == AsMap(was)[e.key.rank := (e.dlen, e.val)]
  {
    if r.One? {
      GoodIsBushy(r.t, d, lo, hi);
      FlatSorted(r.t, d, lo, hi);
      UpsertedMap(was, Flat(r.t), e);
    } else {
      var t := Branch([NOKEY, r.sep], [r.l, r.r]);
      RootTwo(r.l, r.sep, r.r, d, lo, hi);
      FlatSorted(t, d + 1, lo, hi);
      UpsertedMap(was, Flat(t), e);
    }
  }

  // ---------------------------------------------------------------- mdb_del

  lemma CollapseGood(t: Tree, d: nat, lo: int, hi: int)
    requires Loose(t, d, lo, hi) && Movable(t)
    ensures Wf(Collapse(t, d + 1)) && Contents(Collapse(t, d + 1)) == AsMap(Flat(t))
  {
    if NumKeys(t) == 0 {
      assert t.es == [];
    } else if t.Branch? && |t.keys| == 1 {
      OnlyKid(t, d, lo, hi);
      RootWf(t.kids[0], d - 1, lo, hi);
    } else {
      RootWf(t, d, lo, hi);
    }
  }

  lemma RootWf(t: Tree, d: nat, lo: int, hi: int)
    requires Good(t, d, lo, hi)
    ensures Wf(Db(Root(t), d + 1))
  {
    assert Spanned(t, d);
    GoodIsBushy(t, d, lo, hi);
  }

  lemma OnlyKid(t: Tree, d: nat, lo: int, hi: int)
    requires Ordered(t, d, lo, hi) && Sized(t) && t.Branch? && |t.keys| == |t.kids| == 1
    ensures d > 0 && Good(t.kids[0], d - 1, lo, hi) && Flat(t) == Flat(t.kids[0])
  {
    FlatOne(t.kids[0]);
    assert t.kids == [t.kids[0]];
  }

  lemma DelRootGood(res: DelRes, was: seq<Entry>, rank: int, d: nat, lo: int, hi: int)
    requires DelGood(res, was, rank, d, lo, hi) && SortedEs(was) && (res.Check? ==> Movable(res.t))
    requires res.Done? || res.Check? || res.Halves?
    ensures var db := RootAfter(res, d + 1); Wf(db) && rank in AsMap(was) && Contents(db) == AsMap(was) - {rank}
  {
    match res
    case Done(t) =>
      GoodIsBushy(t, d, lo, hi);
      RemovedMap(was, Flat(t), rank);
    case Check(t) =>
      CollapseGood(t, d, lo, hi);
      RemovedMap(was, Flat(t), rank);
    case Halves(l, sep, r) =>
      RootTwo(l, sep, r, d, lo, hi);
      RemovedMap(was, Flat(l) + Flat(r), rank);
  }

  /** mdb_del removes exactly the key, keeps the tree well formed and reports a missing key as such. */
  lemma DelIsRemoval(db: Db, rank: int)
    requires Wf(db)
    ensures match Del(db, rank)
      case Ok(db') => Wf(db') && rank in Contents(db) && Contents(db') == Contents(db) - {rank}
      case KeyMissing => rank !in Contents(db)
      case PageFull => rank in Contents(db)
      case KeyExist => false
  {
    if db.root.Root? {
      var t, d := db.root.t, db.depth - 1;
      var lo, hi := WideBounds(t, d, rank);
      DelTreeGood(t, rank, d, lo, hi);
      FlatSorted(t, d, lo, hi);
      GetIsLookup(db, rank);
      var res := DelTree(t, rank);
      if res.Missing? {
        AsMapKeys(Flat(t));
      } else if res.Stuck? {
        StuckWasThere(t, rank, d, lo, hi);
      } else {
        DelRootGood(res, Flat(t), rank, d, lo, hi);
      }
    }
  }

  /** MDB_PAGE_FULL only arises after the key was found. */
  lemma {:induction false} StuckWasThere(t: Tree, rank: int, d: nat, lo: int, hi: int)
    requires Good(t, d, lo, hi) && Bushy(t) && !DelTree(t, rank).Missing?
    ensures Find(t, rank).Found?
    decreases d
  {
    if t.Branch? {
      var i := ChildIndex(t.keys, rank);
      StuckWasThere(t.kids[i], rank, d - 1, Lo(t.keys, lo, i), Hi(t.keys, hi, i));
    }
  }

  // ---------------------------------------------------------------- laws

  /** What is put is got, nothing else changes, and deleting it again restores the map. */
  lemma PutGetDel(db: Db, key: Key, dlen: nat, val: int, append: bool, nooverwrite: bool, reuse: bool, other: int)
    requires Wf(db) && KeyOk(key) && other != key.rank
    requires Put(db, key, dlen, val, append, nooverwrite, reuse).Ok?
    ensures var db' := Put(db, key, dlen, val, append, nooverwrite, reuse).db;
      && Wf(db') && Get(db', key.rank) == Found(dlen, val) && Get(db', other) == Get(db, other)
      && !Del(db', key.rank).KeyMissing?
      && (Del(db', key.rank).Ok? && key.rank !in Contents(db) ==> Contents(Del(db', key.rank).db) == Contents(db))
  {
    PutIsUpdate(db, key, dlen, val, append, nooverwrite, reuse);
    var db' := Put(db, key, dlen, val, append, nooverwrite, reuse).db;
    GetIsLookup(db', key.rank);
    GetIsLookup(db', other);
    GetIsLookup(db, other);
    DelIsRemoval(db', key.rank);
  }
}
