/** Exactly when mdb_put and mdb_del end in MDB_PAGE_FULL. */
module BTreeRoom {
  import opened SplitPoint
  import opened BTree
  import opened BTreeInsert
  import opened BTreeInsertProof
  import opened BTreeDelete
  import opened BTreeDeleteProof
  import opened BTreeMap

  /** The nodes fit on the page, or the point where it is split is searched by size (mdb.c:7689). */
  ghost predicate Searched(sizes: seq<nat>, newindx: nat) {
    newindx < |sizes| && (Sum(sizes) <= PMAX || BySize(PMAX, sizes, newindx))
  }

  lemma CutFits(sizes: seq<nat>, newindx: nat)
    requires Placeable(sizes, newindx) && Sum(sizes) > PMAX && Searched(sizes, newindx)
    ensures var s := Cut(sizes, newindx); Sum(sizes[..s]) <= PMAX && Sum(sizes[s..]) <= PMAX
  {
    OverFullHasThree(PMAX, sizes, newindx);
    CheckedSplitFits(PMAX, sizes, newindx);
  }

  lemma LeafSums(es: seq<Entry>, s: nat)
    requires s <= |es|
    ensures LeafSum(es[..s]) == Sum(LeafSizes(es)[..s]) && LeafSum(es[s..]) == Sum(LeafSizes(es)[s..])
  {
    assert LeafSizes(es[..s]) == LeafSizes(es)[..s] && LeafSizes(es[s..]) == LeafSizes(es)[s..];
  }

  /** The leaf is split in the middle, unsearched, and one half is too large. */
  ghost predicate LeafOverflows(es: seq<Entry>, newindx: nat, append: bool) {
    var sizes := LeafSizes(es);
    && !append && newindx < |es| && !Searched(sizes, newindx)
    && (Sum(sizes[..|sizes| / 2]) > PMAX || Sum(sizes[|sizes| / 2..]) > PMAX)
  }

  /** Exactly when placing a node on a leaf ends in MDB_PAGE_FULL; for MDB_APPEND it never does. */
  lemma LeafFull(es: seq<Entry>, newindx: nat, append: bool)
    requires Placeable(LeafSizes(es), newindx) && (append ==> newindx == |es| - 1 > 0)
    ensures PlaceLeaf(es, newindx, append).Full? <==> LeafOverflows(es, newindx, append)
  {
    if LeafSum(es) > PMAX {
      var sizes := LeafSizes(es);
      OverFullHasThree(PMAX, sizes, newindx);
      LeafSums(es, if append then newindx else Cut(sizes, newindx));
      if append {
        OtherSide(sizes, newindx, newindx);
        SumHead(sizes, newindx);
        assert sizes[newindx + 1..] == [];
      } else if Searched(sizes, newindx) {
        CutFits(sizes, newindx);
      }
    }
  }

  /** The same for a branch page, whose right half keeps no first key. */
  ghost predicate BranchOverflows(keys: seq<Key>, newindx: nat) {
    var m := |keys| / 2;
    && newindx < |keys| && !Searched(KeySizes(keys), newindx)
    && (KeySum(keys[..m]) > PMAX || KeySum([NOKEY] + keys[m + 1..]) > PMAX)
  }

  lemma BranchFull(keys: seq<Key>, kids: seq<Tree>, newindx: nat)
    requires Placeable(KeySizes(keys), newindx) && |keys| == |kids|
    ensures PlaceBranch(keys, kids, newindx).Full? <==> BranchOverflows(keys, newindx)
  {
    if KeySum(keys) > PMAX {
      var sizes := KeySizes(keys);
      OverFullHasThree(PMAX, sizes, newindx);
      if Searched(sizes, newindx) {
        CutFits(sizes, newindx);
        HalfSums(keys, Cut(sizes, newindx));
      }
    }
  }

  lemma HalfSums(keys: seq<Key>, s: nat)
    requires s < |keys|
    ensures KeySum(keys[..s]) == Sum(KeySizes(keys)[..s]) && KeySum([NOKEY] + keys[s + 1..]) <= Sum(KeySizes(keys)[s..])
  {
    var sizes, b := KeySizes(keys), keys[s + 1..];
    assert KeySizes(keys[..s]) == sizes[..s] && KeySizes(b) == sizes[s + 1..];
    SumHead(sizes, s);
    KeySumCat([NOKEY], b);
    OneSum(Entry(Key(0, 1), 0, true, 0), NOKEY);
  }

  ghost predicate SplitOverflows(keys: seq<Key>, i: nat, sep: Key) {
    i < |keys| && BranchOverflows(keys[..i + 1] + [sep] + keys[i + 1..], i + 1)
  }

  lemma SplitFull(keys: seq<Key>, kids: seq<Tree>, i: nat, l: Tree, sep: Key, r: Tree)
    requires KeysOk(keys) && KeySum(keys) <= PMAX && i < |keys| == |kids| && KeyOk(sep)
    ensures PutSplit(keys, kids, i, l, sep, r).Full? <==> SplitOverflows(keys, i, sep)
  {
    PutSplitPlaceable(keys, i, sep);
    SpliceAt(kids, i, i + 1, [l, r]);
    BranchFull(keys[..i + 1] + [sep] + keys[i + 1..], Splice(kids, i, i + 1, [l, r]), i + 1);
  }

  // ---------------------------------------------------------------- put

  /** Some page on the way is split in the middle, unsearched, and a half is too large. */
  ghost predicate PutOverflows(t: Tree, e: Entry, append: bool, reuse: bool)
    requires Sized(t) && EntryOk(e)
    decreases t
  {
    match t
    case Leaf(es) =>
      var j := LeafIndex(es, e.key.rank);
      if BTreeInsert.Found(es, e.key.rank) then !InPlace(es[j], e, reuse) && LeafOverflows(es[j := e], j, false)
      else LeafOverflows(es[..j] + [e] + es[j..], j, append && 0 < j == |es|)
    case Branch(keys, kids) =>
      var i := ChildIndex(keys, e.key.rank);
      var res := PutTree(kids[i], e, append, reuse);
      PutOverflows(kids[i], e, append, reuse) || (res.Two? && SplitOverflows(keys, i, res.sep))
  }

  lemma {:induction false} PutFull(t: Tree, e: Entry, append: bool, reuse: bool)
    requires Sized(t) && EntryOk(e)
    ensures PutTree(t, e, append, reuse).Full? <==> PutOverflows(t, e, append, reuse)
    decreases t
  {
    match t
    case Leaf(es) =>
      var j, app := LeafIndex(es, e.key.rank), append && |es| > 0 && LeafIndex(es, e.key.rank) == |es|;
      if BTreeInsert.Found(es, e.key.rank) {
        ReplacedPlaceable(es, j, e);
        LeafFull(es[j := e], j, false);
      } else {
        InsertedPlaceable(es, j, e);
        LeafFull(es[..j] + [e] + es[j..], j, app);
      }
    case Branch(keys, kids) =>
      var i := ChildIndex(keys, e.key.rank);
      PutFull(kids[i], e, append, reuse);
      var res := PutTree(kids[i], e, append, reuse);
      if res.Two? { SplitFull(keys, kids, i, res.l, res.sep, res.r); }
  }

  // ---------------------------------------------------------------- del

  /** A move between neighbours puts a new separator at index m. */
  ghost predicate MoveOverflows(keys: seq<Key>, m: nat, sep: Key) { m < |keys| && BranchOverflows(keys[m := sep], m) }

  ghost predicate RebalanceOverflows(keys: seq<Key>, kids: seq<Tree>, i: nat, c: Tree)
    requires Sized(Branch(keys, kids)) && Bushy(Branch(keys, kids)) && i < |kids| && Kin(c, kids[i]) && Movable(c)
  {
    if i == 0 then Rich(kids[1]) && MoveOverflows(keys, 1, MoveFromRight(c, kids[1]).sep)
    else Rich(kids[i - 1]) && MoveOverflows(keys, i, MoveFromLeft(kids[i - 1], c).sep)
  }

  ghost predicate DelOverflows(t: Tree, rank: int)
    requires Sized(t) && Bushy(t)
    decreases t
  {
    t.Branch? &&
      var i := ChildIndex(t.keys, rank);
      var res := DelTree(t.kids[i], rank);
      || DelOverflows(t.kids[i], rank)
      || (res.Halves? && SplitOverflows(t.keys, i, res.sep))
      || (res.Check? && Short(res.t) && RebalanceOverflows(t.keys, t.kids, i, res.t))
  }

  lemma MovedFull(keys: seq<Key>, kids: seq<Tree>, m: nat, p: Pair)
    requires KeysOk(keys) && KeySum(keys) <= PMAX && 1 <= m < |keys| == |kids| && KeyOk(p.sep)
    ensures Moved(keys, kids, m, p).Stuck? <==> MoveOverflows(keys, m, p.sep)
  {
    UpdatePlaceable(keys, m, p.sep);
    SpliceAt(kids, m - 1, m + 1, [p.l, p.r]);
    BranchFull(keys[m := p.sep], Splice(kids, m - 1, m + 1, [p.l, p.r]), m);
  }

  lemma RebalanceFull(keys: seq<Key>, kids: seq<Tree>, i: nat, c: Tree)
    requires Sized(Branch(keys, kids)) && Bushy(Branch(keys, kids)) && i < |kids| && Kin(c, kids[i]) && Movable(c)
    ensures Rebalance(keys, kids, i, c).Stuck? <==> RebalanceOverflows(keys, kids, i, c)
  {
    LendExactly(kids[if i == 0 then 1 else i - 1]);
    if i == 0 {
      if CanLend(kids[1]) { MovedFull(keys, kids, 1, MoveFromRight(c, kids[1])); }
    } else if CanLend(kids[i - 1]) {
      MovedFull(keys, kids, i, MoveFromLeft(kids[i - 1], c));
    }
  }

  lemma {:induction false} DelFull(t: Tree, rank: int)
    requires Sized(t) && Bushy(t)
    ensures DelTree(t, rank).Stuck? <==> DelOverflows(t, rank)
    decreases t
  {
    if t.Branch? {
      var i := ChildIndex(t.keys, rank);
      DelFull(t.kids[i], rank);
      var res := DelTree(t.kids[i], rank);
      if res.Halves? {
        SplitFull(t.keys, t.kids, i, res.l, res.sep, res.r);
      } else if res.Check? {
        ShortExactly(res.t);
        RebalanceFull(t.keys, t.kids, i, res.t);
      }
    }
  }

  // ---------------------------------------------------------------- MDB_PAGE_FULL

  /**
   * Exactly when mdb_put and mdb_del end in MDB_PAGE_FULL: when the put is not refused, and a split on the way whose point
   * is not searched by size (a page of at least 20 nodes, a new one of at most 1/16 of a page that does not come last)
   * leaves a half that is too large.
   */
  lemma PageFullExactly(db: Db, key: Key, dlen: nat, val: int, append: bool, nooverwrite: bool, reuse: bool)
    requires SizedDb(db) && KeyOk(key)
    ensures var r := Put(db, key, dlen, val, append, nooverwrite, reuse);
      r.PageFull? <==> !r.KeyExist? && db.root.Root? && PutOverflows(db.root.t, NewEntry(key, dlen, val), append, reuse)
    ensures Del(db, key.rank).PageFull? <==> db.root.Root? && DelOverflows(db.root.t, key.rank)
  {
    var e := NewEntry(key, dlen, val);
    EmptyLeafSized();
    if db.root.NoRoot? {
      OneSum(e, NOKEY);
      NodeBounds(e, NOKEY);
      assert [] + [e] + [] == [e];
      PutFull(Leaf([]), e, append, reuse);
    } else {
      PutFull(db.root.t, e, append, reuse);
      DelFull(db.root.t, key.rank);
    }
  }

  ghost predicate SmallPages(t: Tree) {
    NumKeys(t) < 20 && (t.Branch? ==> forall i :: 0 <= i < |t.kids| ==> SmallPages(t.kids[i]))
  }

  lemma {:induction false} SmallPut(t: Tree, e: Entry, append: bool, reuse: bool)
    requires Sized(t) && EntryOk(e) && SmallPages(t)
    ensures !PutOverflows(t, e, append, reuse)
    decreases t
  {
    if t.Branch? { SmallPut(t.kids[ChildIndex(t.keys, e.key.rank)], e, append, reuse); }
  }

  lemma {:induction false} SmallDel(t: Tree, rank: int)
    requires Sized(t) && Bushy(t) && SmallPages(t)
    ensures !DelOverflows(t, rank)
    decreases t
  {
    if t.Branch? { SmallDel(t.kids[ChildIndex(t.keys, rank)], rank); }
  }

  /** In a tree whose pages hold fewer than 20 nodes neither can happen. */
  lemma PageFullNeedsCrowdedPage(db: Db, key: Key, dlen: nat, val: int, append: bool, nooverwrite: bool, reuse: bool)
    requires SizedDb(db) && KeyOk(key) && (db.root.Root? ==> SmallPages(db.root.t))
    ensures !Put(db, key, dlen, val, append, nooverwrite, reuse).PageFull? && !Del(db, key.rank).PageFull?
  {
    if db.root.Root? {
      SmallPut(db.root.t, NewEntry(key, dlen, val), append, reuse);
      SmallDel(db.root.t, key.rank);
    }
    PageFullExactly(db, key, dlen, val, append, nooverwrite, reuse);
  }

  // ---------------------------------------------------------------- a put that fails

  function Alike(from: int, n: nat, klen: nat, dlen: nat): (es: seq<Entry>) {
    seq(n, i => Entry(Key(from + i, klen), dlen, false, 0))
  }

  /** The size of the large nodes: nine of them and eleven of 12 bytes leave less than 18 bytes of a page. */
  function Large(): (x: nat)
    ensures x % 2 == 0 && x >= 400 && 9 * x + 132 <= PMAX < 9 * x + 132 + 18
  {
    (PMAX - 132) / 18 * 2
  }

  function Crowded(): seq<Entry> { Alike(0, 3, 8, Large() - 18) + Alike(4, 6, 8, Large() - 18) + Alike(10, 11, 1, 1) }

  lemma {:induction false} SumConst(s: seq<nat>, x: nat)
    requires forall i :: 0 <= i < |s| ==> s[i] == x
    ensures Sum(s) == |s| * x
  {
    if |s| > 0 { SumConst(s[..|s| - 1], x); }
  }

  /** Large nodes at 0..2 and from 4 on, the new one at 3, small ones from index ten on. */
  ghost predicate Lopsided(sizes: seq<nat>, x: nat) {
    |sizes| == 21 && forall i :: 0 <= i < 21 ==> sizes[i] == if i == 3 then 200 else if i < 10 then x else 12
  }

  lemma LopsidedSums(sizes: seq<nat>, x: nat)
    requires Lopsided(sizes, x)
    ensures Sum(sizes[..10]) == 9 * x + 200 && Sum(sizes) == 9 * x + 332
  {
    var left := sizes[..10];
    SumSplit(sizes, 10);
    SumConst(sizes[10..], 12);
    SumSplit(left, 4);
    SumConst(left[4..], x);
    SumSplit(left[..4], 3);
    assert left[..4][..3] == sizes[..3] && left[..4][3..] == [200];
    SumConst(sizes[..3], x);
    SumOne(200);
  }

  lemma LopsidedFull(sizes: seq<nat>)
    requires Lopsided(sizes, Large())
    ensures !Searched(sizes, 3) && Sum(sizes[..|sizes| / 2]) > PMAX
  {
    LopsidedSums(sizes, Large());
  }

  lemma CrowdedOk()
    ensures |Crowded()| == 20 && forall i :: 0 <= i < 20 ==>
      && EntryOk(Crowded()[i]) && LeafNode(Crowded()[i]) == (if i < 9 then Large() else 12)
      && Crowded()[i].key.rank == if i < 3 then i else i + 1
  {
  }

  /** With the new node it is lopsided, and without it it fits on a page. */
  lemma CrowdedFits(es: seq<Entry>, e: Entry)
    requires |es| == 20 && LeafNode(e) == 200 && forall i :: 0 <= i < 20 ==> LeafNode(es[i]) == if i < 9 then Large() else 12
    ensures LeafSum(es) <= PMAX && Lopsided(LeafSizes(es[..3] + [e] + es[3..]), Large())
  {
    var sizes := LeafSizes(es[..3] + [e] + es[3..]);
    LopsidedSums(sizes, Large());
    assert es == es[..3] + es[3..];
    LeafSumCat(es[..3], es[3..]);
    LeafSumCat(es[..3], [e]);
    LeafSumCat(es[..3] + [e], es[3..]);
    OneSum(e, NOKEY);
  }

  lemma CrowdedGood(es: seq<Entry>)
    requires |es| == 20 && LeafSum(es) <= PMAX
    requires forall i :: 0 <= i < 20 ==> EntryOk(es[i]) && es[i].key.rank == if i < 3 then i else i + 1
    ensures Sized(Leaf(es)) && Good(Leaf(es), 0, 0, 21)
  {
  }

  lemma CrowdedIndex(es: seq<Entry>)
    requires |es| == 20 && forall i :: 0 <= i < 20 ==> es[i].key.rank == if i < 3 then i else i + 1
    ensures LeafIndex(es, 3) == 3 && !BTreeInsert.Found(es, 3)
  {
  }

  /**
   * For every page size there is a well-formed environment of one leaf of 20 nodes in which mdb_put of a small new key
   * ends in MDB_PAGE_FULL.
   */
  lemma PutCanFail() returns (db: Db, key: Key)
    ensures SizedDb(db) && Wf(db) && KeyOk(key) && Get(db, key.rank).NotFound?
    ensures Put(db, key, 182, 0, false, false, false).PageFull?
  {
    var es, e := Crowded(), NewEntry(Key(3, 8), 182, 0);
    key := Key(3, 8);
    db := Db(Root(Leaf(es)), 1);
    CrowdedOk();
    CrowdedIndex(es);
    CrowdedFits(es, e);
    CrowdedGood(es);
    InsertFails(es, e);
  }

  lemma InsertFails(es: seq<Entry>, e: Entry)
    requires Sized(Leaf(es)) && |es| == 20 && EntryOk(e) && Lopsided(LeafSizes(es[..3] + [e] + es[3..]), Large())
    ensures InsertLeaf(es, 3, e, false).Full?
  {
    InsertedPlaceable(es, 3, e);
    LopsidedFull(LeafSizes(es[..3] + [e] + es[3..]));
    LeafFull(es[..3] + [e] + es[3..], 3, false);
  }
}
