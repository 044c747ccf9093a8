/** mdb_put inserts exactly the given entry and keeps the tree well formed. */
module BTreeInsertProof {
  import opened SplitPoint
  import opened BTree
  import opened BTreeInsert

  // ---------------------------------------------------------------- what an insertion means

  ghost predicate Same(x: Entry, e: Entry) { x.key.rank == e.key.rank && x.dlen == e.dlen && x.val == e.val }

  /** new is old with x, which carries e's key rank and data, put between p and q. */
  ghost predicate UpsertAt(was: seq<Entry>, now: seq<Entry>, e: Entry, p: nat, q: nat, x: Entry) {
    && p <= q <= |was| && Same(x, e) && now == was[..p] + [x] + was[q..]
    && (q == p || (q == p + 1 && was[p].key.rank == e.key.rank))
  }

  ghost predicate Upserted(was: seq<Entry>, now: seq<Entry>, e: Entry) {
    exists p, q, x :: UpsertAt(was, now, e, p, q, x)
  }

  lemma UpsertedInside(a: seq<Entry>, was: seq<Entry>, now: seq<Entry>, b: seq<Entry>, e: Entry)
    requires Upserted(was, now, e)
    ensures Upserted(a + was + b, a + now + b, e)
  {
    var p: nat, q: nat, x: Entry :| UpsertAt(was, now, e, p, q, x);
    Inner(a, was, b, p);
    Inner(a, was, b, q);
    Regroup(a, was[..p], [x], was[q..], b);
    assert UpsertAt(a + was + b, a + now + b, e, |a| + p, |a| + q, x);
  }

  ghost predicate Good(t: Tree, d: nat, lo: int, hi: int) { Ordered(t, d, lo, hi) && Sized(t) && Filled(t) }

  ghost predicate PutGood(res: PutRes, was: seq<Entry>, e: Entry, d: nat, lo: int, hi: int) {
    match res
    case Full => true
    case One(t) => Good(t, d, lo, hi) && Upserted(was, Flat(t), e)
    case Two(l, sep, r) =>
      && Good(l, d, lo, sep.rank) && Good(r, d, sep.rank, hi) && lo < sep.rank < hi && KeyOk(sep)
      && Upserted(was, Flat(l) + Flat(r), e)
  }

  // ---------------------------------------------------------------- leaves

  ghost predicate LeafOk(es: seq<Entry>, lo: int, hi: int) {
    SortedEs(es) && Within(es, lo, hi) && forall i :: 0 <= i < |es| ==> EntryOk(es[i])
  }

  lemma LeafParts(es: seq<Entry>, s: nat, lo: int, hi: int)
    requires LeafOk(es, lo, hi) && 1 <= s < |es|
    ensures LeafOk(es[..s], lo, es[s].key.rank) && LeafOk(es[s..], es[s].key.rank, hi)
    ensures lo < es[s].key.rank < hi && KeyOk(es[s].key) && es[..s] + es[s..] == es
  {
    assert es[0].key.rank < es[s].key.rank;
  }

  lemma CutLeafGood(es: seq<Entry>, s: nat, lo: int, hi: int)
    requires LeafOk(es, lo, hi) && 1 <= s < |es|
    ensures var res := CutLeaf(es, s);
      res.Two? ==>
        && Good(res.l, 0, lo, res.sep.rank) && Good(res.r, 0, res.sep.rank, hi)
        && lo < res.sep.rank < hi && KeyOk(res.sep) && Flat(res.l) + Flat(res.r) == es
  {
    LeafParts(es, s, lo, hi);
  }

  lemma PlaceLeafGood(was: seq<Entry>, es: seq<Entry>, newindx: nat, append: bool, e: Entry, lo: int, hi: int)
    requires LeafOk(es, lo, hi) && Placeable(LeafSizes(es), newindx) && (append ==> newindx == |es| - 1 > 0)
    requires Upserted(was, es, e)
    ensures PutGood(PlaceLeaf(es, newindx, append), was, e, 0, lo, hi)
  {
    if LeafSum(es) > PMAX {
      CutLeafGood(es, if append then newindx else Cut(LeafSizes(es), newindx), lo, hi);
    }
  }

  lemma InsertedSorted(es: seq<Entry>, j: nat, e: Entry, lo: int, hi: int)
    requires LeafOk(es, lo, hi) && j <= |es| && EntryOk(e) && lo <= e.key.rank < hi
    requires (j < |es| ==> e.key.rank < es[j].key.rank) && (j > 0 ==> es[j - 1].key.rank < e.key.rank)
    ensures LeafOk(es[..j] + [e] + es[j..], lo, hi)
  {
    CatSorted(es[..j], [e], lo, e.key.rank, e.key.rank + 1);
    CatSorted(es[..j] + [e], es[j..], lo, e.key.rank + 1, hi);
  }

  lemma OverwriteGood(es: seq<Entry>, j: nat, x: Entry, e: Entry, lo: int, hi: int)
    requires LeafOk(es, lo, hi) && j < |es| && es[j].key.rank == e.key.rank && Same(x, e) && EntryOk(x)
    ensures LeafOk(es[j := x], lo, hi) && Upserted(es, es[j := x], e)
  {
    assert es[j := x] == es[..j] + [x] + es[j + 1..];
    assert UpsertAt(es, es[j := x], e, j, j + 1, x);
  }

  lemma InPlaceGood(es: seq<Entry>, j: nat, e: Entry, reuse: bool, lo: int, hi: int)
    requires Sized(Leaf(es)) && LeafOk(es, lo, hi) && j < |es| && es[j].key.rank == e.key.rank
    requires InPlace(es[j], e, reuse)
    ensures PutGood(One(Leaf(es[j := es[j].(dlen := e.dlen, val := e.val)])), es, e, 0, lo, hi)
  {
    var x := es[j].(dlen := e.dlen, val := e.val);
    assert EntryOk(es[j]);
    ReplacedPlaceable(es, j, x);
    OverwriteGood(es, j, x, e, lo, hi);
    assert LeafSum(es[j := x]) == LeafSum(es);
  }

  lemma RebuildGood(es: seq<Entry>, j: nat, e: Entry, lo: int, hi: int)
    requires Sized(Leaf(es)) && LeafOk(es, lo, hi) && j < |es| && es[j].key.rank == e.key.rank && EntryOk(e)
    ensures Placeable(LeafSizes(es[j := e]), j) && PutGood(PlaceLeaf(es[j := e], j, false), es, e, 0, lo, hi)
  {
    ReplacedPlaceable(es, j, e);
    OverwriteGood(es, j, e, e, lo, hi);
    PlaceLeafGood(es, es[j := e], j, false, e, lo, hi);
  }

  lemma AddLeafGood(es: seq<Entry>, e: Entry, append: bool, reuse: bool, lo: int, hi: int)
    requires Sized(Leaf(es)) && LeafOk(es, lo, hi) && EntryOk(e) && lo <= e.key.rank < hi
    requires (append ==> |es| > 0 && LeafIndex(es, e.key.rank) == |es|) && !Found(es, e.key.rank)
    ensures PutGood(PutLeaf(es, e, append, reuse), es, e, 0, lo, hi)
  {
    var j := LeafIndex(es, e.key.rank);
    var now := es[..j] + [e] + es[j..];
    InsertedPlaceable(es, j, e);
    assert UpsertAt(es, now, e, j, j, e);
    InsertedSorted(es, j, e, lo, hi);
    PlaceLeafGood(es, now, j, append, e, lo, hi);
  }

  lemma PutLeafGood(es: seq<Entry>, e: Entry, append: bool, reuse: bool, lo: int, hi: int)
    requires Sized(Leaf(es)) && Ordered(Leaf(es), 0, lo, hi) && EntryOk(e) && lo <= e.key.rank < hi
    requires append ==> |es| > 0 && LeafIndex(es, e.key.rank) == |es|
    ensures PutGood(PutLeaf(es, e, append, reuse), es, e, 0, lo, hi)
  {
    if Found(es, e.key.rank) {
      var j := LeafIndex(es, e.key.rank);
      if InPlace(es[j], e, reuse) {
        InPlaceGood(es, j, e, reuse, lo, hi);
      } else {
        RebuildGood(es, j, e, lo, hi);
      }
    } else {
      AddLeafGood(es, e, append, reuse, lo, hi);
    }
  }

  // ---------------------------------------------------------------- branch pages

  lemma {:induction false} SumAtMost(sizes: seq<nat>, m: nat)
    requires forall i :: 0 <= i < |sizes| ==> sizes[i] <= m
    ensures Sum(sizes) <= |sizes| * m
  {
    if |sizes| > 0 { SumAtMost(sizes[..|sizes| - 1], m); }
  }

  lemma {:induction false} ForwardStops(sizes: seq<nat>, i: nat, k: nat)
    requires i < k <= |sizes|
    ensures var s := Forward(PMAX, sizes, i, k); s == k - 1 || Sum(sizes[..s + 1]) > PMAX
    decreases k - i
  {
    if !(Sum(sizes[..i + 1]) > PMAX || i == k - 1) { ForwardStops(sizes, i + 1, k); }
  }

  lemma {:induction false} BackwardStops(sizes: seq<nat>, i: nat, k: nat)
    requires k < i < |sizes|
    ensures var s := Backward(PMAX, sizes, i, k); s == k + 2 || Sum(sizes[s - 1..]) > PMAX
    decreases i
  {
    if !(Sum(sizes[i..]) > PMAX || i == k + 1) { BackwardStops(sizes, i - 1, k); }
  }

  lemma ForwardTwo(sizes: seq<nat>, k: nat)
    requires 3 <= k <= |sizes| && forall i :: 0 <= i < |sizes| ==> sizes[i] <= 522
    ensures 2 <= Forward(PMAX, sizes, 0, k)
  {
    ForwardStops(sizes, 0, k);
    var s := Forward(PMAX, sizes, 0, k);
    SumAtMost(sizes[..s + 1], 522);
  }

  lemma BackwardTwo(sizes: seq<nat>, k: nat)
    requires k + 4 <= |sizes| && forall i :: 0 <= i < |sizes| ==> sizes[i] <= 522
    ensures Backward(PMAX, sizes, |sizes| - 1, k) <= |sizes| - 2
  {
    BackwardStops(sizes, |sizes| - 1, k);
    var s := Backward(PMAX, sizes, |sizes| - 1, k);
    SumAtMost(sizes[s - 1..], 522);
  }

  /** A split branch page leaves two pages of at least two children each. */
  lemma BranchCutTwo(keys: seq<Key>, newindx: nat)
    requires KeysOk(keys) && Placeable(KeySizes(keys), newindx) && KeySum(keys) > PMAX
    ensures var s := Cut(KeySizes(keys), newindx); 2 <= s <= |keys| - 2
  {
    var sizes := KeySizes(keys);
    forall i | 0 <= i < |sizes| ensures sizes[i] <= 522 { NodeBounds(Entry(Key(0, 1), 0, true, 0), keys[i]); }
    SumAtMost(sizes, 522);
    assert |sizes| >= 8;
    var nkeys, mid := |sizes| - 1, Middle(sizes);
    if !Checked(PMAX, sizes, newindx) {
    } else if newindx >= nkeys {
      ForwardTwo(sizes, nkeys);
    } else if newindx <= mid {
      ForwardTwo(sizes, mid + 2);
    } else {
      BackwardTwo(sizes, mid - 1);
    }
  }

  lemma SizedPart(keys: seq<Key>, kids: seq<Tree>, a: nat, b: nat)
    requires KeysOk(keys) && |keys| == |kids| && a < b <= |keys|
    requires forall i :: 0 <= i < |kids| ==> Sized(kids[i])
    requires KeySum([NOKEY] + keys[a + 1..b]) <= PMAX
    ensures Sized(Branch([NOKEY] + keys[a + 1..b], kids[a..b]))
  {
    var k := [NOKEY] + keys[a + 1..b];
    assert forall i :: 1 <= i < |k| ==> k[i] == keys[a + i];
  }

  /** A page that holds the entries flat, or two pages that share them around a separator. */
  ghost predicate Holds(res: PutRes, flat: seq<Entry>, d: nat, lo: int, hi: int) {
    match res
    case Full => true
    case One(t) => Good(t, d, lo, hi) && Flat(t) == flat
    case Two(l, sep, r) =>
      && Good(l, d, lo, sep.rank) && Good(r, d, sep.rank, hi) && lo < sep.rank < hi && KeyOk(sep)
      && Flat(l) + Flat(r) == flat
  }

  lemma PlaceBranchGood(keys: seq<Key>, kids: seq<Tree>, newindx: nat, d: nat, lo: int, hi: int)
    requires KeysOk(keys) && |keys| >= 2 && Ordered(Branch(keys, kids), d, lo, hi) && Placeable(KeySizes(keys), newindx)
    requires forall i :: 0 <= i < |kids| ==> Sized(kids[i])
    ensures Holds(PlaceBranch(keys, kids, newindx), FlatAll(kids), d, lo, hi)
  {
    if KeySum(keys) > PMAX {
      BranchCutTwo(keys, newindx);
      CutBranchGood(keys, kids, Cut(KeySizes(keys), newindx), d, lo, hi);
    }
  }

  lemma CutOrdered(keys: seq<Key>, kids: seq<Tree>, s: nat, d: nat, lo: int, hi: int)
    requires KeysOk(keys) && Ordered(Branch(keys, kids), d, lo, hi) && 1 <= s < |keys|
    ensures Ordered(Branch(keys[..s], kids[..s]), d, lo, keys[s].rank)
    ensures Ordered(Branch([NOKEY] + keys[s + 1..], kids[s..]), d, keys[s].rank, hi)
  {
    SliceOrdered(keys, kids, d, lo, hi, 0, s);
    SliceOrdered(keys, kids, d, lo, hi, s, |keys|);
    assert [NOKEY] + keys[1..s] == keys[..s] && kids[0..s] == kids[..s];
    assert keys[s + 1..|keys|] == keys[s + 1..] && kids[s..|keys|] == kids[s..];
  }

  lemma CutSized(keys: seq<Key>, kids: seq<Tree>, s: nat)
    requires KeysOk(keys) && |keys| == |kids| && 1 <= s < |keys| && CutBranch(keys, kids, s).Two?
    requires forall i :: 0 <= i < |kids| ==> Sized(kids[i])
    ensures Sized(Branch(keys[..s], kids[..s])) && Sized(Branch([NOKEY] + keys[s + 1..], kids[s..]))
  {
    assert [NOKEY] + keys[1..s] == keys[..s] && kids[0..s] == kids[..s];
    assert keys[s + 1..|keys|] == keys[s + 1..] && kids[s..|keys|] == kids[s..];
    SizedPart(keys, kids, 0, s);
    SizedPart(keys, kids, s, |keys|);
  }

  lemma CutBranchGood(keys: seq<Key>, kids: seq<Tree>, s: nat, d: nat, lo: int, hi: int)
    requires KeysOk(keys) && Ordered(Branch(keys, kids), d, lo, hi) && 2 <= s <= |keys| - 2
    requires forall i :: 0 <= i < |kids| ==> Sized(kids[i])
    ensures var res := CutBranch(keys, kids, s);
      res.Two? ==>
        && Good(res.l, d, lo, res.sep.rank) && Good(res.r, d, res.sep.rank, hi)
        && lo < res.sep.rank < hi && KeyOk(res.sep) && Flat(res.l) + Flat(res.r) == FlatAll(kids)
  {
    assert kids == kids[..s] + kids[s..];
    FlatCat(kids[..s], kids[s..]);
    CutOrdered(keys, kids, s, d, lo, hi);
    if CutBranch(keys, kids, s).Two? { CutSized(keys, kids, s); }
  }

  // ---------------------------------------------------------------- the whole tree

  /** Replacing child i by one good tree. */
  lemma ReplaceOne(keys: seq<Key>, kids: seq<Tree>, d: nat, lo: int, hi: int, i: nat, c: Tree)
    requires Good(Branch(keys, kids), d, lo, hi) && i < |kids|
    requires Good(c, d - 1, Lo(keys, lo, i), Hi(keys, hi, i))
    ensures Good(Branch(keys, kids[i := c]), d, lo, hi)
    ensures FlatAll(kids) == FlatAll(kids[..i]) + Flat(kids[i]) + FlatAll(kids[i + 1..])
    ensures FlatAll(kids[i := c]) == FlatAll(kids[..i]) + Flat(c) + FlatAll(kids[i + 1..])
  {
    ReplaceOneFlat(kids, i, c);
    var now := kids[i := c];
    forall k | 0 <= k < |now| ensures Filled(now[k]) && Sized(now[k]) && Ordered(now[k], d - 1, Lo(keys, lo, k), Hi(keys, hi, k)) {
      if k != i { assert now[k] == kids[k]; }
    }
  }

  lemma ReplaceOneFlat(kids: seq<Tree>, i: nat, c: Tree)
    requires i < |kids|
    ensures FlatAll(kids) == FlatAll(kids[..i]) + Flat(kids[i]) + FlatAll(kids[i + 1..])
    ensures FlatAll(kids[i := c]) == FlatAll(kids[..i]) + Flat(c) + FlatAll(kids[i + 1..])
  {
    FlatAt(kids, i);
    FlatAt(kids[i := c], i);
    assert kids[i := c][..i] == kids[..i] && kids[i := c][i + 1..] == kids[i + 1..];
  }

  lemma TwoOrdered(l: Tree, sep: Key, r: Tree, d: nat, lo: int, hi: int)
    requires d > 0 && Good(l, d - 1, lo, sep.rank) && Good(r, d - 1, sep.rank, hi) && lo < sep.rank < hi
    ensures Ordered(Branch([NOKEY, sep], [l, r]), d, lo, hi)
  {
  }

  /** Replacing child i by two good trees. */
  lemma ReplaceTwo(keys: seq<Key>, kids: seq<Tree>, d: nat, lo: int, hi: int, i: nat, l: Tree, sep: Key, r: Tree)
    requires Good(Branch(keys, kids), d, lo, hi) && i < |kids|
    requires Good(l, d - 1, Lo(keys, lo, i), sep.rank) && Good(r, d - 1, sep.rank, Hi(keys, hi, i))
    requires Lo(keys, lo, i) < sep.rank < Hi(keys, hi, i)
    ensures Ordered(Branch(keys[..i + 1] + [sep] + keys[i + 1..], Splice(kids, i, i + 1, [l, r])), d, lo, hi)
  {
    FlatNonEmpty(Branch(keys, kids), d, lo, hi);
    var wk, wc := [NOKEY, sep], [l, r];
    TwoOrdered(l, sep, r, d, Lo(keys, lo, i), Hi(keys, hi, i));
    SpliceOrdered(keys, kids, d, lo, hi, i, i + 1, wk, wc);
    assert SpliceKeys(keys, i, i + 1, wk) == keys[..i + 1] + [sep] + keys[i + 1..];
  }

  lemma ReplaceTwoSized(keys: seq<Key>, kids: seq<Tree>, i: nat, l: Tree, sep: Key, r: Tree)
    requires Sized(Branch(keys, kids)) && i < |kids| && Sized(l) && Sized(r) && KeyOk(sep)
    ensures KeysOk(keys[..i + 1] + [sep] + keys[i + 1..])
    ensures var c := Splice(kids, i, i + 1, [l, r]); forall k :: 0 <= k < |c| ==> Sized(c[k])
  {
    SpliceAt(kids, i, i + 1, [l, r]);
    SpliceAt(keys, i + 1, i + 1, [sep]);
    assert Splice(keys, i + 1, i + 1, [sep]) == keys[..i + 1] + [sep] + keys[i + 1..];
  }

  lemma ReplaceTwoFlat(kids: seq<Tree>, i: nat, l: Tree, r: Tree)
    requires i < |kids|
    ensures FlatAll(kids) == FlatAll(kids[..i]) + Flat(kids[i]) + FlatAll(kids[i + 1..])
    ensures FlatAll(Splice(kids, i, i + 1, [l, r])) == FlatAll(kids[..i]) + (Flat(l) + Flat(r)) + FlatAll(kids[i + 1..])
  {
    FlatAt(kids, i);
    FlatThree(kids[..i], [l, r], kids[i + 1..]);
    FlatCat([l], [r]); FlatOne(l); FlatOne(r);
    assert [l] + [r] == [l, r];
  }

  lemma PutSplitGood(keys: seq<Key>, kids: seq<Tree>, d: nat, lo: int, hi: int, i: nat, l: Tree, sep: Key, r: Tree, e: Entry)
    requires Good(Branch(keys, kids), d, lo, hi) && i < |kids|
    requires Good(l, d - 1, Lo(keys, lo, i), sep.rank) && Good(r, d - 1, sep.rank, Hi(keys, hi, i))
    requires Lo(keys, lo, i) < sep.rank < Hi(keys, hi, i) && KeyOk(sep)
    requires Upserted(Flat(kids[i]), Flat(l) + Flat(r), e)
    ensures PutGood(PutSplit(keys, kids, i, l, sep, r), FlatAll(kids), e, d, lo, hi)
  {
    PutSplitHolds(keys, kids, d, lo, hi, i, l, sep, r);
    ReplaceTwoFlat(kids, i, l, r);
    UpsertedInside(FlatAll(kids[..i]), Flat(kids[i]), Flat(l) + Flat(r), FlatAll(kids[i + 1..]), e);
  }

  /** Putting the separator of a split child into its parent. */
  lemma PutSplitHolds(keys: seq<Key>, kids: seq<Tree>, d: nat, lo: int, hi: int, i: nat, l: Tree, sep: Key, r: Tree)
    requires Good(Branch(keys, kids), d, lo, hi) && i < |kids|
    requires Good(l, d - 1, Lo(keys, lo, i), sep.rank) && Good(r, d - 1, sep.rank, Hi(keys, hi, i))
    requires Lo(keys, lo, i) < sep.rank < Hi(keys, hi, i) && KeyOk(sep)
    ensures Holds(PutSplit(keys, kids, i, l, sep, r), FlatAll(Splice(kids, i, i + 1, [l, r])), d, lo, hi)
  {
    ReplaceTwo(keys, kids, d, lo, hi, i, l, sep, r);
    ReplaceTwoSized(keys, kids, i, l, sep, r);
    PutSplitPlaceable(keys, i, sep);
    PlaceBranchGood(keys[..i + 1] + [sep] + keys[i + 1..], Splice(kids, i, i + 1, [l, r]), i + 1, d, lo, hi);
  }

  lemma PutSplitPlaceable(keys: seq<Key>, i: nat, sep: Key)
    requires KeysOk(keys) && KeySum(keys) <= PMAX && i < |keys| && KeyOk(sep)
    ensures Placeable(KeySizes(keys[..i + 1] + [sep] + keys[i + 1..]), i + 1)
  {
    var keys' := keys[..i + 1] + [sep] + keys[i + 1..];
    KeySumCat(keys[..i + 1], keys[i + 1..]);
    assert keys[..i + 1] + keys[i + 1..] == keys;
    assert keys'[..i + 1] == keys[..i + 1] && keys'[i + 2..] == keys[i + 1..];
    KeysPlaceable(keys', i + 1);
  }

  lemma {:induction false} PutTreeGood(t: Tree, e: Entry, append: bool, reuse: bool, d: nat, lo: int, hi: int)
    requires Good(t, d, lo, hi) && EntryOk(e) && lo <= e.key.rank < hi
    ensures PutGood(PutTree(t, e, append, reuse), Flat(t), e, d, lo, hi)
    decreases d
  {
    match t
    case Leaf(es) =>
      PutLeafGood(es, e, append && |es| > 0 && LeafIndex(es, e.key.rank) == |es|, reuse, lo, hi);
    case Branch(keys, kids) =>
      var i := ChildIndex(keys, e.key.rank);
      ChildIndexOk(keys, lo, hi, e.key.rank);
      PutTreeGood(kids[i], e, append, reuse, d - 1, Lo(keys, lo, i), Hi(keys, hi, i));
      match PutTree(kids[i], e, append, reuse)
      case Full =>
      case One(c) =>
        ReplaceOne(keys, kids, d, lo, hi, i, c);
        UpsertedInside(FlatAll(kids[..i]), Flat(kids[i]), Flat(c), FlatAll(kids[i + 1..]), e);
      case Two(l, sep, r) =>
        PutSplitGood(keys, kids, d, lo, hi, i, l, sep, r, e);
  }
}
