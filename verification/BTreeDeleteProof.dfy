/** mdb_del removes exactly the given key and keeps the tree well formed. */
module BTreeDeleteProof {
  import opened SplitPoint
  import opened BTree
  import opened BTreeInsert
  import opened BTreeInsertProof
  import opened BTreeDelete

  ghost predicate RemovedAt(was: seq<Entry>, now: seq<Entry>, rank: int, p: nat) {
    p < |was| && was[p].key.rank == rank && now == was[..p] + was[p + 1..]
  }

  ghost predicate Removed(was: seq<Entry>, now: seq<Entry>, rank: int) { exists p :: RemovedAt(was, now, rank, p) }

  lemma RemovedInside(a: seq<Entry>, was: seq<Entry>, now: seq<Entry>, b: seq<Entry>, rank: int)
    requires Removed(was, now, rank)
    ensures Removed(a + was + b, a + now + b, rank)
  {
    var p: nat :| RemovedAt(was, now, rank, p);
    Inner(a, was, b, p);
    Inner(a, was, b, p + 1);
    Regroup(a, was[..p], [], was[p + 1..], b);
    assert was[..p] + [] == was[..p] && a + was[..p] + [] == a + was[..p];
    assert RemovedAt(a + was + b, a + now + b, rank, |a| + p);
  }

  /** A page that may be one node short. */
  ghost predicate Loose(t: Tree, d: nat, lo: int, hi: int) {
    Ordered(t, d, lo, hi) && Sized(t) && NumKeys(t) + 1 >= MinKeys(t)
  }

  ghost predicate DelGood(res: DelRes, was: seq<Entry>, rank: int, d: nat, lo: int, hi: int) {
    match res
    case Missing => forall i :: 0 <= i < |was| ==> was[i].key.rank != rank
    case Stuck => true
    case Done(t) => Good(t, d, lo, hi) && Removed(was, Flat(t), rank)
    case Check(t) => Loose(t, d, lo, hi) && Removed(was, Flat(t), rank)
    case Halves(l, sep, r) =>
      && Good(l, d, lo, sep.rank) && Good(r, d, sep.rank, hi) && lo < sep.rank < hi && KeyOk(sep)
      && Removed(was, Flat(l) + Flat(r), rank)
  }

  lemma {:induction false} GoodIsBushy(t: Tree, d: nat, lo: int, hi: int)
    requires Ordered(t, d, lo, hi) && Filled(t)
    ensures Bushy(t)
    decreases d
  {
    if t.Branch? {
      forall i | 0 <= i < |t.kids| ensures Kin(t.kids[i], t.kids[0]) && Bushy(t.kids[i]) {
        GoodIsBushy(t.kids[i], d - 1, Lo(t.keys, lo, i), Hi(t.keys, hi, i));
      }
    }
  }

  // ---------------------------------------------------------------- sizes

  lemma MulMono(a: nat, b: nat, d: nat)
    requires a <= b
    ensures a * d <= b * d
  {
  }

  lemma DivBelow(n: nat, d: nat, q: nat)
    requires d > 0 && n / d < q
    ensures n < q * d
  {
    MulMono(n / d + 1, q, d);
  }

  lemma FillBelow(u: nat)
    requires 1000 * u / PMAX < FILL_THRESHOLD
    ensures 4 * u < PMAX
  {
    DivBelow(1000 * u, PMAX, FILL_THRESHOLD);
  }

  /** Less than a quarter of a page, or of its minimum of nodes. */
  ghost predicate Short(t: Tree) { 4 * Used(t) < PMAX || NumKeys(t) < if t.Leaf? then 1 else 2 }

  /** At least a quarter of a page, and more than the minimum of nodes. */
  ghost predicate Rich(t: Tree) { 4 * Used(t) >= PMAX && NumKeys(t) > if t.Leaf? then 1 else 2 }

  /** The threshold of mdb_rebalance. */
  lemma ShortExactly(t: Tree)
    ensures NeedsRebalance(t) <==> Short(t)
  {
    if Fill(t) < FILL_THRESHOLD { FillBelow(Used(t)); } else { FillAbove(Used(t)); }
  }

  /** The neighbours that give a node away. */
  lemma LendExactly(t: Tree)
    ensures CanLend(t) <==> Rich(t)
  {
    if Fill(t) < FILL_THRESHOLD { FillBelow(Used(t)); } else { FillAbove(Used(t)); }
  }

  lemma FillAbove(u: nat)
    requires 1000 * u / PMAX >= FILL_THRESHOLD
    ensures 4 * u >= PMAX
  {
    MulMono(FILL_THRESHOLD, 1000 * u / PMAX, PMAX);
  }

  lemma KeySumAtMost(keys: seq<Key>)
    requires KeysOk(keys)
    ensures KeySum(keys) <= 10 + (|keys| - 1) * 522
  {
    var a, b := [keys[0]], keys[1..];
    assert keys == a + b;
    KeySumCat(a, b);
    OneSum(Entry(Key(0, 1), 0, true, 0), keys[0]);
    forall i | 0 <= i < |b| ensures BranchNode(b[i]) <= 522 { NodeBounds(Entry(Key(0, 1), 0, true, 0), b[i]); }
    SumAtMost(KeySizes(b), 522);
  }

  /** A page that is rebalanced fills at most a quarter. */
  lemma NeedyIsSmall(t: Tree)
    requires NeedsRebalance(t) && (t.Branch? ==> KeysOk(t.keys))
    ensures 4 * Used(t) <= PMAX
  {
    if Fill(t) < FILL_THRESHOLD {
      FillBelow(Used(t));
    } else if t.Leaf? {
      assert LeafSizes(t.es) == [];
    } else {
      KeySumAtMost(t.keys);
    }
  }

  /** A neighbour that cannot spare a node fills at most half a page. */
  lemma PoorIsHalf(t: Tree)
    requires !CanLend(t) && Sized(t)
    ensures 2 * Used(t) <= PMAX
  {
    if Fill(t) < FILL_THRESHOLD {
      FillBelow(Used(t));
    } else if t.Leaf? {
      if |t.es| == 1 {
        OneSum(t.es[0], NOKEY);
        NodeBounds(t.es[0], NOKEY);
        assert t.es == [t.es[0]];
      } else {
        assert LeafSizes(t.es) == [];
      }
    } else {
      KeySumAtMost(t.keys);
    }
  }

  lemma RestoredSum(a: seq<Key>, k: Key, b: seq<Key>)
    requires KeysOk(b) && KeyOk(k)
    ensures KeySum(a + [k] + b[1..]) <= KeySum(a) + KeySum(b) + 512
    ensures KeySum([NOKEY, k] + b[1..]) == KeySum(b) + BranchNode(k)
  {
    var c := b[1..];
    assert b == [NOKEY] + c && [NOKEY, k] + c == [NOKEY] + [k] + c;
    KeySumCat([NOKEY], c); KeySumCat(a, [k]); KeySumCat(a + [k], c);
    KeySumCat([NOKEY], [k]); KeySumCat([NOKEY] + [k], c);
    OneSum(Entry(Key(0, 1), 0, true, 0), NOKEY);
    OneSum(Entry(Key(0, 1), 0, true, 0), k);
    NodeBounds(Entry(Key(0, 1), 0, true, 0), k);
  }

  /** Whenever mdb_rebalance merges, the merged page fits, restored key included. */
  lemma MergeFits(l: Tree, r: Tree)
    requires Kin(l, r) && Sized(l) && Sized(r)
    requires r.Branch? ==> KeyOk(LowKey(r.kids[0]))
    requires (NeedsRebalance(l) && !CanLend(r)) || (NeedsRebalance(r) && !CanLend(l))
    ensures Used(Merge(l, r)) <= PMAX
  {
    if NeedsRebalance(l) && !CanLend(r) {
      NeedyIsSmall(l); PoorIsHalf(r);
    } else {
      NeedyIsSmall(r); PoorIsHalf(l);
    }
    if l.Leaf? {
      LeafSumCat(l.es, r.es);
    } else {
      RestoredSum(l.keys, LowKey(r.kids[0]), r.keys);
    }
  }

  // ---------------------------------------------------------------- pairs of neighbours

  /** Two neighbouring pages around separator m. */
  ghost predicate Neighbours(l: Tree, r: Tree, d: nat, lo: int, m: int, hi: int) {
    && Ordered(l, d, lo, m) && Ordered(r, d, m, hi) && lo < m < hi && Sized(l) && Sized(r)
    && (d > 0 ==> NumKeys(l) >= 1 && NumKeys(r) >= 1)
  }

  ghost predicate PairGood(p: Pair, d: nat, lo: int, hi: int) {
    Good(p.l, d, lo, p.sep.rank) && Good(p.r, d, p.sep.rank, hi) && lo < p.sep.rank < hi && KeyOk(p.sep)
  }

  lemma MergeLeaves(l: Tree, r: Tree, lo: int, m: int, hi: int)
    requires Neighbours(l, r, 0, lo, m, hi) && Used(Merge(l, r)) <= PMAX && NumKeys(l) + NumKeys(r) >= 1
    ensures Good(Merge(l, r), 0, lo, hi)
  {
    CatSorted(l.es, r.es, lo, m, hi);
  }

  /** Two branch pages side by side, the second one's first key restored. */
  lemma JoinOrdered(lk: seq<Key>, lc: seq<Tree>, rk: seq<Key>, rc: seq<Tree>, k: Key, d: nat, lo: int, m: int, hi: int)
    requires Ordered(Branch(lk, lc), d, lo, m) && Ordered(Branch(rk, rc), d, m, hi) && d > 0
    requires m <= k.rank && lo < k.rank < hi && Ordered(rc[0], d - 1, k.rank, Hi(rk, hi, 0))
    requires |rk| > 1 ==> k.rank < rk[1].rank
    ensures Ordered(Branch(lk + [k] + rk[1..], lc + rc), d, lo, hi)
  {
    var a, keys, kids := |lk|, lk + [k] + rk[1..], lc + rc;
    assert forall i :: 0 <= i < |keys| ==> keys[i] == if i < a then lk[i] else if i == a then k else rk[i - a];
    Widen(lc[a - 1], d - 1, Lo(lk, lo, a - 1), m, Lo(lk, lo, a - 1), k.rank);
    forall i | 0 <= i < |kids| ensures Filled(kids[i]) && Ordered(kids[i], d - 1, Lo(keys, lo, i), Hi(keys, hi, i)) {
      if i < a - 1 {
        assert kids[i] == lc[i] && Lo(keys, lo, i) == Lo(lk, lo, i) && Hi(keys, hi, i) == Hi(lk, m, i);
      } else if i == a - 1 {
        assert kids[i] == lc[i] && Lo(keys, lo, i) == Lo(lk, lo, i) && Hi(keys, hi, i) == k.rank;
      } else if i == a {
        assert kids[i] == rc[0] && Lo(keys, lo, i) == k.rank && Hi(keys, hi, i) == Hi(rk, hi, 0);
      } else {
        assert kids[i] == rc[i - a] && Lo(keys, lo, i) == Lo(rk, m, i - a) && Hi(keys, hi, i) == Hi(rk, hi, i - a);
      }
    }
    JoinSeparators(lk, rk, k, lo, m, hi);
  }

  lemma JoinSeparators(lk: seq<Key>, rk: seq<Key>, k: Key, lo: int, m: int, hi: int)
    requires |lk| >= 1 && |rk| >= 1 && Separators(lk, lo, m) && Separators(rk, m, hi)
    requires m <= k.rank && lo < k.rank < hi && m <= hi && (|rk| > 1 ==> k.rank < rk[1].rank)
    ensures Separators(lk + [k] + rk[1..], lo, hi)
  {
    var a, keys := |lk|, lk + [k] + rk[1..];
    assert forall i :: 0 <= i < |keys| ==> keys[i] == if i < a then lk[i] else if i == a then k else rk[i - a];
    forall i, j | 1 <= i < j < |keys| ensures keys[i].rank < keys[j].rank {
      if i < a && a < j {
        assert lk[i].rank < m && m < rk[j - a].rank;
      } else if i == a && j > a + 1 {
        assert rk[1].rank < rk[j - a].rank;
      }
    }
  }

  /** The first key of a branch page, as found at the lowest leaf. */
  lemma FirstKey(t: Tree, d: nat, lo: int, hi: int)
    requires t.Branch? && Ordered(t, d, lo, hi) && Sized(t)
    ensures var k := LowKey(t.kids[0]);
      && lo <= k.rank < hi && KeyOk(k) && Ordered(t.kids[0], d - 1, k.rank, Hi(t.keys, hi, 0))
      && (|t.keys| > 1 ==> k.rank < t.keys[1].rank)
  {
    Narrow(t.kids[0], d - 1, Lo(t.keys, lo, 0), Hi(t.keys, hi, 0));
  }

  lemma JoinSized(lk: seq<Key>, lc: seq<Tree>, rk: seq<Key>, rc: seq<Tree>, k: Key)
    requires KeysOk(lk) && KeysOk(rk) && KeyOk(k) && |lk| == |lc| && |rk| == |rc|
    requires forall i :: 0 <= i < |lc| ==> Sized(lc[i])
    requires forall i :: 0 <= i < |rc| ==> Sized(rc[i])
    requires KeySum(lk + [k] + rk[1..]) <= PMAX
    ensures Sized(Branch(lk + [k] + rk[1..], lc + rc))
  {
    var a, keys := |lk|, lk + [k] + rk[1..];
    assert forall i :: 0 <= i < |keys| ==> keys[i] == if i < a then lk[i] else if i == a then k else rk[i - a];
  }

  lemma MergeBranches(l: Tree, r: Tree, d: nat, lo: int, m: int, hi: int)
    requires d > 0 && Neighbours(l, r, d, lo, m, hi) && Used(Merge(l, r)) <= PMAX
    ensures Good(Merge(l, r), d, lo, hi) && Flat(Merge(l, r)) == Flat(l) + Flat(r)
  {
    FirstKey(r, d, m, hi);
    var k := LowKey(r.kids[0]);
    JoinOrdered(l.keys, l.kids, r.keys, r.kids, k, d, lo, m, hi);
    JoinSized(l.keys, l.kids, r.keys, r.kids, k);
    FlatCat(l.kids, r.kids);
  }

  /** Merging neighbours keeps their entries, and the result fits on a page. */
  lemma MergeGood(l: Tree, r: Tree, d: nat, lo: int, m: int, hi: int)
    requires Neighbours(l, r, d, lo, m, hi) && NumKeys(l) + NumKeys(r) >= 1
    requires (NeedsRebalance(l) && !CanLend(r)) || (NeedsRebalance(r) && !CanLend(l))
    ensures Good(Merge(l, r), d, lo, hi) && Flat(Merge(l, r)) == Flat(l) + Flat(r)
  {
    if d > 0 { FirstKey(r, d, m, hi); }
    MergeFits(l, r);
    if d == 0 { MergeLeaves(l, r, lo, m, hi); } else { MergeBranches(l, r, d, lo, m, hi); }
  }

  // ---------------------------------------------------------------- moves

  lemma MoveLeafRight(l: Tree, r: Tree, lo: int, m: int, hi: int)
    requires Neighbours(l, r, 0, lo, m, hi) && NeedsRebalance(l) && CanLend(r)
    ensures var p := MoveFromRight(l, r); PairGood(p, 0, lo, hi) && Flat(p.l) + Flat(p.r) == Flat(l) + Flat(r)
  {
    var x, rest := r.es[0], r.es[1..];
    assert r.es == [x] + rest && l.es + r.es == (l.es + [x]) + rest;
    LeafSumCat([x], rest); LeafSumCat(l.es, [x]); OneSum(x, NOKEY); NodeBounds(x, NOKEY);
    NeedyIsSmall(l);
    CatSorted(l.es, [x], lo, m, rest[0].key.rank);
    assert EntryOk(r.es[1]);
  }

  lemma MoveLeafLeft(l: Tree, r: Tree, lo: int, m: int, hi: int)
    requires Neighbours(l, r, 0, lo, m, hi) && NeedsRebalance(r) && CanLend(l)
    ensures var p := MoveFromLeft(l, r); PairGood(p, 0, lo, hi) && Flat(p.l) + Flat(p.r) == Flat(l) + Flat(r)
  {
    var n := |l.es| - 1;
    var x, rest := l.es[n], l.es[..n];
    assert l.es == rest + [x] && l.es + r.es == rest + ([x] + r.es);
    LeafSumCat(rest, [x]); LeafSumCat([x], r.es); OneSum(x, NOKEY); NodeBounds(x, NOKEY);
    NeedyIsSmall(r);
    assert l.es[0].key.rank < x.key.rank;
    CatSorted([x], r.es, x.key.rank, m, hi);
  }

  lemma MoveRightOrdered(l: Tree, r: Tree, d: nat, lo: int, m: int, hi: int, k: Key)
    requires d > 0 && Neighbours(l, r, d, lo, m, hi) && |r.keys| >= 3 && k == LowKey(r.kids[0])
    ensures Ordered(Branch(l.keys + [k], l.kids + [r.kids[0]]), d, lo, r.keys[1].rank)
    ensures Ordered(Branch([NOKEY] + r.keys[2..], r.kids[1..]), d, r.keys[1].rank, hi)
  {
    FirstKey(r, d, m, hi);
    CutOrdered(r.keys, r.kids, 1, d, m, hi);
    assert r.keys[..1] == [NOKEY] && r.kids[..1] == [r.kids[0]] && r.keys[..1][1..] == [];
    JoinOrdered(l.keys, l.kids, r.keys[..1], r.kids[..1], k, d, lo, m, r.keys[1].rank);
    assert l.keys + [k] + [] == l.keys + [k];
  }

  lemma MoveRightSized(l: Tree, r: Tree, k: Key)
    requires l.Branch? && r.Branch? && Sized(l) && Sized(r) && KeyOk(k) && NeedsRebalance(l) && |r.keys| >= 3
    ensures Sized(Branch(l.keys + [k], l.kids + [r.kids[0]]))
  {
    NeedyIsSmall(l);
    RestoredSum(l.keys, k, [NOKEY]);
    OneSum(Entry(Key(0, 1), 0, true, 0), NOKEY);
    assert l.keys + [k] + [NOKEY][1..] == l.keys + [k];
    JoinSized(l.keys, l.kids, [NOKEY], [r.kids[0]], k);
  }

  lemma DropFirstSized(r: Tree)
    requires r.Branch? && Sized(r) && |r.keys| >= 2
    ensures Sized(Branch([NOKEY] + r.keys[2..], r.kids[1..]))
  {
    var n, c := |r.keys|, r.keys[2..];
    assert r.keys == [NOKEY] + [r.keys[1]] + c;
    KeySumCat([NOKEY], [r.keys[1]]); KeySumCat([NOKEY] + [r.keys[1]], c); KeySumCat([NOKEY], c);
    assert r.keys[2..n] == c && r.kids[1..n] == r.kids[1..];
    SizedPart(r.keys, r.kids, 1, n);
  }

  lemma ShiftFlat(a: seq<Tree>, x: Tree, b: seq<Tree>)
    ensures FlatAll(a) + FlatAll([x] + b) == FlatAll(a + [x]) + FlatAll(b)
  {
    FlatCat(a, [x]);
    FlatCat([x], b);
  }

  lemma MoveBranchRight(l: Tree, r: Tree, d: nat, lo: int, m: int, hi: int)
    requires d > 0 && Neighbours(l, r, d, lo, m, hi) && NeedsRebalance(l) && CanLend(r)
    ensures var p := MoveFromRight(l, r); PairGood(p, d, lo, hi) && Flat(p.l) + Flat(p.r) == Flat(l) + Flat(r)
  {
    FirstKey(r, d, m, hi);
    MoveRightOrdered(l, r, d, lo, m, hi, LowKey(r.kids[0]));
    MoveRightSized(l, r, LowKey(r.kids[0]));
    DropFirstSized(r);
    ShiftFlat(l.kids, r.kids[0], r.kids[1..]);
    assert r.kids == [r.kids[0]] + r.kids[1..];
  }

  lemma MoveLeftOrdered(l: Tree, r: Tree, d: nat, lo: int, m: int, hi: int, k: Key)
    requires d > 0 && Neighbours(l, r, d, lo, m, hi) && |l.keys| >= 2 && k == LowKey(r.kids[0])
    ensures var n := |l.keys| - 1;
      && Ordered(Branch(l.keys[..n], l.kids[..n]), d, lo, l.keys[n].rank)
      && Ordered(Branch([NOKEY, k] + r.keys[1..], [l.kids[n]] + r.kids), d, l.keys[n].rank, hi)
  {
    var n := |l.keys| - 1;
    FirstKey(r, d, m, hi);
    CutOrdered(l.keys, l.kids, n, d, lo, m);
    assert [NOKEY] + l.keys[n + 1..] == [NOKEY] && l.kids[n..] == [l.kids[n]];
    JoinOrdered([NOKEY], [l.kids[n]], r.keys, r.kids, k, d, l.keys[n].rank, m, hi);
    assert [NOKEY] + [k] + r.keys[1..] == [NOKEY, k] + r.keys[1..];
  }

  lemma MoveLeftSized(l: Tree, r: Tree, k: Key)
    requires l.Branch? && r.Branch? && Sized(l) && Sized(r) && KeyOk(k) && NeedsRebalance(r) && |l.keys| >= 2
    ensures Sized(Branch([NOKEY, k] + r.keys[1..], [l.kids[|l.keys| - 1]] + r.kids))
  {
    NeedyIsSmall(r);
    RestoredSum([], k, r.keys); NodeBounds(Entry(Key(0, 1), 0, true, 0), k);
    assert [NOKEY] + [k] + r.keys[1..] == [NOKEY, k] + r.keys[1..];
    JoinSized([NOKEY], [l.kids[|l.keys| - 1]], r.keys, r.kids, k);
  }

  lemma DropLastSized(l: Tree)
    requires l.Branch? && Sized(l) && |l.keys| >= 2
    ensures var n := |l.keys| - 1; Sized(Branch(l.keys[..n], l.kids[..n]))
  {
    var n := |l.keys| - 1;
    assert l.keys == l.keys[..n] + [l.keys[n]];
    KeySumCat(l.keys[..n], [l.keys[n]]);
    assert [NOKEY] + l.keys[1..n] == l.keys[..n] && l.kids[0..n] == l.kids[..n];
    SizedPart(l.keys, l.kids, 0, n);
  }

  lemma MoveBranchLeft(l: Tree, r: Tree, d: nat, lo: int, m: int, hi: int)
    requires d > 0 && Neighbours(l, r, d, lo, m, hi) && NeedsRebalance(r) && CanLend(l)
    ensures var p := MoveFromLeft(l, r); PairGood(p, d, lo, hi) && Flat(p.l) + Flat(p.r) == Flat(l) + Flat(r)
  {
    var n := |l.keys| - 1;
    FirstKey(r, d, m, hi);
    MoveLeftOrdered(l, r, d, lo, m, hi, LowKey(r.kids[0]));
    MoveLeftSized(l, r, LowKey(r.kids[0]));
    DropLastSized(l);
    var a, x := l.kids[..n], l.kids[n];
    assert l.kids == a + [x];
    ShiftFlat(a, x, r.kids);
  }

  /** Moving one node between neighbours keeps their entries and gives them a valid separator. */
  lemma MoveGood(l: Tree, r: Tree, d: nat, lo: int, m: int, hi: int)
    requires Neighbours(l, r, d, lo, m, hi)
    ensures NeedsRebalance(l) && CanLend(r) ==>
      var p := MoveFromRight(l, r); PairGood(p, d, lo, hi) && Flat(p.l) + Flat(p.r) == Flat(l) + Flat(r)
    ensures NeedsRebalance(r) && CanLend(l) ==>
      var p := MoveFromLeft(l, r); PairGood(p, d, lo, hi) && Flat(p.l) + Flat(p.r) == Flat(l) + Flat(r)
  {
    if NeedsRebalance(l) && CanLend(r) {
      if d == 0 { MoveLeafRight(l, r, lo, m, hi); } else { MoveBranchRight(l, r, d, lo, m, hi); }
    }
    if NeedsRebalance(r) && CanLend(l) {
      if d == 0 { MoveLeafLeft(l, r, lo, m, hi); } else { MoveBranchLeft(l, r, d, lo, m, hi); }
    }
  }

  // ---------------------------------------------------------------- the parent

  lemma ParentPair(keys: seq<Key>, kids: seq<Tree>, d: nat, lo: int, hi: int, m: nat, p: Pair)
    requires Good(Branch(keys, kids), d, lo, hi) && 1 <= m < |keys|
    requires PairGood(p, d - 1, Lo(keys, lo, m - 1), Hi(keys, hi, m))
    ensures Ordered(Branch(keys[m := p.sep], Splice(kids, m - 1, m + 1, [p.l, p.r])), d, lo, hi)
  {
    FlatNonEmpty(Branch(keys, kids), d, lo, hi);
    TwoOrdered(p.l, p.sep, p.r, d, Lo(keys, lo, m - 1), Hi(keys, hi, m));
    SpliceOrdered(keys, kids, d, lo, hi, m - 1, m + 1, [NOKEY, p.sep], [p.l, p.r]);
    assert SpliceKeys(keys, m - 1, m + 1, [NOKEY, p.sep]) == keys[m := p.sep];
  }

  lemma ParentPairSized(kids: seq<Tree>, m: nat, p: Pair)
    requires (forall k :: 0 <= k < |kids| ==> Sized(kids[k])) && 1 <= m < |kids| && Sized(p.l) && Sized(p.r)
    ensures var c := Splice(kids, m - 1, m + 1, [p.l, p.r]); forall k :: 0 <= k < |c| ==> Sized(c[k])
  {
    SpliceAt(kids, m - 1, m + 1, [p.l, p.r]);
  }

  lemma MovedGood(keys: seq<Key>, kids: seq<Tree>, d: nat, lo: int, hi: int, m: nat, p: Pair)
    requires Good(Branch(keys, kids), d, lo, hi) && 1 <= m < |keys|
    requires PairGood(p, d - 1, Lo(keys, lo, m - 1), Hi(keys, hi, m))
    ensures var flat := FlatAll(kids[..m - 1]) + (Flat(p.l) + Flat(p.r)) + FlatAll(kids[m + 1..]);
      match Moved(keys, kids, m, p)
      case Done(t) => Good(t, d, lo, hi) && Flat(t) == flat
      case Halves(l, sep, r) =>
        && Good(l, d, lo, sep.rank) && Good(r, d, sep.rank, hi) && lo < sep.rank < hi && KeyOk(sep)
        && Flat(l) + Flat(r) == flat
      case Stuck => true
      case _ => false
  {
    var wc := [p.l, p.r];
    ParentPair(keys, kids, d, lo, hi, m, p);
    ParentPairSized(kids, m, p);
    UpdatePlaceable(keys, m, p.sep);
    PlaceBranchGood(keys[m := p.sep], Splice(kids, m - 1, m + 1, wc), m, d, lo, hi);
    PairFlat(kids, m, p);
  }

  lemma PairFlat(kids: seq<Tree>, m: nat, p: Pair)
    requires 1 <= m < |kids|
    ensures FlatAll(Splice(kids, m - 1, m + 1, [p.l, p.r])) == FlatAll(kids[..m - 1]) + (Flat(p.l) + Flat(p.r)) + FlatAll(kids[m + 1..])
  {
    FlatThree(kids[..m - 1], [p.l, p.r], kids[m + 1..]);
    FlatCat([p.l], [p.r]);
    FlatOne(p.l);
    FlatOne(p.r);
    assert [p.l] + [p.r] == [p.l, p.r];
  }

  lemma OneOrdered(t: Tree, d: nat, lo: int, hi: int)
    requires d > 0 && Good(t, d - 1, lo, hi)
    ensures Ordered(Branch([NOKEY], [t]), d, lo, hi)
  {
  }

  lemma MergedOrdered(keys: seq<Key>, kids: seq<Tree>, d: nat, lo: int, hi: int, m: nat, t: Tree)
    requires Good(Branch(keys, kids), d, lo, hi) && 1 <= m < |keys|
    requires Good(t, d - 1, Lo(keys, lo, m - 1), Hi(keys, hi, m))
    ensures Ordered(Merged(keys, kids, m, t), d, lo, hi)
  {
    FlatNonEmpty(Branch(keys, kids), d, lo, hi);
    OneOrdered(t, d, Lo(keys, lo, m - 1), Hi(keys, hi, m));
    SpliceOrdered(keys, kids, d, lo, hi, m - 1, m + 1, [NOKEY], [t]);
    assert SpliceKeys(keys, m - 1, m + 1, [NOKEY]) == WithoutAt(keys, m);
  }

  lemma WithoutKey(keys: seq<Key>, m: nat)
    requires m < |keys|
    ensures KeySum(WithoutAt(keys, m)) <= KeySum(keys)
  {
    Parts(keys, m);
    KeySumCat(keys[..m], [keys[m]]);
    KeySumCat(keys[..m] + [keys[m]], keys[m + 1..]);
    KeySumCat(keys[..m], keys[m + 1..]);
  }

  lemma MergedSized(keys: seq<Key>, kids: seq<Tree>, m: nat, t: Tree)
    requires Sized(Branch(keys, kids)) && 1 <= m < |keys| && Sized(t)
    ensures Sized(Merged(keys, kids, m, t))
  {
    WithoutKey(keys, m);
    SpliceAt(kids, m - 1, m + 1, [t]);
    var k := WithoutAt(keys, m);
    assert forall i :: 0 <= i < |k| ==> k[i] == if i < m then keys[i] else keys[i + 1];
  }

  lemma MergedGood(keys: seq<Key>, kids: seq<Tree>, d: nat, lo: int, hi: int, m: nat, t: Tree)
    requires Good(Branch(keys, kids), d, lo, hi) && 1 <= m < |keys|
    requires Good(t, d - 1, Lo(keys, lo, m - 1), Hi(keys, hi, m))
    ensures var t' := Merged(keys, kids, m, t);
      Loose(t', d, lo, hi) && Flat(t') == FlatAll(kids[..m - 1]) + Flat(t) + FlatAll(kids[m + 1..])
  {
    MergedOrdered(keys, kids, d, lo, hi, m, t);
    MergedSized(keys, kids, m, t);
    FlatThree(kids[..m - 1], [t], kids[m + 1..]);
    FlatOne(t);
  }

  lemma FlatPair(kids: seq<Tree>, m: nat)
    requires 1 <= m < |kids|
    ensures FlatAll(kids) == FlatAll(kids[..m - 1]) + Flat(kids[m - 1]) + Flat(kids[m]) + FlatAll(kids[m + 1..])
  {
    FlatAt(kids, m);
    FlatAt(kids[..m], m - 1);
    assert kids[..m][..m - 1] == kids[..m - 1] && kids[..m][m..] == [];
  }

  /** The right or the left one of two neighbouring children replaced by a tree with one entry less. */
  lemma RightRemoved(kids: seq<Tree>, m: nat, t: Tree, rank: int)
    requires 1 <= m < |kids| && Removed(Flat(kids[m]), Flat(t), rank)
    ensures Removed(FlatAll(kids), FlatAll(kids[..m - 1]) + (Flat(kids[m - 1]) + Flat(t)) + FlatAll(kids[m + 1..]), rank)
  {
    var a, b, x := FlatAll(kids[..m - 1]), FlatAll(kids[m + 1..]), Flat(kids[m - 1]);
    FlatPair(kids, m);
    RemovedInside(a + x, Flat(kids[m]), Flat(t), b, rank);
    Grouped(a, x, Flat(t), b);
  }

  lemma Grouped(a: seq<Entry>, x: seq<Entry>, y: seq<Entry>, b: seq<Entry>)
    ensures a + x + y + b == a + (x + y) + b
  {
  }

  lemma RemovedFirst(a: seq<Entry>, x: seq<Entry>, z: seq<Entry>, y: seq<Entry>, b: seq<Entry>, rank: int)
    requires Removed(x, z, rank)
    ensures Removed(a + x + y + b, a + (z + y) + b, rank)
  {
    RemovedInside(a, x, z, y + b, rank);
    assert a + x + y + b == a + x + (y + b);
    assert a + (z + y) + b == a + z + (y + b);
  }

  lemma LeftRemoved(kids: seq<Tree>, m: nat, t: Tree, rank: int)
    requires 1 <= m < |kids| && Removed(Flat(kids[m - 1]), Flat(t), rank)
    ensures Removed(FlatAll(kids), FlatAll(kids[..m - 1]) + (Flat(t) + Flat(kids[m])) + FlatAll(kids[m + 1..]), rank)
  {
    FlatPair(kids, m);
    RemovedFirst(FlatAll(kids[..m - 1]), Flat(kids[m - 1]), Flat(t), Flat(kids[m]), FlatAll(kids[m + 1..]), rank);
  }

  lemma LendPair(keys: seq<Key>, kids: seq<Tree>, d: nat, lo: int, hi: int, m: nat, l: Tree, r: Tree, rank: int, right: bool)
    requires Good(Branch(keys, kids), d, lo, hi) && 1 <= m < |kids|
    requires Neighbours(l, r, d - 1, Lo(keys, lo, m - 1), keys[m].rank, Hi(keys, hi, m))
    requires NeedsRebalance(if right then l else r) && CanLend(if right then r else l)
    requires Removed(FlatAll(kids), FlatAll(kids[..m - 1]) + (Flat(l) + Flat(r)) + FlatAll(kids[m + 1..]), rank)
    ensures DelGood(Moved(keys, kids, m, if right then MoveFromRight(l, r) else MoveFromLeft(l, r)), FlatAll(kids), rank, d, lo, hi)
  {
    MoveGood(l, r, d - 1, Lo(keys, lo, m - 1), keys[m].rank, Hi(keys, hi, m));
    MovedGood(keys, kids, d, lo, hi, m, if right then MoveFromRight(l, r) else MoveFromLeft(l, r));
  }

  lemma MergePair(keys: seq<Key>, kids: seq<Tree>, d: nat, lo: int, hi: int, m: nat, l: Tree, r: Tree, rank: int)
    requires Good(Branch(keys, kids), d, lo, hi) && 1 <= m < |kids|
    requires Neighbours(l, r, d - 1, Lo(keys, lo, m - 1), keys[m].rank, Hi(keys, hi, m)) && NumKeys(l) + NumKeys(r) >= 1
    requires (NeedsRebalance(l) && !CanLend(r)) || (NeedsRebalance(r) && !CanLend(l))
    requires Removed(FlatAll(kids), FlatAll(kids[..m - 1]) + (Flat(l) + Flat(r)) + FlatAll(kids[m + 1..]), rank)
    ensures DelGood(Check(Merged(keys, kids, m, Merge(l, r))), FlatAll(kids), rank, d, lo, hi)
  {
    MergeGood(l, r, d - 1, Lo(keys, lo, m - 1), keys[m].rank, Hi(keys, hi, m));
    MergedGood(keys, kids, d, lo, hi, m, Merge(l, r));
  }

  lemma RebalanceGood(keys: seq<Key>, kids: seq<Tree>, d: nat, lo: int, hi: int, i: nat, c: Tree, rank: int)
    requires Good(Branch(keys, kids), d, lo, hi) && i < |kids|
    requires Loose(c, d - 1, Lo(keys, lo, i), Hi(keys, hi, i)) && NeedsRebalance(c) && Removed(Flat(kids[i]), Flat(c), rank)
    requires Bushy(Branch(keys, kids)) && Kin(c, kids[i]) && Movable(c)
    ensures DelGood(Rebalance(keys, kids, i, c), FlatAll(kids), rank, d, lo, hi)
  {
    if i == 0 {
      var r := kids[1];
      assert Filled(r) && Ordered(r, d - 1, Lo(keys, lo, 1), Hi(keys, hi, 1));
      LeftRemoved(kids, 1, c, rank);
      if CanLend(r) { LendPair(keys, kids, d, lo, hi, 1, c, r, rank, true); } else { MergePair(keys, kids, d, lo, hi, 1, c, r, rank); }
    } else {
      var l := kids[i - 1];
      assert Filled(l) && Ordered(l, d - 1, Lo(keys, lo, i - 1), Hi(keys, hi, i - 1));
      RightRemoved(kids, i, c, rank);
      if CanLend(l) { LendPair(keys, kids, d, lo, hi, i, l, c, rank, false); } else { MergePair(keys, kids, d, lo, hi, i, l, c, rank); }
    }
  }

  // ---------------------------------------------------------------- the whole tree

  lemma WithoutOk(es: seq<Entry>, j: nat, lo: int, hi: int)
    requires LeafOk(es, lo, hi) && j < |es|
    ensures LeafOk(WithoutAt(es, j), lo, hi) && LeafSum(WithoutAt(es, j)) <= LeafSum(es)
  {
    WithoutSum(es, j);
    var now := WithoutAt(es, j);
    assert forall i :: 0 <= i < |now| ==> now[i] == if i < j then es[i] else es[i + 1];
  }

  lemma WithoutSum(es: seq<Entry>, j: nat)
    requires j < |es|
    ensures LeafSum(WithoutAt(es, j)) <= LeafSum(es)
  {
    Parts(es, j);
    LeafSumCat(es[..j], [es[j]]);
    LeafSumCat(es[..j] + [es[j]], es[j + 1..]);
    LeafSumCat(es[..j], es[j + 1..]);
  }

  lemma NotFound(es: seq<Entry>, rank: int)
    requires SortedEs(es) && !Found(es, rank)
    ensures forall i :: 0 <= i < |es| ==> es[i].key.rank != rank
  {
    var j := LeafIndex(es, rank);
    forall i | 0 <= i < |es| ensures es[i].key.rank != rank {
      if i < j { assert es[i].key.rank <= es[j - 1].key.rank; }
    }
  }

  lemma DelLeafGood(es: seq<Entry>, rank: int, lo: int, hi: int)
    requires Good(Leaf(es), 0, lo, hi) && Bushy(Leaf(es))
    ensures DelGood(DelTree(Leaf(es), rank), es, rank, 0, lo, hi)
  {
    if Found(es, rank) {
      WithoutOk(es, LeafIndex(es, rank), lo, hi);
      assert RemovedAt(es, WithoutAt(es, LeafIndex(es, rank)), rank, LeafIndex(es, rank));
    } else {
      NotFound(es, rank);
    }
  }

  lemma MissingElsewhere(keys: seq<Key>, kids: seq<Tree>, d: nat, lo: int, hi: int, i: nat, rank: int)
    requires Ordered(Branch(keys, kids), d, lo, hi) && i < |kids| && Lo(keys, lo, i) <= rank < Hi(keys, hi, i)
    requires forall k :: 0 <= k < |Flat(kids[i])| ==> Flat(kids[i])[k].key.rank != rank
    ensures forall k :: 0 <= k < |FlatAll(kids)| ==> FlatAll(kids)[k].key.rank != rank
  {
    FlatAt(kids, i);
    FlatAround(keys, kids, d, lo, hi, i);
    NowhereIn(FlatAll(kids[..i]), Flat(kids[i]), FlatAll(kids[i + 1..]), lo, Lo(keys, lo, i), Hi(keys, hi, i), hi, rank);
  }

  lemma NowhereIn(a: seq<Entry>, m: seq<Entry>, b: seq<Entry>, lo: int, l: int, h: int, hi: int, rank: int)
    requires Within(a, lo, l) && Within(b, h, hi) && l <= rank < h && forall k :: 0 <= k < |m| ==> m[k].key.rank != rank
    ensures forall k :: 0 <= k < |a + m + b| ==> (a + m + b)[k].key.rank != rank
  {
  }

  lemma HalvesGood(keys: seq<Key>, kids: seq<Tree>, d: nat, lo: int, hi: int, i: nat, l: Tree, sep: Key, r: Tree, rank: int)
    requires Good(Branch(keys, kids), d, lo, hi) && i < |kids|
    requires Good(l, d - 1, Lo(keys, lo, i), sep.rank) && Good(r, d - 1, sep.rank, Hi(keys, hi, i))
    requires Lo(keys, lo, i) < sep.rank < Hi(keys, hi, i) && KeyOk(sep)
    requires Removed(Flat(kids[i]), Flat(l) + Flat(r), rank)
    ensures DelGood(FromPut(PutSplit(keys, kids, i, l, sep, r)), FlatAll(kids), rank, d, lo, hi)
  {
    PutSplitHolds(keys, kids, d, lo, hi, i, l, sep, r);
    ReplaceTwoFlat(kids, i, l, r);
    RemovedInside(FlatAll(kids[..i]), Flat(kids[i]), Flat(l) + Flat(r), FlatAll(kids[i + 1..]), rank);
  }

  lemma KeptGood(keys: seq<Key>, kids: seq<Tree>, d: nat, lo: int, hi: int, i: nat, c: Tree, rank: int)
    requires Good(Branch(keys, kids), d, lo, hi) && i < |kids|
    requires Good(c, d - 1, Lo(keys, lo, i), Hi(keys, hi, i)) && Removed(Flat(kids[i]), Flat(c), rank)
    ensures DelGood(Done(Branch(keys, kids[i := c])), FlatAll(kids), rank, d, lo, hi)
  {
    ReplaceOne(keys, kids, d, lo, hi, i, c);
    RemovedInside(FlatAll(kids[..i]), Flat(kids[i]), Flat(c), FlatAll(kids[i + 1..]), rank);
  }

  lemma {:induction false} DelTreeGood(t: Tree, rank: int, d: nat, lo: int, hi: int)
    requires Good(t, d, lo, hi) && Bushy(t) && lo <= rank < hi
    ensures DelGood(DelTree(t, rank), Flat(t), rank, d, lo, hi)
    decreases d
  {
    match t
    case Leaf(es) => DelLeafGood(es, rank, lo, hi);
    case Branch(keys, kids) =>
      var i := ChildIndex(keys, rank);
      ChildIndexOk(keys, lo, hi, rank);
      DelTreeGood(kids[i], rank, d - 1, Lo(keys, lo, i), Hi(keys, hi, i));
      match DelTree(kids[i], rank)
      case Missing => MissingElsewhere(keys, kids, d, lo, hi, i, rank);
      case Stuck =>
      case Done(c) => KeptGood(keys, kids, d, lo, hi, i, c, rank);
      case Halves(l, sep, r) => HalvesGood(keys, kids, d, lo, hi, i, l, sep, r, rank);
      case Check(c) =>
        if NeedsRebalance(c) {
          RebalanceGood(keys, kids, d, lo, hi, i, c, rank);
        } else {
          KeptGood(keys, kids, d, lo, hi, i, c, rank);
        }
  }
}
