/** Deleting a key: node moves, merges, separator updates and recursive rebalancing. */
module BTreeDelete {
  import opened SplitPoint
  import opened BTree
  import opened BTreeInsert

  /** Check: the page lost a node and mdb_rebalance has to look at it.  Halves: a separator update
      split the page.  Stuck: that split ran into MDB_PAGE_FULL. */
  datatype DelRes = Missing | Stuck | Done(t: Tree) | Check(t: Tree) | Halves(l: Tree, sep: Key, r: Tree)

  const FILL_THRESHOLD := 250

  predicate NeedsRebalance(t: Tree) { Fill(t) < FILL_THRESHOLD || NumKeys(t) < MinKeys(t) }

  predicate CanLend(t: Tree) { Fill(t) >= FILL_THRESHOLD && NumKeys(t) > MinKeys(t) }

  predicate Kin(l: Tree, r: Tree) { l.Leaf? <==> r.Leaf? }

  ghost predicate Bushy(t: Tree) {
    t.Branch? ==> |t.kids| >= 2 && forall i :: 0 <= i < |t.kids| ==> Kin(t.kids[i], t.kids[0]) && Bushy(t.kids[i])
  }

  datatype Pair = Pair(l: Tree, sep: Key, r: Tree)

  predicate Movable(t: Tree) { t.Branch? ==> |t.keys| == |t.kids| >= 1 }

  /** mdb_node_move, first node of r to the end of l.  The key at index 0 of a branch page is found
      at the lowest leaf below; what was index 1 loses its key to the separator. */
  function MoveFromRight(l: Tree, r: Tree): (p: Pair)
    requires Kin(l, r) && Movable(l) && Sized(r) && NumKeys(r) >= 2
    ensures KeyOk(p.sep)
  {
    match r
    case Leaf(es) => Pair(Leaf(l.es + [es[0]]), es[1].key, Leaf(es[1..]))
    case Branch(keys, kids) =>
      Pair(Branch(l.keys + [LowKey(kids[0])], l.kids + [kids[0]]), keys[1], Branch([NOKEY] + keys[2..], kids[1..]))
  }

  /** mdb_node_move, last node of l to the front of r. */
  function MoveFromLeft(l: Tree, r: Tree): (p: Pair)
    requires Kin(l, r) && Sized(l) && Movable(r) && NumKeys(l) >= 2
    ensures KeyOk(p.sep)
  {
    var n := NumKeys(l) - 1;
    match l
    case Leaf(es) => Pair(Leaf(es[..n]), es[n].key, Leaf([es[n]] + r.es))
    case Branch(keys, kids) =>
      Pair(Branch(keys[..n], kids[..n]), keys[n],
           Branch([NOKEY, LowKey(r.kids[0])] + r.keys[1..], [kids[n]] + r.kids))
  }

  /** mdb_page_merge: the nodes of r are appended to l, with r's missing first key restored. */
  function Merge(l: Tree, r: Tree): Tree
    requires Kin(l, r) && Movable(l) && Movable(r)
  {
    match l
    case Leaf(es) => Leaf(es + r.es)
    case Branch(keys, kids) => Branch(keys + [LowKey(r.kids[0])] + r.keys[1..], kids + r.kids)
  }

  /** mdb_update_key on a parent, which is split if the longer key does not fit. */
  function UpdateSep(keys: seq<Key>, kids: seq<Tree>, m: nat, sep: Key): DelRes
    requires KeysOk(keys) && KeySum(keys) <= PMAX && 1 <= m < |keys| == |kids| && KeyOk(sep)
    ensures !UpdateSep(keys, kids, m, sep).Check?
    ensures UpdateSep(keys, kids, m, sep).Halves? ==> KeyOk(UpdateSep(keys, kids, m, sep).sep)
  {
    UpdatePlaceable(keys, m, sep);
    match PlaceBranch(keys[m := sep], kids, m)
    case Full => Stuck
    case One(t) => Done(t)
    case Two(l, s, r) => Halves(l, s, r)
  }

  lemma UpdatePlaceable(keys: seq<Key>, m: nat, sep: Key)
    requires KeysOk(keys) && KeySum(keys) <= PMAX && 1 <= m < |keys| && KeyOk(sep)
    ensures Placeable(KeySizes(keys[m := sep]), m)
  {
    var a, b := keys[..m], keys[m + 1..];
    assert keys == a + [keys[m]] + b;
    KeySumCat(a, [keys[m]]); KeySumCat(a + [keys[m]], b);
    assert keys[m := sep][..m] == a && keys[m := sep][m + 1..] == b;
    KeysPlaceable(keys[m := sep], m);
  }

  function WithoutAt<T>(s: seq<T>, m: nat): seq<T>
    requires m < |s|
  {
    s[..m] + s[m + 1..]
  }

  /** Pages l and r around separator m give way to p. */
  function Moved(keys: seq<Key>, kids: seq<Tree>, m: nat, p: Pair): DelRes
    requires KeysOk(keys) && KeySum(keys) <= PMAX && 1 <= m < |keys| == |kids| && KeyOk(p.sep)
    ensures !Moved(keys, kids, m, p).Check?
    ensures Moved(keys, kids, m, p).Halves? ==> KeyOk(Moved(keys, kids, m, p).sep)
  {
    UpdateSep(keys, Splice(kids, m - 1, m + 1, [p.l, p.r]), m, p.sep)
  }

  function Merged(keys: seq<Key>, kids: seq<Tree>, m: nat, t: Tree): (res: Tree)
    requires 1 <= m < |keys| == |kids|
    ensures Movable(res) && res.Branch?
  {
    Branch(WithoutAt(keys, m), Splice(kids, m - 1, m + 1, [t]))
  }

  /** mdb_rebalance on child i, now c and below the threshold: borrow a node from the left neighbour
      (the right one for i == 0) if that can spare one, else merge the two. */
  function Rebalance(keys: seq<Key>, kids: seq<Tree>, i: nat, c: Tree): (res: DelRes)
    requires Sized(Branch(keys, kids)) && Bushy(Branch(keys, kids)) && i < |kids|
    requires Kin(c, kids[i]) && Movable(c)
    ensures res.Check? ==> res.t.Branch? && Movable(res.t)
    ensures res.Halves? ==> KeyOk(res.sep)
  {
    if i == 0 then
      var r := kids[1];
      assert Sized(r);
      if CanLend(r) then Moved(keys, kids, 1, MoveFromRight(c, r)) else Check(Merged(keys, kids, 1, Merge(c, r)))
    else
      var l := kids[i - 1];
      assert Sized(l);
      if CanLend(l) then Moved(keys, kids, i, MoveFromLeft(l, c)) else Check(Merged(keys, kids, i, Merge(l, c)))
  }

  function FromPut(res: PutRes): DelRes {
    match res
    case Full => Stuck
    case One(t) => Done(t)
    case Two(l, sep, r) => Halves(l, sep, r)
  }

  function DelTree(t: Tree, rank: int): (res: DelRes)
    requires Sized(t) && Bushy(t)
    ensures res.Check? ==> Kin(res.t, t) && Movable(res.t)
    ensures res.Halves? ==> KeyOk(res.sep)
    decreases t
  {
    match t
    case Leaf(es) =>
      if Found(es, rank) then Check(Leaf(WithoutAt(es, LeafIndex(es, rank)))) else Missing
    case Branch(keys, kids) =>
      var i := ChildIndex(keys, rank);
      match DelTree(kids[i], rank)
      case Missing => Missing
      case Stuck => Stuck
      case Done(c) => Done(Branch(keys, kids[i := c]))
      case Halves(l, sep, r) => FromPut(PutSplit(keys, kids, i, l, sep, r))
      case Check(c) =>
        if NeedsRebalance(c) then Rebalance(keys, kids, i, c) else Done(Branch(keys, kids[i := c]))
  }
}
