/** Inserting a key: search, node placement and recursive page splits, against a sorted map. */
module BTreeInsert {
  import opened SplitPoint
  import opened BTree

  /** Full stands for MDB_PAGE_FULL, which fails the transaction. */
  datatype PutRes = Full | One(t: Tree) | Two(l: Tree, sep: Key, r: Tree)

  // ---------------------------------------------------------------- search

  /** The child a search for rank follows: the last one whose separator is <= rank, or the first. */
  function ChildIndex(keys: seq<Key>, rank: int): (i: nat)
    requires |keys| >= 1
    ensures i < |keys|
  {
    if |keys| == 1 || keys[|keys| - 1].rank <= rank then |keys| - 1 else ChildIndex(keys[..|keys| - 1], rank)
  }

  lemma {:induction false} ChildIndexOk(keys: seq<Key>, lo: int, hi: int, rank: int)
    requires |keys| >= 1 && Separators(keys, lo, hi) && lo <= rank < hi
    ensures var i := ChildIndex(keys, rank); Lo(keys, lo, i) <= rank < Hi(keys, hi, i)
  {
    var n := |keys| - 1;
    if n > 0 && keys[n].rank > rank {
      ChildIndexOk(keys[..n], lo, keys[n].rank, rank);
    }
  }

  /** Number of entries below rank: where rank is, or belongs. */
  function LeafIndex(es: seq<Entry>, rank: int): (i: nat)
    ensures i <= |es| && (i < |es| ==> rank <= es[i].key.rank) && (i > 0 ==> es[i - 1].key.rank < rank)
  {
    if |es| == 0 || es[|es| - 1].key.rank < rank then |es| else LeafIndex(es[..|es| - 1], rank)
  }

  predicate Found(es: seq<Entry>, rank: int) { LeafIndex(es, rank) < |es| && es[LeafIndex(es, rank)].key.rank == rank }

  // ---------------------------------------------------------------- placing a node on a page

  /** All nodes of a page, one of them new: every node fits in half a page, the old ones in a page. */
  ghost predicate Placeable(sizes: seq<nat>, newindx: nat) {
    && newindx < |sizes| && (forall i :: 0 <= i < |sizes| ==> 0 < sizes[i] <= PMAX / 2)
    && Sum(sizes) - sizes[newindx] <= PMAX
  }

  function Cut(sizes: seq<nat>, newindx: nat): (s: nat)
    requires Placeable(sizes, newindx) && Sum(sizes) > PMAX
    ensures 1 <= s < |sizes|
  {
    OverFullHasThree(PMAX, sizes, newindx);
    SplitIndexRange(PMAX, sizes, newindx);
    SplitIndex(PMAX, sizes, newindx)
  }

  function CutLeaf(es: seq<Entry>, s: nat): PutRes
    requires 1 <= s < |es|
  {
    var l, r := Leaf(es[..s]), Leaf(es[s..]);
    if Used(l) <= PMAX && Used(r) <= PMAX then Two(l, es[s].key, r) else Full
  }

  /** The separator moves up: index 0 of the right page keeps no key. */
  function CutBranch(keys: seq<Key>, kids: seq<Tree>, s: nat): PutRes
    requires 1 <= s < |keys| == |kids|
  {
    var l, r := Branch(keys[..s], kids[..s]), Branch([NOKEY] + keys[s + 1..], kids[s..]);
    if Used(l) <= PMAX && Used(r) <= PMAX then Two(l, keys[s], r) else Full
  }

  /** es is the leaf with the new node at newindx; with MDB_APPEND the new node gets a page of its own. */
  function PlaceLeaf(es: seq<Entry>, newindx: nat, append: bool): PutRes
    requires Placeable(LeafSizes(es), newindx) && (append ==> newindx == |es| - 1 > 0)
  {
    if LeafSum(es) <= PMAX then One(Leaf(es))
    else CutLeaf(es, if append then newindx else Cut(LeafSizes(es), newindx))
  }

  function PlaceBranch(keys: seq<Key>, kids: seq<Tree>, newindx: nat): PutRes
    requires Placeable(KeySizes(keys), newindx) && |keys| == |kids|
  {
    if KeySum(keys) <= PMAX then One(Branch(keys, kids)) else CutBranch(keys, kids, Cut(KeySizes(keys), newindx))
  }

  lemma ReplacedPlaceable(es: seq<Entry>, j: nat, e: Entry)
    requires Sized(Leaf(es)) && j < |es| && EntryOk(e)
    ensures Placeable(LeafSizes(es[j := e]), j)
    ensures LeafSum(es[j := e]) == LeafSum(es) - LeafNode(es[j]) + LeafNode(e)
  {
    var a, b := es[..j], es[j + 1..];
    assert es == a + [es[j]] + b && es[j := e] == a + [e] + b;
    LeafSumCat(a, [es[j]]); LeafSumCat(a + [es[j]], b);
    LeafSumCat(a, [e]); LeafSumCat(a + [e], b);
    OneSum(es[j], NOKEY); OneSum(e, NOKEY);
    var es' := es[j := e];
    forall i | 0 <= i < |es'| ensures 0 < LeafNode(es'[i]) <= PMAX / 2 { NodeBounds(es'[i], NOKEY); }
  }

  lemma InsertedPlaceable(es: seq<Entry>, j: nat, e: Entry)
    requires Sized(Leaf(es)) && j <= |es| && EntryOk(e)
    ensures Placeable(LeafSizes(es[..j] + [e] + es[j..]), j)
    ensures var es' := es[..j] + [e] + es[j..]; forall i :: 0 <= i < |es'| ==> EntryOk(es'[i])
  {
    var a, b := es[..j], es[j..];
    assert es == a + b;
    LeafSumCat(a, b); LeafSumCat(a, [e]); LeafSumCat(a + [e], b);
    OneSum(e, NOKEY);
    var es' := a + [e] + b;
    forall i | 0 <= i < |es'| ensures 0 < LeafNode(es'[i]) <= PMAX / 2 && EntryOk(es'[i]) {
      assert es'[i] == if i < j then es[i] else if i == j then e else es[i - 1];
      NodeBounds(es'[i], NOKEY);
    }
  }

  lemma KeysPlaceable(keys: seq<Key>, j: nat)
    requires KeysOk(keys) && j < |keys| && KeySum(keys[..j]) + KeySum(keys[j + 1..]) <= PMAX
    ensures Placeable(KeySizes(keys), j)
  {
    var a, b := keys[..j], keys[j + 1..];
    assert keys == a + [keys[j]] + b;
    KeySumCat(a, [keys[j]]); KeySumCat(a + [keys[j]], b);
    OneSum(Entry(Key(0, 1), 0, true, 0), keys[j]);
    forall i | 0 <= i < |keys| ensures 0 < BranchNode(keys[i]) <= PMAX / 2 {
      NodeBounds(Entry(Key(0, 1), 0, true, 0), keys[i]);
    }
  }

  // ---------------------------------------------------------------- put

  /** The node of x can take e's data without being rebuilt: overflow pages that are dirty and large
      enough (reuse), or data of the same size. */
  predicate InPlace(x: Entry, e: Entry, reuse: bool) { if x.big then reuse else x.dlen == e.dlen }

  /** mdb_cursor_put on a leaf: overwrite in place, or delete and add, or add. */
  function PutLeaf(es: seq<Entry>, e: Entry, append: bool, reuse: bool): (res: PutRes)
    requires Sized(Leaf(es)) && EntryOk(e) && (append ==> |es| > 0 && LeafIndex(es, e.key.rank) == |es|)
    ensures res.Two? ==> KeyOk(res.sep)
  {
    var j := LeafIndex(es, e.key.rank);
    if Found(es, e.key.rank) then
      if InPlace(es[j], e, reuse) then One(Leaf(es[j := es[j].(dlen := e.dlen, val := e.val)])) else ReplaceLeaf(es, j, e)
    else InsertLeaf(es, j, e, append)
  }

  /** The node is deleted and added anew. */
  function ReplaceLeaf(es: seq<Entry>, j: nat, e: Entry): (res: PutRes)
    requires Sized(Leaf(es)) && EntryOk(e) && j < |es|
    ensures res.Two? ==> KeyOk(res.sep)
  {
    ReplacedPlaceable(es, j, e);
    PlaceLeaf(es[j := e], j, false)
  }

  function InsertLeaf(es: seq<Entry>, j: nat, e: Entry, append: bool): (res: PutRes)
    requires Sized(Leaf(es)) && EntryOk(e) && j <= |es| && (append ==> |es| > 0 && j == |es|)
    ensures res.Two? ==> KeyOk(res.sep)
  {
    InsertedPlaceable(es, j, e);
    PlaceLeaf(es[..j] + [e] + es[j..], j, append)
  }

  /** Child i was split: its right half and separator enter the parent, which may split in turn. */
  function PutSplit(keys: seq<Key>, kids: seq<Tree>, i: nat, l: Tree, sep: Key, r: Tree): (res: PutRes)
    requires KeysOk(keys) && KeySum(keys) <= PMAX && i < |keys| == |kids| && KeyOk(sep)
    ensures res.Two? ==> KeyOk(res.sep)
  {
    var keys' := keys[..i + 1] + [sep] + keys[i + 1..];
    KeySumCat(keys[..i + 1], keys[i + 1..]);
    assert keys[..i + 1] + keys[i + 1..] == keys;
    assert keys'[..i + 1] == keys[..i + 1] && keys'[i + 2..] == keys[i + 1..];
    KeysPlaceable(keys', i + 1);
    PlaceBranch(keys', Splice(kids, i, i + 1, [l, r]), i + 1)
  }

  function PutTree(t: Tree, e: Entry, append: bool, reuse: bool): (res: PutRes)
    requires Sized(t) && EntryOk(e)
    ensures res.Two? ==> KeyOk(res.sep)
    decreases t
  {
    match t
    case Leaf(es) =>
      PutLeaf(es, e, append && |es| > 0 && LeafIndex(es, e.key.rank) == |es|, reuse)
    case Branch(keys, kids) =>
      var i := ChildIndex(keys, e.key.rank);
      match PutTree(kids[i], e, append, reuse)
      case Full => Full
      case One(c) => One(Branch(keys, kids[i := c]))
      case Two(l, sep, r) => PutSplit(keys, kids, i, l, sep, r)
  }
}
