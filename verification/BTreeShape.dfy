/**
 Which pages mdb_put and mdb_del change, and how: the leaves of the tree from left to right, and the choice between
 leaving a page alone, borrowing a node and merging on every level.
 */
module BTreeShape {
  import opened SplitPoint
  import opened BTree
  import opened BTreeInsert
  import opened BTreeInsertProof
  import opened BTreeDelete
  import opened BTreeDeleteProof
  import opened BTreeMap

  /** The leaf pages from left to right. */
  function Leaves(t: Tree): seq<seq<Entry>>
    decreases t
  {
    match t
    case Leaf(es) => [es]
    case Branch(_, kids) => LeavesAll(kids)
  }

  function LeavesAll(kids: seq<Tree>): seq<seq<Entry>>
    decreases kids
  {
    if |kids| == 0 then [] else LeavesAll(kids[..|kids| - 1]) + Leaves(kids[|kids| - 1])
  }

  lemma {:induction false} LeavesCat(a: seq<Tree>, b: seq<Tree>)
    ensures LeavesAll(a + b) == LeavesAll(a) + LeavesAll(b)
    decreases |b|
  {
    if |b| == 0 {
      assert a + b == a;
    } else {
      var c := b[..|b| - 1];
      LeavesCat(a, c);
      assert (a + b)[..|a + b| - 1] == a + c;
    }
  }

  lemma LeavesOne(t: Tree)
    ensures LeavesAll([t]) == Leaves(t)
  {
    assert [t][..0] == [];
  }

  lemma LeavesTwo(l: Tree, r: Tree)
    ensures LeavesAll([l, r]) == Leaves(l) + Leaves(r)
  {
    LeavesCat([l], [r]);
    LeavesOne(l);
    LeavesOne(r);
    assert [l] + [r] == [l, r];
  }

  lemma LeavesSplice(kids: seq<Tree>, a: nat, b: nat, w: seq<Tree>)
    requires a <= b <= |kids|
    ensures LeavesAll(Splice(kids, a, b, w)) == LeavesAll(kids[..a]) + LeavesAll(w) + LeavesAll(kids[b..])
    ensures LeavesAll(kids) == LeavesAll(kids[..a]) + LeavesAll(kids[a..b]) + LeavesAll(kids[b..])
  {
    LeavesThree(kids[..a], w, kids[b..]);
    LeavesThree(kids[..a], kids[a..b], kids[b..]);
    ThreeParts(kids, a, b);
  }

  lemma LeavesThree(a: seq<Tree>, b: seq<Tree>, c: seq<Tree>)
    ensures LeavesAll(a + b + c) == LeavesAll(a) + LeavesAll(b) + LeavesAll(c)
  {
    LeavesCat(a, b);
    LeavesCat(a + b, c);
  }

  lemma ThreeParts<T>(s: seq<T>, a: nat, b: nat)
    requires a <= b <= |s|
    ensures s[..a] + s[a..b] + s[b..] == s
  {
  }

  /** Child i of a branch page replaced. */
  lemma LeavesWith(kids: seq<Tree>, i: nat, c: Tree)
    requires i < |kids|
    ensures LeavesAll(kids[i := c]) == LeavesAll(kids[..i]) + Leaves(c) + LeavesAll(kids[i + 1..])
    ensures LeavesAll(kids) == LeavesAll(kids[..i]) + Leaves(kids[i]) + LeavesAll(kids[i + 1..])
  {
    LeavesAt(kids[..i], c, kids[i + 1..]);
    LeavesAt(kids[..i], kids[i], kids[i + 1..]);
    Parts(kids, i);
    PartsWith(kids, i, c);
  }

  lemma LeavesAt(a: seq<Tree>, t: Tree, b: seq<Tree>)
    ensures LeavesAll(a + [t] + b) == LeavesAll(a) + Leaves(t) + LeavesAll(b)
  {
    LeavesThree(a, [t], b);
    LeavesOne(t);
  }

  lemma PartsWith<T>(s: seq<T>, i: nat, x: T)
    requires i < |s|
    ensures s[i := x] == s[..i] + [x] + s[i + 1..]
  {
  }

  // ---------------------------------------------------------------- placing nodes on one page

  /**
   * What a leaf with these nodes becomes, the one at newindx being new: it stays one page if they fit, else it is cut where
   * mdb_page_split cuts, or, with MDB_APPEND, before the new node.
   */
  ghost predicate LeafPages(es: seq<Entry>, newindx: nat, alone: bool, now: seq<seq<Entry>>) {
    && newindx < |es|
    && if LeafSum(es) <= PMAX then now == [es] else
         && |now| == 2 && now[0] + now[1] == es
         && if alone then now[1] == [es[newindx]] else CutsAt(PMAX, LeafSizes(es), newindx, |now[0]|)
  }

  /** The leaves below the pages that a put hands to the parent. */
  function PutLeaves(res: PutRes): seq<seq<Entry>> {
    match res
    case Full => []
    case One(t) => Leaves(t)
    case Two(l, _, r) => Leaves(l) + Leaves(r)
  }

  /** A leaf with its new node; the separator of a split one is the first key of the right page. */
  lemma PlaceLeafPages(es: seq<Entry>, newindx: nat, append: bool)
    requires Placeable(LeafSizes(es), newindx) && (append ==> newindx == |es| - 1 > 0)
    ensures var res := PlaceLeaf(es, newindx, append);
      !res.Full? ==>
        && LeafPages(es, newindx, append, PutLeaves(res)) && (res.Two? <==> LeafSum(es) > PMAX)
        && (res.Two? ==> res.l.Leaf? && res.r.Leaf? && |res.r.es| > 0 && res.sep == res.r.es[0].key)
  {
    if LeafSum(es) > PMAX {
      if append {
        assert es[newindx..] == [es[newindx]] && es[..newindx] + es[newindx..] == es;
      } else {
        CutMeaning(LeafSizes(es), newindx);
        var s := Cut(LeafSizes(es), newindx);
        assert es[..s] + es[s..] == es;
      }
    }
  }

  lemma CutMeaning(sizes: seq<nat>, newindx: nat)
    requires Placeable(sizes, newindx) && Sum(sizes) > PMAX
    ensures CutsAt(PMAX, sizes, newindx, Cut(sizes, newindx))
  {
    OverFullHasThree(PMAX, sizes, newindx);
    SplitMeaning(PMAX, sizes, newindx, Cut(sizes, newindx));
  }

  /** A branch page with its new or longer key: one page if the nodes fit, else cut there, the key at the cut moving up. */
  lemma PlaceBranchPages(keys: seq<Key>, kids: seq<Tree>, newindx: nat)
    requires Placeable(KeySizes(keys), newindx) && |keys| == |kids|
    ensures match PlaceBranch(keys, kids, newindx)
      case Full => KeySum(keys) > PMAX
      case One(t) => KeySum(keys) <= PMAX && t == Branch(keys, kids)
      case Two(l, sep, r) =>
        && KeySum(keys) > PMAX && l.Branch? && r.Branch? && l.kids + r.kids == kids && |r.keys| > 0
        && l.keys + [sep] + r.keys[1..] == keys && r.keys[0] == NOKEY && CutsAt(PMAX, KeySizes(keys), newindx, |l.keys|)
  {
    if KeySum(keys) > PMAX {
      CutMeaning(KeySizes(keys), newindx);
      CutBranchPages(keys, kids, Cut(KeySizes(keys), newindx));
    }
  }

  lemma CutBranchPages(keys: seq<Key>, kids: seq<Tree>, s: nat)
    requires 1 <= s < |keys| == |kids|
    ensures var res := CutBranch(keys, kids, s);
      && !res.One?
      && (res.Two? ==>
            && res.l.Branch? && res.r.Branch? && |res.l.keys| == s && res.l.kids + res.r.kids == kids
            && |res.r.keys| > 0 && res.r.keys[0] == NOKEY && res.l.keys + [res.sep] + res.r.keys[1..] == keys)
  {
    Parts(keys, s);
    assert ([NOKEY] + keys[s + 1..])[1..] == keys[s + 1..];
  }

  lemma PlaceBranchLeaves(keys: seq<Key>, kids: seq<Tree>, newindx: nat)
    requires Placeable(KeySizes(keys), newindx) && |keys| == |kids|
    ensures var res := PlaceBranch(keys, kids, newindx); !res.Full? ==> PutLeaves(res) == LeavesAll(kids)
  {
    PlaceBranchPages(keys, kids, newindx);
    var res := PlaceBranch(keys, kids, newindx);
    if res.Two? { LeavesCat(res.l.kids, res.r.kids); }
  }

  // ---------------------------------------------------------------- put

  /** Entry j is where e belongs on the leaf. */
  ghost predicate Belongs(es: seq<Entry>, j: nat, e: Entry) {
    j <= |es| && (j > 0 ==> es[j - 1].key.rank < e.key.rank) && (j < |es| ==> e.key.rank <= es[j].key.rank)
  }

  /**
   * What a leaf becomes when e is put there: data overwritten in place if it has the same size, or has overflow pages that
   * can be reused, else the node replaced, or added.
   */
  ghost predicate LeafPut(es: seq<Entry>, j: nat, e: Entry, append: bool, reuse: bool, now: seq<seq<Entry>>) {
    && Belongs(es, j, e)
    && if j == |es| || es[j].key.rank != e.key.rank then LeafPages(es[..j] + [e] + es[j..], j, append && 0 < j == |es|, now)
       else if (if es[j].big then reuse else es[j].dlen == e.dlen) then now == [es[j := es[j].(dlen := e.dlen, val := e.val)]]
       else LeafPages(es[j := e], j, false, now)
  }

  /** Leaf k gives way to these. */
  ghost predicate Replaced(was: seq<seq<Entry>>, now: seq<seq<Entry>>, k: nat, pages: seq<seq<Entry>>) {
    k < |was| && now == was[..k] + pages + was[k + 1..]
  }

  /** One leaf has become what e makes of it, and all others are as they were. */
  ghost predicate OneLeafPut(was: seq<seq<Entry>>, now: seq<seq<Entry>>, e: Entry, append: bool, reuse: bool) {
    exists k: nat, j: nat, pages :: Replaced(was, now, k, pages) && LeafPut(was[k], j, e, append, reuse, pages)
  }

  lemma OneLeafInside(a: seq<seq<Entry>>, was: seq<seq<Entry>>, now: seq<seq<Entry>>, b: seq<seq<Entry>>, e: Entry, append: bool, reuse: bool)
    requires OneLeafPut(was, now, e, append, reuse)
    ensures OneLeafPut(a + was + b, a + now + b, e, append, reuse)
  {
    var k: nat, j: nat, pages :| Replaced(was, now, k, pages) && LeafPut(was[k], j, e, append, reuse, pages);
    ReplacedInside(a, was, now, b, k, pages);
    assert (a + was + b)[|a| + k] == was[k];
  }

  lemma ReplacedInside(a: seq<seq<Entry>>, was: seq<seq<Entry>>, now: seq<seq<Entry>>, b: seq<seq<Entry>>, k: nat, pages: seq<seq<Entry>>)
    requires Replaced(was, now, k, pages)
    ensures Replaced(a + was + b, a + now + b, |a| + k, pages)
  {
    Inner(a, was, b, k);
    Inner(a, was, b, k + 1);
    Regroup(a, was[..k], pages, was[k + 1..], b);
  }

  lemma PutLeafPages(es: seq<Entry>, e: Entry, append: bool, reuse: bool)
    requires Sized(Leaf(es)) && EntryOk(e) && (append ==> |es| > 0 && LeafIndex(es, e.key.rank) == |es|)
    ensures var res := PutLeaf(es, e, append, reuse);
      !res.Full? ==> LeafPut(es, LeafIndex(es, e.key.rank), e, append, reuse, PutLeaves(res))
  {
    var j := LeafIndex(es, e.key.rank);
    if BTreeInsert.Found(es, e.key.rank) {
      ReplacedPlaceable(es, j, e);
      PlaceLeafPages(es[j := e], j, false);
    } else {
      InsertedPlaceable(es, j, e);
      PlaceLeafPages(es[..j] + [e] + es[j..], j, append);
    }
  }

  lemma PutSplitLeaves(keys: seq<Key>, kids: seq<Tree>, i: nat, l: Tree, sep: Key, r: Tree)
    requires KeysOk(keys) && KeySum(keys) <= PMAX && i < |keys| == |kids| && KeyOk(sep)
    ensures var res := PutSplit(keys, kids, i, l, sep, r);
      !res.Full? ==> PutLeaves(res) == LeavesAll(kids[..i]) + (Leaves(l) + Leaves(r)) + LeavesAll(kids[i + 1..])
  {
    PutSplitPlaceable(keys, i, sep);
    PlaceBranchLeaves(keys[..i + 1] + [sep] + keys[i + 1..], Splice(kids, i, i + 1, [l, r]), i + 1);
    LeavesSplice(kids, i, i + 1, [l, r]);
    LeavesTwo(l, r);
  }

  /** Inserting changes one leaf and no other, however many branch pages split on the way. */
  lemma {:induction false} PutTreeLeaves(t: Tree, e: Entry, append: bool, reuse: bool)
    requires Sized(t) && EntryOk(e) && !PutTree(t, e, append, reuse).Full?
    ensures OneLeafPut(Leaves(t), PutLeaves(PutTree(t, e, append, reuse)), e, append, reuse)
    decreases t
  {
    var res := PutTree(t, e, append, reuse);
    match t
    case Leaf(es) =>
      var app, j := append && |es| > 0 && LeafIndex(es, e.key.rank) == |es|, LeafIndex(es, e.key.rank);
      PutLeafPages(es, e, app, reuse);
      assert Replaced([es], PutLeaves(res), 0, PutLeaves(res));
      assert LeafPut(Leaves(t)[0], j, e, append, reuse, PutLeaves(res));
    case Branch(keys, kids) =>
      var i := ChildIndex(keys, e.key.rank);
      var sub := PutTree(kids[i], e, append, reuse);
      PutTreeLeaves(kids[i], e, append, reuse);
      OneLeafInside(LeavesAll(kids[..i]), Leaves(kids[i]), PutLeaves(sub), LeavesAll(kids[i + 1..]), e, append, reuse);
      LeavesWith(kids, i, if sub.One? then sub.t else kids[i]);
      if sub.Two? { PutSplitLeaves(keys, kids, i, sub.l, sub.sep, sub.r); }
  }

  /** The leaves of a database; without a root there is one that holds nothing. */
  function LeavesOf(db: Db): seq<seq<Entry>> { if db.root.Root? then Leaves(db.root.t) else [[]] }

  /** A successful mdb_put changes exactly one leaf: in place, by a node more or another one, or by a split. */
  lemma PutChangesOneLeaf(db: Db, key: Key, dlen: nat, val: int, append: bool, nooverwrite: bool, reuse: bool)
    requires SizedDb(db) && KeyOk(key) && Put(db, key, dlen, val, append, nooverwrite, reuse).Ok?
    ensures OneLeafPut(LeavesOf(db), LeavesOf(Put(db, key, dlen, val, append, nooverwrite, reuse).db),
                       NewEntry(key, dlen, val), append, reuse)
  {
    EmptyLeafSized();
    var t, e := if db.root.Root? then db.root.t else Leaf([]), NewEntry(key, dlen, val);
    PutTreeLeaves(t, e, append, reuse);
    var res := PutTree(t, e, append, reuse);
    if res.Two? { LeavesTwo(res.l, res.r); }
  }

  // ---------------------------------------------------------------- delete

  /** The n leaves from a on give way to these. */
  ghost predicate Slice(was: seq<seq<Entry>>, now: seq<seq<Entry>>, a: nat, n: nat, pages: seq<seq<Entry>>) {
    a + n <= |was| && now == was[..a] + pages + was[a + n..]
  }

  lemma SliceInside(x: seq<seq<Entry>>, was: seq<seq<Entry>>, now: seq<seq<Entry>>, y: seq<seq<Entry>>, a: nat, n: nat, pages: seq<seq<Entry>>)
    requires Slice(was, now, a, n, pages)
    ensures Slice(x + was + y, x + now + y, |x| + a, n, pages) && (x + was + y)[|x| + a..|x| + a + n] == was[a..a + n]
  {
    Inner(x, was, y, a);
    Inner(x, was, y, a + n);
    Regroup(x, was[..a], pages, was[a + n..], y);
  }

  /** es is a leaf without its entry for rank. */
  ghost predicate LosesEntry(was: seq<Entry>, es: seq<Entry>, rank: int) { exists j :: RemovedAt(was, es, rank, j) }

  /** Two neighbouring leaves, one of them short: a rich neighbour gives its nearest node, any other is merged with it. */
  function Evened(l: seq<Entry>, r: seq<Entry>, leftShort: bool): seq<seq<Entry>> {
    var n := |l| - 1;
    if leftShort then (if 4 * LeafSum(r) >= PMAX && |r| > 1 then [l + r[..1], r[1..]] else [l + r])
    else (if 4 * LeafSum(l) >= PMAX && |l| > 1 then [l[..n], l[n..] + r] else [l + r])
  }

  /** One or the other of two neighbours has lost its entry, is short, and is evened with the other. */
  ghost predicate PairLoses(l: seq<Entry>, r: seq<Entry>, es: seq<Entry>, leftShort: bool, rank: int, now: seq<seq<Entry>>) {
    && Short(Leaf(es)) && LosesEntry(if leftShort then l else r, es, rank)
    && now == if leftShort then Evened(es, r, true) else Evened(l, es, false)
  }

  /**
   * What one or two neighbouring leaves become when an entry is deleted: the leaf stays as it is if it still fills a
   * quarter of a page, or is the root, else it is evened with a neighbour.
   */
  ghost predicate LeavesLose(was: seq<seq<Entry>>, now: seq<seq<Entry>>, rank: int, root: bool) {
    if |was| == 1 then |now| == 1 && LosesEntry(was[0], now[0], rank) && (root || !Short(Leaf(now[0])))
    else |was| == 2 && exists es :: PairLoses(was[0], was[1], es, true, rank, now) || PairLoses(was[0], was[1], es, false, rank, now)
  }

  /** The rest is as it was. */
  ghost predicate OneLeafDel(was: seq<seq<Entry>>, now: seq<seq<Entry>>, rank: int, root: bool) {
    exists a: nat, n: nat, pages :: Slice(was, now, a, n, pages) && LeavesLose(was[a..a + n], pages, rank, root)
  }

  lemma OneDelInside(x: seq<seq<Entry>>, was: seq<seq<Entry>>, now: seq<seq<Entry>>, y: seq<seq<Entry>>, rank: int)
    requires OneLeafDel(was, now, rank, false)
    ensures OneLeafDel(x + was + y, x + now + y, rank, false)
  {
    var a: nat, n: nat, pages :| Slice(was, now, a, n, pages) && LeavesLose(was[a..a + n], pages, rank, false);
    SliceInside(x, was, now, y, a, n, pages);
  }

  /** The pages below the tree or trees that a delete hands to the parent. */
  function DelLeaves(res: DelRes): seq<seq<Entry>> {
    match res
    case Missing => []
    case Stuck => []
    case Done(t) => Leaves(t)
    case Check(t) => Leaves(t)
    case Halves(l, _, r) => Leaves(l) + Leaves(r)
  }

  ghost predicate Deleted(res: DelRes) { !res.Missing? && !res.Stuck? }

  /** The leaves below two neighbours, one of them short, after a move or a merge. */
  function PairLeaves(l: Tree, r: Tree, leftShort: bool): seq<seq<Entry>> {
    if l.Leaf? && r.Leaf? then Evened(l.es, r.es, leftShort) else Leaves(l) + Leaves(r)
  }

  lemma MoveLeaves(l: Tree, r: Tree, right: bool)
    requires Kin(l, r) && Movable(l) && Movable(r) && Sized(if right then r else l) && Rich(if right then r else l)
    ensures var p := if right then MoveFromRight(l, r) else MoveFromLeft(l, r);
      LeavesAll([p.l, p.r]) == PairLeaves(l, r, right)
  {
    if right { MoveRightLeaves(l, r); } else { MoveLeftLeaves(l, r); }
  }

  lemma MoveRightLeaves(l: Tree, r: Tree)
    requires Kin(l, r) && Movable(l) && Movable(r) && Sized(r) && Rich(r)
    ensures LeavesAll([MoveFromRight(l, r).l, MoveFromRight(l, r).r]) == PairLeaves(l, r, true)
  {
    var p := MoveFromRight(l, r);
    LeavesTwo(p.l, p.r);
    if l.Leaf? {
      assert r.es[..1] == [r.es[0]];
    } else {
      FirstMoves(l.kids, r.kids);
      SameLeaves(p.l.kids, p.r.kids, l.kids, r.kids);
    }
  }

  lemma MoveLeftLeaves(l: Tree, r: Tree)
    requires Kin(l, r) && Movable(l) && Movable(r) && Sized(l) && Rich(l)
    ensures LeavesAll([MoveFromLeft(l, r).l, MoveFromLeft(l, r).r]) == PairLeaves(l, r, false)
  {
    var p := MoveFromLeft(l, r);
    LeavesTwo(p.l, p.r);
    if l.Leaf? {
      assert l.es[|l.es| - 1..] == [l.es[|l.es| - 1]];
    } else {
      LastMoves(l.kids, r.kids);
      SameLeaves(p.l.kids, p.r.kids, l.kids, r.kids);
    }
  }

  lemma SameLeaves(a: seq<Tree>, b: seq<Tree>, c: seq<Tree>, d: seq<Tree>)
    requires a + b == c + d
    ensures LeavesAll(a) + LeavesAll(b) == LeavesAll(c) + LeavesAll(d)
  {
    LeavesCat(a, b);
    LeavesCat(c, d);
  }

  lemma MergedLeaves(l: Tree, r: Tree, leftShort: bool)
    requires Kin(l, r) && Movable(l) && Movable(r) && !Rich(if leftShort then r else l)
    ensures LeavesAll([Merge(l, r)]) == PairLeaves(l, r, leftShort)
  {
    LeavesOne(Merge(l, r));
    if l.Branch? { LeavesCat(l.kids, r.kids); }
  }

  // ---------------------------------------------------------------- pages of any level

  function Es(t: Tree): seq<Entry> { if t.Leaf? then t.es else [] }

  function KidsOf(t: Tree): seq<Tree> { if t.Branch? then t.kids else [] }

  function Count(t: Tree): nat { |Es(t)| + |KidsOf(t)| }

  /** The children of the page or pages that a delete makes of a branch page. */
  function Kids(res: DelRes): seq<Tree> {
    match res
    case Done(t) => KidsOf(t)
    case Check(t) => KidsOf(t)
    case Halves(l, _, r) => KidsOf(l) + KidsOf(r)
    case _ => []
  }

  /** Two neighbours, one of them short: a rich neighbour gives its nearest node, any other is merged with it. */
  ghost predicate EvenedPages(l: Tree, r: Tree, leftShort: bool, now: seq<Tree>) {
    && (forall k :: 0 <= k < |now| ==> Kin(now[k], l))
    && if Rich(if leftShort then r else l) then
         && |now| == 2 && Es(now[0]) + Es(now[1]) == Es(l) + Es(r) && KidsOf(now[0]) + KidsOf(now[1]) == KidsOf(l) + KidsOf(r)
         && Count(now[0]) == Count(l) + if leftShort then 1 else -1
       else |now| == 1 && Es(now[0]) == Es(l) + Es(r) && KidsOf(now[0]) == KidsOf(l) + KidsOf(r)
  }

  lemma MoveEvens(l: Tree, r: Tree, right: bool)
    requires Kin(l, r) && Movable(l) && Movable(r) && Sized(if right then r else l) && Rich(if right then r else l)
    ensures var p := if right then MoveFromRight(l, r) else MoveFromLeft(l, r); EvenedPages(l, r, right, [p.l, p.r])
  {
    if right { RightEvens(l, r); } else { LeftEvens(l, r); }
  }

  lemma RightEvens(l: Tree, r: Tree)
    requires Kin(l, r) && Movable(l) && Movable(r) && Sized(r) && Rich(r)
    ensures EvenedPages(l, r, true, [MoveFromRight(l, r).l, MoveFromRight(l, r).r])
  {
    if l.Leaf? { FirstMoves(l.es, r.es); } else { FirstMoves(l.kids, r.kids); }
  }

  lemma LeftEvens(l: Tree, r: Tree)
    requires Kin(l, r) && Movable(l) && Movable(r) && Sized(l) && Rich(l)
    ensures EvenedPages(l, r, false, [MoveFromLeft(l, r).l, MoveFromLeft(l, r).r])
  {
    if l.Leaf? { LastMoves(l.es, r.es); } else { LastMoves(l.kids, r.kids); }
  }

  lemma FirstMoves<T>(a: seq<T>, b: seq<T>)
    requires |b| > 0
    ensures (a + [b[0]]) + b[1..] == a + b
  {
  }

  lemma LastMoves<T>(a: seq<T>, b: seq<T>)
    requires |a| > 0
    ensures a[..|a| - 1] + ([a[|a| - 1]] + b) == a + b
  {
  }

  lemma UpdatePages(keys: seq<Key>, kids: seq<Tree>, m: nat, sep: Key)
    requires KeysOk(keys) && KeySum(keys) <= PMAX && 1 <= m < |keys| == |kids| && KeyOk(sep)
    ensures var res := UpdateSep(keys, kids, m, sep);
      !res.Missing? && !res.Check? && (!res.Stuck? ==> Kids(res) == kids && DelLeaves(res) == LeavesAll(kids))
  {
    UpdatePlaceable(keys, m, sep);
    PlaceBranchPages(keys[m := sep], kids, m);
    PlaceBranchLeaves(keys[m := sep], kids, m);
  }

  lemma MovedPages(keys: seq<Key>, kids: seq<Tree>, a: nat, p: Pair)
    requires KeysOk(keys) && KeySum(keys) <= PMAX && a + 2 <= |keys| == |kids| && KeyOk(p.sep)
    ensures var res := Moved(keys, kids, a + 1, p);
      && !res.Missing? && !res.Check?
      && (!res.Stuck? ==>
            Kids(res) == Splice(kids, a, a + 2, [p.l, p.r]) && DelLeaves(res) == PairBelow(kids, a, LeavesAll([p.l, p.r])))
  {
    SpliceAt(kids, a, a + 2, [p.l, p.r]);
    UpdatePages(keys, Splice(kids, a, a + 2, [p.l, p.r]), a + 1, p.sep);
    LeavesSplice(kids, a, a + 2, [p.l, p.r]);
  }

  /** mdb_rebalance looks at the left neighbour of child i, at the right one of a first child. */
  function First(i: nat): nat { if i == 0 then 0 else i - 1 }

  function LeftOne(kids: seq<Tree>, i: nat, c: Tree): Tree
    requires i < |kids|
  {
    if i == 0 then c else kids[i - 1]
  }

  function RightOne(kids: seq<Tree>, i: nat, c: Tree): Tree
    requires |kids| >= 2
  {
    if i == 0 then kids[1] else c
  }

  /** What becomes of a branch page whose child i is now c, and short. */
  ghost predicate Rebalanced(kids: seq<Tree>, i: nat, c: Tree, res: DelRes) {
    i < |kids| && |kids| >= 2 && PairRule(kids, First(i), LeftOne(kids, i, c), RightOne(kids, i, c), i == 0, res)
  }

  /** Of the children l and r at a and a + 1 one is short. */
  ghost predicate PairRule(kids: seq<Tree>, a: nat, l: Tree, r: Tree, leftShort: bool, res: DelRes) {
    && a + 2 <= |kids| && !res.Missing? && (res.Check? <==> !Rich(if leftShort then r else l))
    && (!res.Stuck? ==>
          && (exists pages :: PairEvened(kids, a, l, r, leftShort, pages, Kids(res)))
          && DelLeaves(res) == PairBelow(kids, a, PairLeaves(l, r, leftShort)))
  }

  /** The children, when l and r, which stood at a and a + 1, have become these pages. */
  ghost predicate PairEvened(kids: seq<Tree>, a: nat, l: Tree, r: Tree, leftShort: bool, pages: seq<Tree>, now: seq<Tree>) {
    a + 2 <= |kids| && EvenedPages(l, r, leftShort, pages) && now == Splice(kids, a, a + 2, pages)
  }

  /** The leaves, when pages stand for those below children a and a + 1. */
  function PairBelow(kids: seq<Tree>, a: nat, pages: seq<seq<Entry>>): seq<seq<Entry>>
    requires a + 2 <= |kids|
  {
    LeavesAll(kids[..a]) + pages + LeavesAll(kids[a + 2..])
  }

  lemma MoveRebalances(keys: seq<Key>, kids: seq<Tree>, a: nat, l: Tree, r: Tree, right: bool)
    requires KeysOk(keys) && KeySum(keys) <= PMAX && a + 2 <= |keys| == |kids|
    requires Kin(l, r) && Movable(l) && Movable(r) && Sized(if right then r else l) && Rich(if right then r else l)
    ensures PairRule(kids, a, l, r, right, Moved(keys, kids, a + 1, if right then MoveFromRight(l, r) else MoveFromLeft(l, r)))
  {
    var p := if right then MoveFromRight(l, r) else MoveFromLeft(l, r);
    MoveLeaves(l, r, right);
    MoveEvens(l, r, right);
    PairMoved(keys, kids, a, l, r, right, p);
  }

  lemma PairMoved(keys: seq<Key>, kids: seq<Tree>, a: nat, l: Tree, r: Tree, right: bool, p: Pair)
    requires KeysOk(keys) && KeySum(keys) <= PMAX && a + 2 <= |keys| == |kids| && KeyOk(p.sep) && Rich(if right then r else l)
    requires EvenedPages(l, r, right, [p.l, p.r]) && LeavesAll([p.l, p.r]) == PairLeaves(l, r, right)
    ensures PairRule(kids, a, l, r, right, Moved(keys, kids, a + 1, p))
  {
    MovedPages(keys, kids, a, p);
    var res := Moved(keys, kids, a + 1, p);
    assert !res.Stuck? ==> PairEvened(kids, a, l, r, right, [p.l, p.r], Kids(res));
  }

  lemma MergeRebalances(keys: seq<Key>, kids: seq<Tree>, a: nat, l: Tree, r: Tree, leftShort: bool)
    requires a + 2 <= |keys| == |kids| && Kin(l, r) && Movable(l) && Movable(r) && !Rich(if leftShort then r else l)
    ensures PairRule(kids, a, l, r, leftShort, Check(Merged(keys, kids, a + 1, Merge(l, r))))
  {
    MergedLeaves(l, r, leftShort);
    LeavesSplice(kids, a, a + 2, [Merge(l, r)]);
    MergeEvens(l, r, leftShort);
    var res := Check(Merged(keys, kids, a + 1, Merge(l, r)));
    assert PairEvened(kids, a, l, r, leftShort, [Merge(l, r)], Kids(res));
  }

  lemma MergeEvens(l: Tree, r: Tree, leftShort: bool)
    requires Kin(l, r) && Movable(l) && Movable(r) && !Rich(if leftShort then r else l)
    ensures EvenedPages(l, r, leftShort, [Merge(l, r)])
  {
  }

  lemma RebalancePages(keys: seq<Key>, kids: seq<Tree>, i: nat, c: Tree)
    requires Sized(Branch(keys, kids)) && Bushy(Branch(keys, kids)) && i < |kids| && Kin(c, kids[i]) && Movable(c)
    ensures Rebalanced(kids, i, c, Rebalance(keys, kids, i, c))
  {
    var a := First(i);
    KidOk(keys, kids, a);
    KidOk(keys, kids, a + 1);
    var l, r := LeftOne(kids, i, c), RightOne(kids, i, c);
    LendExactly(if i == 0 then r else l);
    if Rich(if i == 0 then r else l) {
      MoveRebalances(keys, kids, a, l, r, i == 0);
    } else {
      MergeRebalances(keys, kids, a, l, r, i == 0);
    }
  }

  lemma KidOk(keys: seq<Key>, kids: seq<Tree>, i: nat)
    requires Sized(Branch(keys, kids)) && Bushy(Branch(keys, kids)) && i < |kids|
    ensures Sized(kids[i]) && Bushy(kids[i]) && Kin(kids[i], kids[0]) && Movable(kids[i])
    ensures KeysOk(keys) && KeySum(keys) <= PMAX && |keys| == |kids| >= 2
  {
  }

  /**
   * The rule of mdb_rebalance on every level: a child c that has lost a node stays as it is if it still fills a quarter of
   * a page and has its minimum of nodes; if not, its neighbour, when that is rich, gives it its nearest node, and else
   * the two become one page and the parent has a child less.  The other children are as before.
   */
  lemma RebalanceRule(keys: seq<Key>, kids: seq<Tree>, rank: int)
    requires Sized(Branch(keys, kids)) && Bushy(Branch(keys, kids))
    requires DelTree(kids[ChildIndex(keys, rank)], rank).Check?
    ensures var i := ChildIndex(keys, rank);
      var c, res := DelTree(kids[i], rank).t, DelTree(Branch(keys, kids), rank);
      if !Short(c) then res == Done(Branch(keys, kids[i := c]))
      else Rebalanced(kids, i, c, res)
  {
    var i := ChildIndex(keys, rank);
    var c := DelTree(kids[i], rank).t;
    ShortExactly(c);
    if Short(c) { RebalancePages(keys, kids, i, c); }
  }

  /** The keys of the page or pages, with the separator between them. */
  function NodeKeys(res: DelRes): seq<Key> {
    match res
    case Done(t) => if t.Branch? then t.keys else []
    case Check(t) => if t.Branch? then t.keys else []
    case Halves(l, sep, r) => if l.Branch? && r.Branch? && |r.keys| > 0 then l.keys + [sep] + r.keys[1..] else []
    case _ => []
  }

  /**
   * What a move leaves of the keys of two neighbours: between leaves stands the first key of the right one; between
   * branch pages, the missing first key of r restored, no key is lost or added.
   */
  ghost predicate KeysKept(l: Tree, r: Tree, p: Pair) {
    if l.Leaf? then p.r.Leaf? && |p.r.es| > 0 && p.sep == p.r.es[0].key
    else
      && r.Branch? && |r.keys| > 0 && |r.kids| > 0 && p.l.Branch? && p.r.Branch? && |p.r.keys| > 0 && p.r.keys[0] == NOKEY
      && p.l.keys + [p.sep] + p.r.keys[1..] == l.keys + [LowKey(r.kids[0])] + r.keys[1..]
  }

  lemma MoveKeys(l: Tree, r: Tree, right: bool)
    requires Kin(l, r) && Movable(l) && Movable(r) && Sized(if right then r else l) && Rich(if right then r else l)
    ensures KeysKept(l, r, if right then MoveFromRight(l, r) else MoveFromLeft(l, r))
  {
    if l.Branch? {
      if right { RightKeys(l.keys, LowKey(r.kids[0]), r.keys); } else { LeftKeys(l.keys, LowKey(r.kids[0]), r.keys); }
    }
  }

  lemma RightKeys(a: seq<Key>, k: Key, b: seq<Key>)
    requires |b| >= 2
    ensures (a + [k]) + [b[1]] + ([NOKEY] + b[2..])[1..] == a + [k] + b[1..]
  {
    assert b[1..] == [b[1]] + b[2..];
    assert ([NOKEY] + b[2..])[1..] == b[2..];
  }

  lemma LeftKeys(a: seq<Key>, k: Key, b: seq<Key>)
    requires |a| >= 1 && |b| >= 1
    ensures a[..|a| - 1] + [a[|a| - 1]] + ([NOKEY, k] + b[1..])[1..] == a + [k] + b[1..]
  {
    assert a[..|a| - 1] + [a[|a| - 1]] == a;
    assert ([NOKEY, k] + b[1..])[1..] == [k] + b[1..];
  }

  /** The keys of the parent: the separator of the pair is replaced, or goes with a merge. */
  ghost predicate KeysEvened(keys: seq<Key>, a: nat, l: Tree, r: Tree, leftShort: bool, res: DelRes) {
    && a + 2 <= |keys|
    && if Rich(if leftShort then r else l) then
         exists p :: KeysKept(l, r, p) && NodeKeys(res) == keys[a + 1 := p.sep]
                     && a + 2 <= |Kids(res)| && Kids(res)[a] == p.l && Kids(res)[a + 1] == p.r
       else
         && NodeKeys(res) == keys[..a + 1] + keys[a + 2..] && a < |Kids(res)|
         && (l.Branch? && r.Branch? && |r.kids| > 0 && |r.keys| > 0 ==>
               var t := Kids(res)[a]; t.Branch? && t.keys == l.keys + [LowKey(r.kids[0])] + r.keys[1..])
  }

  lemma UpdateKeys(keys: seq<Key>, kids: seq<Tree>, m: nat, sep: Key)
    requires KeysOk(keys) && KeySum(keys) <= PMAX && 1 <= m < |keys| == |kids| && KeyOk(sep)
    ensures var res := UpdateSep(keys, kids, m, sep); !res.Stuck? ==> NodeKeys(res) == keys[m := sep]
  {
    UpdatePlaceable(keys, m, sep);
    PlaceBranchPages(keys[m := sep], kids, m);
  }

  lemma MovedKeys(keys: seq<Key>, kids: seq<Tree>, a: nat, l: Tree, r: Tree, right: bool)
    requires KeysOk(keys) && KeySum(keys) <= PMAX && a + 2 <= |keys| == |kids|
    requires Kin(l, r) && Movable(l) && Movable(r) && Sized(if right then r else l) && Rich(if right then r else l)
    ensures var res := Moved(keys, kids, a + 1, if right then MoveFromRight(l, r) else MoveFromLeft(l, r));
      !res.Stuck? ==> KeysEvened(keys, a, l, r, right, res)
  {
    var p := if right then MoveFromRight(l, r) else MoveFromLeft(l, r);
    MoveKeys(l, r, right);
    MovedPages(keys, kids, a, p);
    SpliceAt(kids, a, a + 2, [p.l, p.r]);
    UpdateKeys(keys, Splice(kids, a, a + 2, [p.l, p.r]), a + 1, p.sep);
  }

  /** A short child c of a branch page: the keys afterwards. */
  lemma RebalanceKeys(keys: seq<Key>, kids: seq<Tree>, i: nat, c: Tree)
    requires Sized(Branch(keys, kids)) && Bushy(Branch(keys, kids)) && i < |kids| && Kin(c, kids[i]) && Movable(c)
    ensures var res := Rebalance(keys, kids, i, c);
      |kids| >= 2 && (!res.Stuck? ==> KeysEvened(keys, First(i), LeftOne(kids, i, c), RightOne(kids, i, c), i == 0, res))
  {
    var a := First(i);
    KidOk(keys, kids, a);
    KidOk(keys, kids, a + 1);
    var l, r := LeftOne(kids, i, c), RightOne(kids, i, c);
    LendExactly(if i == 0 then r else l);
    if Rich(if i == 0 then r else l) {
      MovedKeys(keys, kids, a, l, r, i == 0);
    } else {
      SpliceAt(kids, a, a + 2, [Merge(l, r)]);
    }
  }

  /** That child has lost exactly one node. */
  lemma LosesOne(t: Tree, rank: int)
    requires Sized(t) && Bushy(t) && DelTree(t, rank).Check?
    ensures Kin(DelTree(t, rank).t, t) && Count(DelTree(t, rank).t) + 1 == Count(t)
  {
    if t.Branch? { BranchLosesOne(t.keys, t.kids, rank); }
  }

  lemma BranchLosesOne(keys: seq<Key>, kids: seq<Tree>, rank: int)
    requires Sized(Branch(keys, kids)) && Bushy(Branch(keys, kids)) && DelTree(Branch(keys, kids), rank).Check?
    ensures var t := DelTree(Branch(keys, kids), rank).t; t.Branch? && |t.kids| + 1 == |kids|
  {
    var i, res := ChildIndex(keys, rank), DelTree(Branch(keys, kids), rank);
    RebalanceRule(keys, kids, rank);
    var c := DelTree(kids[i], rank).t;
    OneKidLess(kids, First(i), LeftOne(kids, i, c), RightOne(kids, i, c), i == 0, res);
  }

  lemma OneKidLess(kids: seq<Tree>, a: nat, l: Tree, r: Tree, leftShort: bool, res: DelRes)
    requires PairRule(kids, a, l, r, leftShort, res) && res.Check?
    ensures |KidsOf(res.t)| + 1 == |kids|
  {
    var pages :| PairEvened(kids, a, l, r, leftShort, pages, Kids(res));
  }

  lemma LeafLoses(es: seq<Entry>, rank: int)
    requires Sized(Leaf(es)) && DelTree(Leaf(es), rank).Check?
    ensures var c := DelTree(Leaf(es), rank).t; c.Leaf? && LosesEntry(es, c.es, rank)
  {
    assert RemovedAt(es, DelTree(Leaf(es), rank).t.es, rank, LeafIndex(es, rank));
  }

  lemma {:induction false} ManyLeaves(kids: seq<Tree>)
    requires forall k :: 0 <= k < |kids| ==> Bushy(kids[k])
    ensures |LeavesAll(kids)| >= |kids|
    decreases kids
  {
    if |kids| > 0 {
      var c := kids[|kids| - 1];
      ManyLeaves(kids[..|kids| - 1]);
      if c.Branch? { ManyLeaves(c.kids); }
    }
  }

  /** A short leaf between its siblings. */
  lemma LeafEvened(x: seq<seq<Entry>>, l: seq<Entry>, r: seq<Entry>, y: seq<seq<Entry>>, es: seq<Entry>, leftShort: bool, rank: int)
    requires Short(Leaf(es)) && LosesEntry(if leftShort then l else r, es, rank)
    ensures var now := if leftShort then Evened(es, r, true) else Evened(l, es, false);
      OneLeafDel(x + [l, r] + y, x + now + y, rank, false)
  {
    var now := if leftShort then Evened(es, r, true) else Evened(l, es, false);
    var was := [l, r];
    if leftShort { assert PairLoses(was[0], was[1], es, true, rank, now); } else { assert PairLoses(was[0], was[1], es, false, rank, now); }
    assert LeavesLose(was, now, rank, false);
    assert Slice(x + [l, r] + y, x + now + y, |x|, 2, now) && (x + [l, r] + y)[|x|..|x| + 2] == [l, r];
  }

  lemma LeafStays(x: seq<seq<Entry>>, es0: seq<Entry>, y: seq<seq<Entry>>, es: seq<Entry>, rank: int)
    requires !Short(Leaf(es)) && LosesEntry(es0, es, rank)
    ensures OneLeafDel(x + [es0] + y, x + [es] + y, rank, false)
  {
    assert Slice(x + [es0] + y, x + [es] + y, |x|, 1, [es]) && (x + [es0] + y)[|x|..|x| + 1] == [es0];
  }

  /** Two neighbouring children of a branch page. */
  lemma LeavesPair(kids: seq<Tree>, a: nat)
    requires a + 2 <= |kids|
    ensures LeavesAll(kids) == LeavesAll(kids[..a]) + (Leaves(kids[a]) + Leaves(kids[a + 1])) + LeavesAll(kids[a + 2..])
  {
    LeavesThree(kids[..a], [kids[a], kids[a + 1]], kids[a + 2..]);
    LeavesTwo(kids[a], kids[a + 1]);
    PairParts(kids, a);
  }

  lemma PairParts<T>(s: seq<T>, a: nat)
    requires a + 2 <= |s|
    ensures s[..a] + [s[a], s[a + 1]] + s[a + 2..] == s
  {
  }

  /** A delete on a branch page of leaves. */
  lemma DelAboveLeaves(keys: seq<Key>, kids: seq<Tree>, rank: int)
    requires Sized(Branch(keys, kids)) && Bushy(Branch(keys, kids)) && kids[0].Leaf? && Deleted(DelTree(Branch(keys, kids), rank))
    ensures OneLeafDel(LeavesAll(kids), DelLeaves(DelTree(Branch(keys, kids), rank)), rank, false)
  {
    var i, res := ChildIndex(keys, rank), DelTree(Branch(keys, kids), rank);
    KidOk(keys, kids, i);
    var c := DelTree(kids[i], rank).t;
    LeafLoses(kids[i].es, rank);
    RebalanceRule(keys, kids, rank);
    if !Short(c) {
      LeavesWith(kids, i, c);
      LeafStays(LeavesAll(kids[..i]), kids[i].es, LeavesAll(kids[i + 1..]), c.es, rank);
    } else {
      var l, r := LeftOne(kids, i, c), RightOne(kids, i, c);
      KidOk(keys, kids, First(i));
      KidOk(keys, kids, First(i) + 1);
      ShortLeaf(kids, First(i), l, r, i == 0, rank, res);
    }
  }

  lemma ShortLeaf(kids: seq<Tree>, a: nat, l: Tree, r: Tree, leftShort: bool, rank: int, res: DelRes)
    requires a + 2 <= |kids| && kids[a].Leaf? && kids[a + 1].Leaf? && l.Leaf? && r.Leaf? && Deleted(res)
    requires leftShort ==> Short(l) && LosesEntry(kids[a].es, l.es, rank) && r == kids[a + 1]
    requires !leftShort ==> Short(r) && LosesEntry(kids[a + 1].es, r.es, rank) && l == kids[a]
    requires PairRule(kids, a, l, r, leftShort, res)
    ensures OneLeafDel(LeavesAll(kids), DelLeaves(res), rank, false)
  {
    PairRuleLeaves(kids, a, l, r, leftShort, res);
    LeafPairEvened(kids, a, l.es, r.es, leftShort, rank, DelLeaves(res));
  }

  lemma PairRuleLeaves(kids: seq<Tree>, a: nat, l: Tree, r: Tree, leftShort: bool, res: DelRes)
    requires PairRule(kids, a, l, r, leftShort, res) && Deleted(res) && l.Leaf? && r.Leaf?
    ensures DelLeaves(res) == PairBelow(kids, a, Evened(l.es, r.es, leftShort))
  {
  }

  lemma LeafPairEvened(kids: seq<Tree>, a: nat, l: seq<Entry>, r: seq<Entry>, leftShort: bool, rank: int, now: seq<seq<Entry>>)
    requires a + 2 <= |kids| && kids[a].Leaf? && kids[a + 1].Leaf? && now == PairBelow(kids, a, Evened(l, r, leftShort))
    requires leftShort ==> Short(Leaf(l)) && LosesEntry(kids[a].es, l, rank) && r == kids[a + 1].es
    requires !leftShort ==> Short(Leaf(r)) && LosesEntry(kids[a + 1].es, r, rank) && l == kids[a].es
    ensures OneLeafDel(LeavesAll(kids), now, rank, false)
  {
    LeafPair(kids, a);
    LeafEvened(LeavesAll(kids[..a]), kids[a].es, kids[a + 1].es, LeavesAll(kids[a + 2..]), if leftShort then l else r, leftShort, rank);
  }

  lemma LeafPair(kids: seq<Tree>, a: nat)
    requires a + 2 <= |kids| && kids[a].Leaf? && kids[a + 1].Leaf?
    ensures LeavesAll(kids) == LeavesAll(kids[..a]) + [kids[a].es, kids[a + 1].es] + LeavesAll(kids[a + 2..])
  {
    LeavesPair(kids, a);
    assert Leaves(kids[a]) + Leaves(kids[a + 1]) == [kids[a].es, kids[a + 1].es];
  }

  /** A delete further down: what happens to the branch page leaves the leaves as its child hands them over. */
  lemma DelAboveBranches(keys: seq<Key>, kids: seq<Tree>, rank: int)
    requires Sized(Branch(keys, kids)) && Bushy(Branch(keys, kids)) && kids[0].Branch? && Deleted(DelTree(Branch(keys, kids), rank))
    ensures var i := ChildIndex(keys, rank);
      && Deleted(DelTree(kids[i], rank))
      && DelLeaves(DelTree(Branch(keys, kids), rank)) ==
           LeavesAll(kids[..i]) + DelLeaves(DelTree(kids[i], rank)) + LeavesAll(kids[i + 1..])
  {
    var i := ChildIndex(keys, rank);
    var sub := DelTree(kids[i], rank);
    if sub.Check? {
      CheckedBranch(keys, kids, rank);
    } else if sub.Halves? {
      HalvedBranch(keys, kids, i, sub);
    } else if sub.Done? {
      LeavesWith(kids, i, sub.t);
    }
  }

  lemma HalvedBranch(keys: seq<Key>, kids: seq<Tree>, i: nat, sub: DelRes)
    requires KeysOk(keys) && KeySum(keys) <= PMAX && i < |keys| == |kids| && sub.Halves? && KeyOk(sub.sep)
    ensures var res := FromPut(PutSplit(keys, kids, i, sub.l, sub.sep, sub.r));
      Deleted(res) ==> DelLeaves(res) == LeavesAll(kids[..i]) + DelLeaves(sub) + LeavesAll(kids[i + 1..])
  {
    PutSplitLeaves(keys, kids, i, sub.l, sub.sep, sub.r);
  }

  lemma CheckedBranch(keys: seq<Key>, kids: seq<Tree>, rank: int)
    requires Sized(Branch(keys, kids)) && Bushy(Branch(keys, kids)) && kids[0].Branch? && Deleted(DelTree(Branch(keys, kids), rank))
    requires DelTree(kids[ChildIndex(keys, rank)], rank).Check?
    ensures var i := ChildIndex(keys, rank);
      DelLeaves(DelTree(Branch(keys, kids), rank)) == LeavesAll(kids[..i]) + Leaves(DelTree(kids[i], rank).t) + LeavesAll(kids[i + 1..])
  {
    var i := ChildIndex(keys, rank);
    var c := DelTree(kids[i], rank).t;
    RebalanceRule(keys, kids, rank);
    if !Short(c) {
      LeavesWith(kids, i, c);
    } else {
      assert Kin(kids[i], kids[0]) && Kin(kids[1], kids[0]);
      ShortBranch(kids, i, c, DelTree(Branch(keys, kids), rank));
    }
  }

  lemma ShortBranch(kids: seq<Tree>, i: nat, c: Tree, res: DelRes)
    requires i < |kids| && |kids| >= 2 && c.Branch? && Deleted(res)
    requires Rebalanced(kids, i, c, res)
    ensures DelLeaves(res) == LeavesAll(kids[..i]) + Leaves(c) + LeavesAll(kids[i + 1..])
  {
    PairKept(kids, First(i), Leaves(c), i == 0, DelLeaves(res));
  }

  lemma PairKept(kids: seq<Tree>, a: nat, c: seq<seq<Entry>>, left: bool, now: seq<seq<Entry>>)
    requires a + 2 <= |kids| && now == PairBelow(kids, a, if left then c + Leaves(kids[a + 1]) else Leaves(kids[a]) + c)
    ensures var i := if left then a else a + 1; now == LeavesAll(kids[..i]) + c + LeavesAll(kids[i + 1..])
  {
    if left {
      LeavesBehind(kids, a + 1);
      Assoc(LeavesAll(kids[..a]), c, Leaves(kids[a + 1]), LeavesAll(kids[a + 2..]));
    } else {
      LeavesBefore(kids, a);
      Assoc(LeavesAll(kids[..a]), Leaves(kids[a]), c, LeavesAll(kids[a + 2..]));
    }
  }

  lemma Assoc<T>(a: seq<T>, b: seq<T>, c: seq<T>, d: seq<T>)
    ensures a + (b + c) + d == a + b + (c + d) && a + (b + c) + d == (a + b) + c + d
  {
  }

  lemma LeavesBehind(kids: seq<Tree>, i: nat)
    requires i < |kids|
    ensures LeavesAll(kids[i..]) == Leaves(kids[i]) + LeavesAll(kids[i + 1..])
  {
    LeavesCat([kids[i]], kids[i + 1..]);
    LeavesOne(kids[i]);
    assert [kids[i]] + kids[i + 1..] == kids[i..];
  }

  lemma LeavesBefore(kids: seq<Tree>, i: nat)
    requires i < |kids|
    ensures LeavesAll(kids[..i + 1]) == LeavesAll(kids[..i]) + Leaves(kids[i])
  {
    assert kids[..i + 1][..i] == kids[..i];
  }

  /** Deleting changes one leaf, or one and a neighbour, whatever happens to the branch pages. */
  lemma {:induction false} DelTreeLeaves(t: Tree, rank: int)
    requires Sized(t) && Bushy(t) && Deleted(DelTree(t, rank))
    ensures OneLeafDel(Leaves(t), DelLeaves(DelTree(t, rank)), rank, t.Leaf?)
    decreases t
  {
    match t
    case Leaf(es) =>
      LeafLoses(es, rank);
      var now := DelLeaves(DelTree(t, rank));
      assert Slice([es], now, 0, 1, now) && [es][0..1] == [es];
    case Branch(keys, kids) =>
      if kids[0].Leaf? {
        DelAboveLeaves(keys, kids, rank);
      } else {
        var i := ChildIndex(keys, rank);
        DelAboveBranches(keys, kids, rank);
        DelTreeLeaves(kids[i], rank);
        assert Kin(kids[i], kids[0]);
        LeavesWith(kids, i, kids[i]);
        OneDelInside(LeavesAll(kids[..i]), Leaves(kids[i]), DelLeaves(DelTree(kids[i], rank)), LeavesAll(kids[i + 1..]), rank);
      }
  }

  /**
   * A successful mdb_del changes one leaf, which stays as it is if it still fills a quarter of a page or is the root, or
   * else gets its neighbour's nearest entry, or is merged with it.
   */
  lemma DelChangesOneLeaf(db: Db, rank: int)
    requires SizedDb(db) && Del(db, rank).Ok?
    ensures OneLeafDel(LeavesOf(db), LeavesOf(Del(db, rank).db), rank, db.root.t.Leaf?)
  {
    var t := db.root.t;
    DelTreeLeaves(t, rank);
    var res := DelTree(t, rank);
    if res.Halves? {
      LeavesTwo(res.l, res.r);
    } else if res.Check? && res.t.Branch? && |res.t.kids| == 1 {
      LeavesOne(res.t.kids[0]);
      assert res.t.kids == [res.t.kids[0]];
    }
  }
}
