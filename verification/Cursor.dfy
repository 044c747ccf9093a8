/** Cursors: the search from the root, the sibling step, and mdb_cursor_set with its short cut. */
module Cursor {
  import opened BTree
  import opened BTreeInsert

  /** One level of a cursor's stack: mc_pg[i] and mc_ki[i]. */
  datatype Level = Level(page: Tree, ki: nat)

  datatype Op = MDB_SET | MDB_SET_RANGE

  // ---------------------------------------------------------------- paths

  /** Entry i + 1 of the stack is the child that entry i points to. */
  ghost predicate Down(path: seq<Level>, i: nat)
    requires i + 1 < |path|
  {
    path[i].page.Branch? && path[i].ki < |path[i].page.kids| && path[i + 1].page == path[i].page.kids[path[i].ki]
  }

  /** A stack of pages from t down. */
  ghost predicate Linked(t: Tree, path: seq<Level>) {
    |path| >= 1 && path[0].page == t && forall i {:trigger Down(path, i)} :: 0 <= i < |path| - 1 ==> Down(path, i)
  }

  /** A stack of pages from t down to a leaf. */
  ghost predicate PathOk(t: Tree, path: seq<Level>) { Linked(t, path) && path[|path| - 1].page.Leaf? }

  lemma LinkedTail(t: Tree, path: seq<Level>)
    requires Linked(t, path) && |path| > 1
    ensures t.Branch? && path[0].ki < |t.kids| && Linked(t.kids[path[0].ki], path[1..])
  {
    assert Down(path, 0);
    forall i | 0 <= i < |path[1..]| - 1 ensures Down(path[1..], i) {
      assert Down(path, i + 1);
    }
  }

  lemma LinkedCons(t: Tree, l: Level, path: seq<Level>)
    requires l.page == t && t.Branch? && l.ki < |t.kids| && Linked(t.kids[l.ki], path)
    ensures Linked(t, [l] + path)
  {
    var p := [l] + path;
    forall i | 0 <= i < |p| - 1 ensures Down(p, i) {
      if i > 0 { assert Down(path, i - 1); }
    }
  }

  /** Where a search from page t ends: at each branch the child for rank, on the leaf the place of rank. */
  function Path(t: Tree, rank: int): (p: seq<Level>)
    ensures |p| >= 1
    decreases t
  {
    match t
    case Leaf(es) => [Level(t, LeafIndex(es, rank))]
    case Branch(keys, kids) =>
      if |keys| == 0 || |kids| != |keys| then [Level(t, 0)] else
        [Level(t, ChildIndex(keys, rank))] + Path(kids[ChildIndex(keys, rank)], rank)
  }

  /** The entries before the cursor's place, and those from it on. */
  ghost function Before(path: seq<Level>): seq<Entry> {
    if |path| == 0 then [] else
      (match path[0].page
       case Leaf(es) => if path[0].ki <= |es| then es[..path[0].ki] else es
       case Branch(_, kids) => if path[0].ki < |kids| then FlatAll(kids[..path[0].ki]) else [])
      + Before(path[1..])
  }

  ghost function After(path: seq<Level>): seq<Entry> {
    if |path| == 0 then [] else
      After(path[1..]) +
      match path[0].page
      case Leaf(es) => if path[0].ki <= |es| then es[path[0].ki..] else []
      case Branch(_, kids) => if path[0].ki < |kids| then FlatAll(kids[path[0].ki + 1..]) else []
  }

  /** A place on a leaf splits all entries of the tree. */
  lemma {:induction false} BeforeAfter(t: Tree, path: seq<Level>)
    requires PathOk(t, path) && path[|path| - 1].ki <= |path[|path| - 1].page.es|
    ensures Flat(t) == Before(path) + After(path)
    decreases t
  {
    match t
    case Leaf(es) =>
      if |path| > 1 { LinkedTail(t, path); }
      assert path[1..] == [];
      assert es == es[..path[0].ki] + es[path[0].ki..];
    case Branch(_, kids) =>
      LinkedTail(t, path);
      BeforeAfter(kids[path[0].ki], path[1..]);
      FlatAt(kids, path[0].ki);
      Around(FlatAll(kids[..path[0].ki]), Before(path[1..]), After(path[1..]), FlatAll(kids[path[0].ki + 1..]));
  }

  lemma Around(l: seq<Entry>, b: seq<Entry>, a: seq<Entry>, r: seq<Entry>)
    ensures l + (b + a) + r == (l + b) + (a + r)
  {
  }

  lemma {:induction false} PathEnds(t: Tree, d: nat, lo: int, hi: int, rank: int)
    requires Ordered(t, d, lo, hi)
    ensures var p := Path(t, rank); PathOk(t, p) && p[|p| - 1].ki == LeafIndex(p[|p| - 1].page.es, rank)
    decreases d
  {
    if t.Branch? {
      var i := ChildIndex(t.keys, rank);
      PathEnds(t.kids[i], d - 1, Lo(t.keys, lo, i), Hi(t.keys, hi, i), rank);
      LinkedCons(t, Level(t, i), Path(t.kids[i], rank));
    }
  }

  ghost predicate AllBelow(s: seq<Entry>, rank: int) { forall j :: 0 <= j < |s| ==> s[j].key.rank < rank }

  ghost predicate AllFrom(s: seq<Entry>, rank: int) { forall j :: 0 <= j < |s| ==> s[j].key.rank >= rank }

  lemma CatBelow(a: seq<Entry>, b: seq<Entry>, rank: int)
    ensures AllBelow(a, rank) && AllBelow(b, rank) ==> AllBelow(a + b, rank)
    ensures AllFrom(a, rank) && AllFrom(b, rank) ==> AllFrom(a + b, rank)
  {
  }

  /** Everything before the place a search ends is below the key, everything from it on is not. */
  lemma {:induction false} PathMeaning(t: Tree, d: nat, lo: int, hi: int, rank: int)
    requires Ordered(t, d, lo, hi) && lo <= rank < hi
    ensures AllBelow(Before(Path(t, rank)), rank) && AllFrom(After(Path(t, rank)), rank)
    decreases d
  {
    match t
    case Leaf(es) =>
      assert Path(t, rank)[1..] == [];
      LeafSplit(es, rank);
    case Branch(keys, kids) =>
      var i := ChildIndex(keys, rank);
      ChildIndexOk(keys, lo, hi, rank);
      PathMeaning(kids[i], d - 1, Lo(keys, lo, i), Hi(keys, hi, i), rank);
      LeftBelow(keys, kids, d, lo, hi, i, rank);
      RightAbove(keys, kids, d, lo, hi, i, rank);
      MeaningStep(keys, kids, i, rank);
  }

  lemma MeaningStep(keys: seq<Key>, kids: seq<Tree>, i: nat, rank: int)
    requires |keys| == |kids| > 0 && i == ChildIndex(keys, rank)
    requires AllBelow(Before(Path(kids[i], rank)), rank) && AllFrom(After(Path(kids[i], rank)), rank)
    requires AllBelow(FlatAll(kids[..i]), rank) && AllFrom(FlatAll(kids[i + 1..]), rank)
    ensures var p := Path(Branch(keys, kids), rank); AllBelow(Before(p), rank) && AllFrom(After(p), rank)
  {
    assert Path(Branch(keys, kids), rank)[1..] == Path(kids[i], rank);
    CatBelow(FlatAll(kids[..i]), Before(Path(kids[i], rank)), rank);
    CatBelow(After(Path(kids[i], rank)), FlatAll(kids[i + 1..]), rank);
  }

  lemma LeafSplit(es: seq<Entry>, rank: int)
    requires SortedEs(es)
    ensures AllBelow(es[..LeafIndex(es, rank)], rank) && AllFrom(es[LeafIndex(es, rank)..], rank)
  {
  }

  lemma LeftBelow(keys: seq<Key>, kids: seq<Tree>, d: nat, lo: int, hi: int, i: nat, rank: int)
    requires Ordered(Branch(keys, kids), d, lo, hi) && i < |kids| && Lo(keys, lo, i) <= rank
    ensures AllBelow(FlatAll(kids[..i]), rank)
  {
    if i > 0 {
      FlatBefore(keys, kids, d, lo, hi, i);
    }
  }

  lemma RightAbove(keys: seq<Key>, kids: seq<Tree>, d: nat, lo: int, hi: int, i: nat, rank: int)
    requires Ordered(Branch(keys, kids), d, lo, hi) && i < |kids| && rank < Hi(keys, hi, i)
    ensures AllFrom(FlatAll(kids[i + 1..]), rank + 1) && AllFrom(FlatAll(kids[i + 1..]), rank)
  {
    if i + 1 < |kids| {
      FlatBehind(keys, kids, d, lo, hi, i + 1);
      WithinFrom(FlatAll(kids[i + 1..]), keys[i + 1].rank, hi, rank);
    }
  }

  lemma WithinFrom(es: seq<Entry>, lo: int, hi: int, rank: int)
    requires Within(es, lo, hi) && rank < lo
    ensures AllFrom(es, rank + 1) && AllFrom(es, rank)
  {
  }

  // ---------------------------------------------------------------- mdb_node_search

  /** Number of keys on a page, and the rank of one of them. */
  function Rank(t: Tree, i: nat): int
    requires i < NumKeys(t)
  {
    if t.Leaf? then t.es[i].key.rank else t.keys[i].rank
  }

  ghost predicate PageSorted(t: Tree) {
    forall i, j :: First(t) <= i < j < NumKeys(t) ==> Rank(t, i) < Rank(t, j)
  }

  /** Index 0 of a branch page has no key to compare with. */
  function First(t: Tree): nat { if t.Leaf? then 0 else 1 }

  /** The binary search: the first key that is not below rank, and whether it is rank. */
  method NodeSearch(mp: Tree, rank: int) returns (i: nat, exact: bool)
    requires PageSorted(mp) && NumKeys(mp) >= First(mp) && (mp.Branch? ==> NumKeys(mp) > 1)
    ensures First(mp) <= i <= NumKeys(mp) && exact == (i < NumKeys(mp) && Rank(mp, i) == rank)
    ensures forall k :: First(mp) <= k < i ==> Rank(mp, k) < rank
    ensures forall k :: i <= k < NumKeys(mp) ==> rank <= Rank(mp, k)
  {
    var nkeys: int := NumKeys(mp);
    var low: int, high: int, rc: int := First(mp), nkeys - 1, 0;
    i := 0;
    while low <= high
      invariant First(mp) <= low <= high + 1 <= nkeys
      invariant forall k :: First(mp) <= k < low ==> Rank(mp, k) < rank
      invariant forall k :: high < k < nkeys ==> rank < Rank(mp, k)
      invariant rc == 0 ==> low == First(mp) && high == nkeys - 1 && i == 0
      invariant (rc > 0 ==> i + 1 == low) && (rc < 0 ==> i - 1 == high)
      decreases high - low
    {
      i := (low + high) / 2;
      rc := if rank < Rank(mp, i) then -1 else if rank > Rank(mp, i) then 1 else 0;
      if rc == 0 {
        break;
      }
      if rc > 0 {
        low := i + 1;
      } else {
        high := i - 1;
      }
    }
    if rc > 0 {
      i := i + 1;
    }
    exact := rc == 0 && nkeys > 0;
  }

  // ---------------------------------------------------------------- which page a key is on

  lemma {:induction false} ChildIndexIs(keys: seq<Key>, lo: int, hi: int, rank: int, i: nat)
    requires |keys| >= 1 && Separators(keys, lo, hi) && i < |keys|
    requires i > 0 ==> keys[i].rank <= rank
    requires i + 1 < |keys| ==> rank < keys[i + 1].rank
    ensures ChildIndex(keys, rank) == i
  {
    var n := |keys| - 1;
    if i < n {
      assert keys[n].rank > rank by { assert i + 1 < n ==> keys[i + 1].rank < keys[n].rank; }
      ChildIndexIs(keys[..n], lo, keys[n].rank, rank, i);
    }
  }

  /** The path with another index on its leaf. */
  function WithKi(path: seq<Level>, ki: nat): seq<Level>
    requires |path| >= 1
  {
    path[..|path| - 1] + [path[|path| - 1].(ki := ki)]
  }

  function Top(path: seq<Level>): Tree
    requires |path| >= 1
  {
    path[|path| - 1].page
  }

  /** The keys of the leaf lie within the bounds that its ancestors set. */
  lemma {:induction false} LeafWithin(t: Tree, path: seq<Level>, d: nat, lo: int, hi: int)
    requires Ordered(t, d, lo, hi) && PathOk(t, path)
    ensures SortedEs(Top(path).es) && Within(Top(path).es, lo, hi)
    decreases d
  {
    if |path| > 1 {
      LinkedTail(t, path);
      var i := path[0].ki;
      LeafWithin(t.kids[i], path[1..], d - 1, Lo(t.keys, lo, i), Hi(t.keys, hi, i));
    }
  }

  /** A key between the first and the last key of a leaf belongs on that leaf. */
  lemma {:induction false} InsideLeaf(t: Tree, path: seq<Level>, d: nat, lo: int, hi: int, rank: int)
    requires Ordered(t, d, lo, hi) && PathOk(t, path)
    requires var es := Top(path).es; |es| > 0 && es[0].key.rank <= rank <= es[|es| - 1].key.rank
    ensures Path(t, rank) == WithKi(path, LeafIndex(Top(path).es, rank))
    decreases d
  {
    LeafWithin(t, path, d, lo, hi);
    if |path| > 1 {
      LinkedTail(t, path);
      var i := path[0].ki;
      LeafWithin(t.kids[i], path[1..], d - 1, Lo(t.keys, lo, i), Hi(t.keys, hi, i));
      InsideLeaf(t.kids[i], path[1..], d - 1, Lo(t.keys, lo, i), Hi(t.keys, hi, i), rank);
      ChildIndexIs(t.keys, lo, hi, rank, i);
      PathDown(t, path, rank, LeafIndex(Top(path).es, rank));
    }
  }

  lemma PathDown(t: Tree, path: seq<Level>, rank: int, k: nat)
    requires |path| > 1 && path[0].page == t && t.Branch? && |t.keys| == |t.kids| > 0 && path[0].ki < |t.kids|
    requires ChildIndex(t.keys, rank) == path[0].ki && Path(t.kids[path[0].ki], rank) == WithKi(path[1..], k)
    ensures Path(t, rank) == WithKi(path, k)
  {
    assert WithKi(path, k) == [path[0]] + WithKi(path[1..], k);
  }

  /** No page of the stack has a right sibling. */
  ghost predicate Rightmost(path: seq<Level>) {
    forall i {:trigger path[i]} :: 0 <= i < |path| - 1 ==> path[i].page.Branch? ==> path[i].ki + 1 >= |path[i].page.kids|
  }

  /** A key above the last key of the last leaf belongs on that leaf too. */
  lemma {:induction false} BehindLast(t: Tree, path: seq<Level>, d: nat, lo: int, hi: int, rank: int)
    requires Ordered(t, d, lo, hi) && PathOk(t, path) && Rightmost(path)
    requires var es := Top(path).es; |es| > 0 && es[|es| - 1].key.rank < rank
    ensures Path(t, rank) == WithKi(path, |Top(path).es|)
    decreases d
  {
    if |path| > 1 {
      LinkedTail(t, path);
      var i := path[0].ki;
      LeafWithin(t.kids[i], path[1..], d - 1, Lo(t.keys, lo, i), Hi(t.keys, hi, i));
      RightmostTail(path);
      BehindLast(t.kids[i], path[1..], d - 1, Lo(t.keys, lo, i), Hi(t.keys, hi, i), rank);
      ChildIndexIs(t.keys, lo, hi, rank, i);
      PathDown(t, path, rank, |Top(path).es|);
    }
  }

  lemma RightmostTail(path: seq<Level>)
    requires Rightmost(path) && |path| > 1
    ensures Rightmost(path[1..]) && (path[0].page.Branch? ==> path[0].ki + 1 >= |path[0].page.kids|)
  {
    forall j | 0 <= j < |path[1..]| - 1 && path[1..][j].page.Branch? ensures path[1..][j].ki + 1 >= |path[1..][j].page.kids| {
      assert path[1..][j] == path[j + 1];
    }
  }

  // ---------------------------------------------------------------- mdb_cursor_sibling, to the right

  /** The stack for the next page of the same level, its index 0; empty when there is none. */
  function NextPath(path: seq<Level>): seq<Level> {
    if |path| < 2 then [] else
      var up := path[..|path| - 1];
      var p := up[|up| - 1];
      if p.page.Branch? && p.ki + 1 < |p.page.kids| then WithKi(up, p.ki + 1) + [Level(p.page.kids[p.ki + 1], 0)]
      else
        var q := NextPath(up);
        if |q| > 0 && q[|q| - 1].page.Branch? && q[|q| - 1].ki < |q[|q| - 1].page.kids| then
          q + [Level(q[|q| - 1].page.kids[q[|q| - 1].ki], 0)]
        else []
  }

  /** The entries before the stack's last page. */
  ghost function Ahead(path: seq<Level>): seq<Entry> {
    if |path| < 2 then [] else
      var p := path[|path| - 2];
      Ahead(path[..|path| - 1]) + if p.page.Branch? && p.ki < |p.page.kids| then FlatAll(p.page.kids[..p.ki]) else []
  }

  lemma LinkedInit(t: Tree, path: seq<Level>)
    requires Linked(t, path) && |path| > 1
    ensures Linked(t, path[..|path| - 1]) && Down(path, |path| - 2)
  {
    var up := path[..|path| - 1];
    assert Down(path, |path| - 2);
    forall i | 0 <= i < |up| - 1 ensures Down(up, i) {
      assert Down(path, i);
    }
  }

  lemma LinkedSnoc(t: Tree, path: seq<Level>, l: Level)
    requires Linked(t, path) && Top(path).Branch?
    requires path[|path| - 1].ki < |Top(path).kids| && l.page == Top(path).kids[path[|path| - 1].ki]
    ensures Linked(t, path + [l])
  {
    var p := path + [l];
    forall i | 0 <= i < |p| - 1 ensures Down(p, i) {
      if i < |path| - 1 { assert Down(path, i); }
    }
  }

  lemma LinkedKi(t: Tree, path: seq<Level>, ki: nat)
    requires Linked(t, path)
    ensures Linked(t, WithKi(path, ki))
  {
    var p := WithKi(path, ki);
    forall i | 0 <= i < |p| - 1 ensures Down(p, i) {
      assert Down(path, i);
    }
  }

  /** Every page below the root has its minimum of keys. */
  lemma {:induction false} PageBelow(t: Tree, path: seq<Level>, d: nat, lo: int, hi: int)
    requires Ordered(t, d, lo, hi) && Linked(t, path)
    ensures Top(path).Branch? ==> |Top(path).kids| == |Top(path).keys| > 0
    ensures (|path| > 1 ==> Filled(Top(path))) && (Top(path).Leaf? <==> |path| == d + 1)
    decreases d
  {
    if |path| > 1 {
      LinkedTail(t, path);
      var i := path[0].ki;
      PageBelow(t.kids[i], path[1..], d - 1, Lo(t.keys, lo, i), Hi(t.keys, hi, i));
      if |path| == 2 { assert path[1] == path[1..][0]; }
    }
  }

  /** What lies up to the end of the last page, seen from its parent. */
  lemma UpTo(t: Tree, path: seq<Level>)
    requires Linked(t, path) && |path| >= 2
    ensures var up := path[..|path| - 1];
      var p := up[|up| - 1];
      && Linked(t, up) && p.page.Branch? && p.ki < |p.page.kids|
      && Ahead(path) + Flat(Top(path)) == Ahead(up) + FlatAll(p.page.kids[..p.ki + 1])
  {
    LinkedInit(t, path);
    var p := path[|path| - 2];
    FlatNext(p.page.kids, p.ki);
    AheadLast(path, path[..|path| - 1], p);
  }

  lemma FlatNext(kids: seq<Tree>, i: nat)
    requires i < |kids|
    ensures FlatAll(kids[..i + 1]) == FlatAll(kids[..i]) + Flat(kids[i])
  {
    assert kids[..i + 1][..i] == kids[..i];
  }

  lemma AheadSnoc(path: seq<Level>, l: Level)
    requires |path| >= 1 && Top(path).Branch? && path[|path| - 1].ki < |Top(path).kids|
    ensures Ahead(path + [l]) == Ahead(path) + FlatAll(Top(path).kids[..path[|path| - 1].ki])
  {
    assert (path + [l])[..|path|] == path;
  }

  lemma AheadKi(path: seq<Level>, ki: nat)
    requires |path| >= 1
    ensures Ahead(WithKi(path, ki)) == Ahead(path)
  {
    assert WithKi(path, ki)[..|path| - 1] == path[..|path| - 1];
  }

  /** The next page continues where this one ends; without one, this one is the end of the tree. */
  ghost predicate Continues(t: Tree, path: seq<Level>, q: seq<Level>) {
    if q == [] then |path| >= 1 && Ahead(path) + Flat(Top(path)) == Flat(t)
    else
      && |path| == |q| && Linked(t, q) && q[|q| - 1].ki == 0 && Ahead(q) == Ahead(path) + Flat(Top(path))
      && (Top(q).Branch? ==> |Top(q).kids| > 0) && (|q| > 1 ==> Filled(Top(q)))
  }

  lemma {:induction false} NextMeaning(t: Tree, path: seq<Level>, d: nat, lo: int, hi: int)
    requires Ordered(t, d, lo, hi) && Linked(t, path)
    ensures Continues(t, path, NextPath(path))
    decreases |path|
  {
    if |path| >= 2 {
      var up := path[..|path| - 1];
      var p := up[|up| - 1];
      UpTo(t, path);
      if p.ki + 1 < |p.page.kids| {
        NextInParent(t, path, d, lo, hi);
      } else {
        NextMeaning(t, up, d, lo, hi);
        NextAtEnd(t, path, up, NextPath(up), d, lo, hi);
      }
    }
  }

  lemma NextAtEnd(t: Tree, path: seq<Level>, up: seq<Level>, q: seq<Level>, d: nat, lo: int, hi: int)
    requires Ordered(t, d, lo, hi) && Linked(t, path) && |path| >= 2 && up == path[..|path| - 1] && q == NextPath(up)
    requires var p := up[|up| - 1]; p.page.Branch? && p.ki + 1 >= |p.page.kids|
    requires Linked(t, up) && Continues(t, up, q)
    ensures Continues(t, path, NextPath(path))
  {
    RowDone(t, path, up);
    if q != [] {
      SameDepth(t, up, q, d, lo, hi);
      NextInCousin(t, q, d, lo, hi);
    }
  }

  lemma RowDone(t: Tree, path: seq<Level>, up: seq<Level>)
    requires Linked(t, path) && |path| >= 2 && up == path[..|path| - 1]
    requires var p := up[|up| - 1]; p.page.Branch? && p.ki + 1 >= |p.page.kids|
    ensures Ahead(path) + Flat(Top(path)) == Ahead(up) + Flat(Top(up))
  {
    var p := up[|up| - 1];
    UpTo(t, path);
    assert p.page.kids[..p.ki + 1] == p.page.kids;
  }

  lemma SameDepth(t: Tree, path: seq<Level>, q: seq<Level>, d: nat, lo: int, hi: int)
    requires Ordered(t, d, lo, hi) && Linked(t, path) && Linked(t, q) && |q| == |path|
    ensures Top(q).Leaf? <==> Top(path).Leaf?
  {
    PageBelow(t, path, d, lo, hi);
    PageBelow(t, q, d, lo, hi);
  }

  lemma NextInParent(t: Tree, path: seq<Level>, d: nat, lo: int, hi: int)
    requires Ordered(t, d, lo, hi) && Linked(t, path) && |path| >= 2
    requires var p := path[|path| - 2]; p.page.Branch? && p.ki + 1 < |p.page.kids|
    ensures var p := path[|path| - 2];
      Continues(t, path, WithKi(path[..|path| - 1], p.ki + 1) + [Level(p.page.kids[p.ki + 1], 0)])
  {
    var up, p := path[..|path| - 1], path[|path| - 2];
    var v, l := WithKi(up, p.ki + 1), Level(p.page.kids[p.ki + 1], 0);
    UpTo(t, path);
    LinkedKi(t, up, p.ki + 1);
    LinkedSnoc(t, v, l);
    AheadKi(up, p.ki + 1);
    AheadSnoc(v, l);
    PageBelow(t, v + [l], d, lo, hi);
  }

  lemma NextInCousin(t: Tree, q: seq<Level>, d: nat, lo: int, hi: int)
    requires Ordered(t, d, lo, hi) && Linked(t, q) && q[|q| - 1].ki == 0 && Top(q).Branch? && |Top(q).kids| > 0
    ensures var r := q + [Level(Top(q).kids[0], 0)];
      && Linked(t, r) && Filled(Top(r)) && Ahead(r) == Ahead(q) && (Top(r).Branch? ==> |Top(r).kids| > 0)
  {
    var l := Level(Top(q).kids[0], 0);
    LinkedSnoc(t, q, l);
    AheadSnoc(q, l);
    PageBelow(t, q + [l], d, lo, hi);
    assert Top(q).kids[..0] == [];
  }

  // ---------------------------------------------------------------- the operations

  /** Where a search for rank from the root leaves the cursor, and whether it found something. */
  datatype Target = Target(path: seq<Level>, found: bool)

  /** The answer once the search has come to this place. */
  function Answer(p: seq<Level>, rank: int, op: Op): Target
    requires |p| >= 1
  {
    var es, ki := if Top(p).Leaf? then Top(p).es else [], p[|p| - 1].ki;
    if ki < |es| && es[ki].key.rank == rank then Target(p, true)
    else if op == MDB_SET then Target(p, false)
    else if ki < |es| then Target(p, true)
    else if NextPath(p) == [] then Target(p, false)
    else Target(NextPath(p), true)
  }

  function FromRoot(root: Tree, rank: int, op: Op): Target { Answer(Path(root, rank), rank, op) }

  class TreeCursor {
    /** The page mt_dbs leads to. */
    var root: Tree
    /** mc_pg and mc_ki. */
    var stack: seq<Level>
    /** C_INITIALIZED */
    var init: bool

    ghost predicate Valid()
      reads this
    {
      init ==> PathOk(root, stack)
    }

    /** mdb_page_search_root */
    method SearchRoot(rank: int, ghost d: nat, ghost lo: int, ghost hi: int)
      requires Ordered(root, d, lo, hi) && (root.Branch? ==> Filled(root))
      modifies this`stack, this`init
      ensures init && stack == WithKi(Path(root, rank), 0)
    {
      stack := [Level(root, 0)];
      ghost var e, l, h := d, lo, hi;
      while Top(stack).Branch?
        invariant |stack| >= 1 && stack[|stack| - 1].ki == 0
        invariant Ordered(Top(stack), e, l, h) && (Top(stack).Branch? ==> Filled(Top(stack)))
        invariant stack[..|stack| - 1] + Path(Top(stack), rank) == Path(root, rank)
        decreases e
      {
        e, l, h := Descend(rank, e, l, h);
      }
      init := true;
      Arrived(root, stack, rank);
    }

    /** One level of mdb_page_search_root. */
    method Descend(rank: int, ghost e: nat, ghost l: int, ghost h: int) returns (ghost e1: nat, ghost l1: int, ghost h1: int)
      requires |stack| >= 1 && Top(stack).Branch? && Ordered(Top(stack), e, l, h) && Filled(Top(stack))
      modifies this`stack
      ensures |stack| >= 1 && stack[|stack| - 1].ki == 0 && e1 < e
      ensures Ordered(Top(stack), e1, l1, h1) && Filled(Top(stack))
      ensures stack[..|stack| - 1] + Path(Top(stack), rank) == old(stack[..|stack| - 1] + Path(Top(stack), rank))
    {
      var mp := Top(stack);
      var i := ChildOf(mp, rank, l, h, e);
      ghost var was := stack;
      stack := WithKi(stack, i) + [Level(mp.kids[i], 0)];
      Descended(was, stack, mp, i, rank);
      e1, l1, h1 := e - 1, Lo(mp.keys, l, i), Hi(mp.keys, h, i);
    }

    /** mdb_cursor_sibling, one page to the right. */
    method Sibling() returns (ok: bool)
      requires |stack| >= 1
      modifies this`stack
      ensures ok <==> old(NextPath(stack)) != []
      ensures stack == if ok then old(NextPath(stack)) else old(stack)
      decreases |stack|
    {
      if |stack| < 2 {
        return false;
      }
      var was := stack;
      stack := stack[..|stack| - 1];
      var p := stack[|stack| - 1];
      if p.page.Branch? && p.ki + 1 < |p.page.kids| {
        stack := WithKi(stack, p.ki + 1);
      } else {
        ok := Sibling();
        if !ok {
          stack := was;
          return;
        }
      }
      p := stack[|stack| - 1];
      if !(p.page.Branch? && p.ki < |p.page.kids|) {
        stack := was;
        return false;
      }
      stack := stack + [Level(p.page.kids[p.ki], 0)];
      ok := true;
    }

    /** The index on the leaf. */
    method SetKi(ki: nat)
      requires |stack| >= 1
      modifies this`stack
      ensures stack == WithKi(old(stack), ki)
    {
      stack := WithKi(stack, ki);
    }

    /** mdb_node_search on the leaf where the key belongs. */
    method SearchLeaf(rank: int, ghost d: nat, ghost lo: int, ghost hi: int) returns (i: nat, exact: bool)
      requires Ordered(root, d, lo, hi) && |stack| >= 1
      requires exists k :: stack == WithKi(Path(root, rank), k)
      modifies this`stack
      ensures stack == Path(root, rank) && Top(stack).Leaf? && i == stack[|stack| - 1].ki <= |Top(stack).es|
      ensures exact == (i < |Top(stack).es| && Top(stack).es[i].key.rank == rank)
    {
      SearchedPage(root, d, lo, hi, rank);
      i, exact := NodeSearch(Top(stack), rank);
      SearchedLeaf(Top(stack).es, rank, i);
      SetKi(i);
    }

    /** set2 of mdb_cursor_set, on the leaf where the key belongs. */
    method SetOnLeaf(rank: int, op: Op, ghost d: nat, ghost lo: int, ghost hi: int) returns (found: bool)
      requires Ordered(root, d, lo, hi) && |stack| >= 1 && init
      requires exists k :: stack == WithKi(Path(root, rank), k)
      modifies this`stack
      ensures Target(stack, found) == FromRoot(root, rank, op)
    {
      var i, exact := SearchLeaf(rank, d, lo, hi);
      if op == MDB_SET && !exact {
        return false;
      }
      if i == NumKeys(Top(stack)) {
        found := Sibling();
        return;
      }
      return true;
    }

    /** No page on the stack has a right sibling (mdb.c:5361-5369). */
    method NoRightSiblings() returns (r: bool)
      requires |stack| >= 1 && Linked(root, stack)
      ensures r <==> Rightmost(stack)
    {
      r := true;
      for i := 0 to |stack| - 1
        invariant r <==> forall j {:trigger stack[j]} :: 0 <= j < i ==> stack[j].page.Branch? ==> stack[j].ki + 1 >= |stack[j].page.kids|
      {
        assert Down(stack, i);
        if stack[i].ki + 1 < |stack[i].page.kids| { r := false; }
      }
    }

    /**
     * mdb_cursor_set without duplicates: wherever the cursor stood, it ends where a search from the root would end,
     * with the same answer.
     */
    method Set(rank: int, op: Op, ghost d: nat, ghost lo: int, ghost hi: int) returns (found: bool)
      requires Valid() && Ordered(root, d, lo, hi) && (root.Branch? ==> Filled(root)) && lo <= rank < hi
      modifies this`stack, this`init
      ensures Valid() && init && Target(stack, found) == FromRoot(root, rank, op)
    {
      var done := false;
      if init {
        done, found := ShortCut(rank, op, d, lo, hi);
      }
      if !done {
        SearchRoot(rank, d, lo, hi);
        found := SetOnLeaf(rank, op, d, lo, hi);
      }
      TargetOk(root, rank, op, d, lo, hi);
    }

    /** mdb.c:5292-5380: the cases that need no search. */
    method ShortCut(rank: int, op: Op, ghost d: nat, ghost lo: int, ghost hi: int) returns (done: bool, found: bool)
      requires Valid() && init && Ordered(root, d, lo, hi) && (root.Branch? ==> Filled(root)) && lo <= rank < hi
      modifies this`stack
      ensures done ==> Target(stack, found) == FromRoot(root, rank, op)
    {
      done, found := true, false;
      LeafWithin(root, stack, d, lo, hi);
      PageBelow(root, stack, d, lo, hi);
      var es := Top(stack).es;
      var nkeys := |es|;
      if nkeys == 0 {
        OnlyLeaf(root, stack, rank, op);
        SetKi(0);
      } else if rank == es[0].key.rank {
        Hit(root, stack, rank, op, d, lo, hi, 0);
        SetKi(0);
        found := true;
      } else if rank > es[0].key.rank {
        done, found := ShortCutAbove(rank, op, d, lo, hi);
      } else if |stack| == 1 {
        OnlyLeaf(root, stack, rank, op);
        SetKi(0);
        found := op == MDB_SET_RANGE;
      } else {
        done := false;
      }
    }

    /** mdb.c:5318-5369: the key is above the first one on the page. */
    method ShortCutAbove(rank: int, op: Op, ghost d: nat, ghost lo: int, ghost hi: int) returns (done: bool, found: bool)
      requires Valid() && init && Ordered(root, d, lo, hi) && lo <= rank < hi
      requires |Top(stack).es| > 0 && Top(stack).es[0].key.rank < rank && SortedEs(Top(stack).es)
      modifies this`stack
      ensures done ==> Target(stack, found) == FromRoot(root, rank, op)
    {
      done, found := true, false;
      var es := Top(stack).es;
      var nkeys := |es|;
      if nkeys > 1 && rank == es[nkeys - 1].key.rank {
        Hit(root, stack, rank, op, d, lo, hi, nkeys - 1);
        SetKi(nkeys - 1);
        return true, true;
      }
      if nkeys > 1 && rank < es[nkeys - 1].key.rank {
        found := SetInside(rank, op, d, lo, hi);
        return;
      }
      var last := NoRightSiblings();
      if last {
        Beyond(root, stack, rank, op, d, lo, hi);
        SetKi(nkeys);
        return;
      }
      done := false;
    }

    /** mdb.c:5339-5356: this is the right page; its current entry is looked at first. */
    method SetInside(rank: int, op: Op, ghost d: nat, ghost lo: int, ghost hi: int) returns (found: bool)
      requires Valid() && init && Ordered(root, d, lo, hi)
      requires var es := Top(stack).es; |es| > 0 && es[0].key.rank <= rank <= es[|es| - 1].key.rank
      modifies this`stack
      ensures Target(stack, found) == FromRoot(root, rank, op)
    {
      var es, ki := Top(stack).es, stack[|stack| - 1].ki;
      assert stack == WithKi(stack, ki);
      if ki < |es| && rank == es[ki].key.rank {
        Hit(root, stack, rank, op, d, lo, hi, ki);
        return true;
      }
      InsideLeaf(root, stack, d, lo, hi, rank);
      assert stack == WithKi(Path(root, rank), ki);
      found := SetOnLeaf(rank, op, d, lo, hi);
    }
  }

  lemma SearchedPage(root: Tree, d: nat, lo: int, hi: int, rank: int)
    requires Ordered(root, d, lo, hi)
    ensures var p := Path(root, rank);
      Top(p).Leaf? && SortedEs(Top(p).es) && p == WithKi(p, LeafIndex(Top(p).es, rank))
  {
    PathEnds(root, d, lo, hi, rank);
    LeafWithin(root, Path(root, rank), d, lo, hi);
  }

  /** The binary search and the count of smaller keys agree. */
  lemma SearchedLeaf(es: seq<Entry>, rank: int, i: nat)
    requires i <= |es| && SortedEs(es)
    requires forall k :: 0 <= k < i ==> Rank(Tree.Leaf(es), k) < rank
    requires forall k :: i <= k < |es| ==> rank <= Rank(Tree.Leaf(es), k)
    ensures i == LeafIndex(es, rank)
  {
    var j := LeafIndex(es, rank);
    assert j < |es| ==> Rank(Tree.Leaf(es), j) == es[j].key.rank;
    assert j > 0 ==> Rank(Tree.Leaf(es), j - 1) == es[j - 1].key.rank;
  }

  /** The key is on the leaf under the cursor. */
  lemma Hit(root: Tree, stack: seq<Level>, rank: int, op: Op, d: nat, lo: int, hi: int, k: nat)
    requires Ordered(root, d, lo, hi) && PathOk(root, stack) && k < |Top(stack).es| && Top(stack).es[k].key.rank == rank
    ensures Target(WithKi(stack, k), true) == FromRoot(root, rank, op)
  {
    var es := Top(stack).es;
    LeafWithin(root, stack, d, lo, hi);
    assert es[0].key.rank <= rank <= es[|es| - 1].key.rank;
    InsideLeaf(root, stack, d, lo, hi, rank);
    SearchedLeaf(es, rank, k);
  }

  /** The key is larger than all on the last leaf. */
  lemma Beyond(root: Tree, stack: seq<Level>, rank: int, op: Op, d: nat, lo: int, hi: int)
    requires Ordered(root, d, lo, hi) && PathOk(root, stack) && Rightmost(stack)
    requires var es := Top(stack).es; |es| > 0 && es[|es| - 1].key.rank < rank
    ensures Target(WithKi(stack, |Top(stack).es|), false) == FromRoot(root, rank, op)
  {
    var p := WithKi(stack, |Top(stack).es|);
    BehindLast(root, stack, d, lo, hi, rank);
    NoNext(p);
  }

  lemma {:induction false} NoNext(path: seq<Level>)
    requires |path| >= 1 && Rightmost(path)
    ensures NextPath(path) == []
    decreases |path|
  {
    if |path| >= 2 {
      var up := path[..|path| - 1];
      assert path[|path| - 2] == up[|up| - 1];
      forall j | 0 <= j < |up| - 1 && up[j].page.Branch? ensures up[j].ki + 1 >= |up[j].page.kids| {
        assert up[j] == path[j];
      }
      NoNext(up);
    }
  }

  /** The tree is one leaf and the key is smaller than all on it, or it is empty. */
  lemma OnlyLeaf(root: Tree, stack: seq<Level>, rank: int, op: Op)
    requires PathOk(root, stack) && |stack| == 1 && (|root.es| > 0 ==> rank < root.es[0].key.rank)
    ensures Target(WithKi(stack, 0), op == MDB_SET_RANGE && |root.es| > 0) == FromRoot(root, rank, op)
    requires SortedEs(root.es)
  {
    SearchedLeaf(root.es, rank, 0);
    assert WithKi(stack, 0) == Path(root, rank);
  }

  lemma TargetOk(root: Tree, rank: int, op: Op, d: nat, lo: int, hi: int)
    requires Ordered(root, d, lo, hi)
    ensures PathOk(root, FromRoot(root, rank, op).path)
  {
    var p := Path(root, rank);
    PathEnds(root, d, lo, hi, rank);
    if NextPath(p) != [] { NextOk(root, p, d, lo, hi); }
  }

  lemma NextOk(t: Tree, path: seq<Level>, d: nat, lo: int, hi: int)
    requires Ordered(t, d, lo, hi) && PathOk(t, path) && NextPath(path) != []
    ensures PathOk(t, NextPath(path))
  {
    NextMeaning(t, path, d, lo, hi);
    SameDepth(t, path, NextPath(path), d, lo, hi);
  }

  /** The child that mdb_page_search_root follows (mdb.c:4780-4788). */
  method ChildOf(mp: Tree, rank: int, ghost lo: int, ghost hi: int, ghost d: nat) returns (i: nat)
    requires mp.Branch? && Ordered(mp, d, lo, hi) && Filled(mp)
    ensures i == ChildIndex(mp.keys, rank) < |mp.kids|
  {
    var exact;
    i, exact := NodeSearch(mp, rank);
    if i >= NumKeys(mp) {
      i := NumKeys(mp) - 1;
    } else if !exact {
      i := i - 1;
    }
    assert i + 1 < NumKeys(mp) ==> Rank(mp, i + 1) == mp.keys[i + 1].rank;
    assert i > 0 ==> Rank(mp, i) == mp.keys[i].rank;
    ChildIndexIs(mp.keys, lo, hi, rank, i);
  }

  lemma Arrived(root: Tree, stack: seq<Level>, rank: int)
    requires |stack| >= 1 && Top(stack).Leaf? && stack[|stack| - 1].ki == 0
    requires stack[..|stack| - 1] + Path(Top(stack), rank) == Path(root, rank)
    ensures stack == WithKi(Path(root, rank), 0)
  {
    LastApart(stack, Path(Top(stack), rank)[0], Path(root, rank));
  }

  lemma LastApart(stack: seq<Level>, l: Level, p: seq<Level>)
    requires |stack| >= 1 && stack[|stack| - 1].ki == 0 && l.page == Top(stack) && p == stack[..|stack| - 1] + [l]
    ensures stack == WithKi(p, 0)
  {
  }

  lemma Descended(was: seq<Level>, stack: seq<Level>, mp: Tree, i: nat, rank: int)
    requires |was| >= 1 && mp == Top(was) && mp.Branch? && |mp.kids| == |mp.keys| > 0 && i == ChildIndex(mp.keys, rank)
    requires stack == WithKi(was, i) + [Level(mp.kids[i], 0)]
    ensures stack[..|stack| - 1] + Path(Top(stack), rank) == was[..|was| - 1] + Path(mp, rank)
  {
    assert stack[..|stack| - 1] == was[..|was| - 1] + [Level(mp, i)];
  }

  // ---------------------------------------------------------------- what the answer means

  lemma {:induction false} AheadCons(l: Level, rest: seq<Level>)
    requires |rest| >= 1 && l.page.Branch? && l.ki < |l.page.kids|
    ensures Ahead([l] + rest) == FlatAll(l.page.kids[..l.ki]) + Ahead(rest)
    decreases |rest|
  {
    var path := [l] + rest;
    if |rest| == 1 {
      assert path[..1] == [l];
      assert Ahead([l]) == [];
    } else {
      var up := rest[..|rest| - 1];
      AheadCons(l, up);
      assert path[..|path| - 1] == [l] + up;
      AheadLast(path, [l] + up, rest[|rest| - 2]);
      AheadLast(rest, up, rest[|rest| - 2]);
    }
  }

  lemma AheadLast(path: seq<Level>, up: seq<Level>, p: Level)
    requires |path| >= 2 && up == path[..|path| - 1] && p == path[|path| - 2]
    ensures Ahead(path) == Ahead(up) + if p.page.Branch? && p.ki < |p.page.kids| then FlatAll(p.page.kids[..p.ki]) else []
  {
  }

  /** The entries before a place on a leaf: those before the leaf, and those before it on the leaf. */
  lemma {:induction false} BeforeIs(t: Tree, path: seq<Level>)
    requires PathOk(t, path) && path[|path| - 1].ki <= |Top(path).es|
    ensures Before(path) == Ahead(path) + Top(path).es[..path[|path| - 1].ki]
    decreases |path|
  {
    if |path| > 1 {
      LinkedTail(t, path);
      BeforeIs(t.kids[path[0].ki], path[1..]);
      AheadCons(path[0], path[1..]);
      HeadApart(path);
    } else {
      assert path[1..] == [];
    }
  }

  lemma HeadApart(path: seq<Level>)
    requires |path| > 0
    ensures path == [path[0]] + path[1..]
  {
  }

  lemma {:induction false} AfterStarts(t: Tree, path: seq<Level>)
    requires PathOk(t, path) && path[|path| - 1].ki < |Top(path).es|
    ensures |After(path)| > 0 && After(path)[0] == Top(path).es[path[|path| - 1].ki]
    decreases |path|
  {
    if |path| > 1 {
      LinkedTail(t, path);
      AfterStarts(t.kids[path[0].ki], path[1..]);
    } else {
      assert path[1..] == [];
    }
  }

  /** The cursor stands on entry number k of the tree. */
  ghost predicate Stands(root: Tree, path: seq<Level>, k: nat) {
    && PathOk(root, path) && path[|path| - 1].ki < |Top(path).es| && k < |Flat(root)|
    && Flat(root)[k] == Top(path).es[path[|path| - 1].ki]
  }

  lemma StandsAt(root: Tree, path: seq<Level>)
    requires PathOk(root, path) && path[|path| - 1].ki < |Top(path).es|
    ensures Stands(root, path, |Before(path)|) && Flat(root)[..|Before(path)|] == Before(path)
  {
    BeforeAfter(root, path);
    AfterStarts(root, path);
  }

  /** When the search ends behind the last entry of a leaf, the next leaf begins with the first larger key. */
  lemma NextStands(root: Tree, p: seq<Level>, d: nat, lo: int, hi: int)
    requires Ordered(root, d, lo, hi) && PathOk(root, p) && p[|p| - 1].ki == |Top(p).es|
    ensures NextPath(p) == [] ==> Before(p) == Flat(root)
    ensures NextPath(p) != [] ==> var q := NextPath(p);
      PathOk(root, q) && q[|q| - 1].ki == 0 < |Top(q).es| && Before(q) == Before(p)
  {
    NextMeaning(root, p, d, lo, hi);
    BeforeIs(root, p);
    var q := NextPath(p);
    if q != [] {
      SameDepth(root, p, q, d, lo, hi);
      BeforeIs(root, q);
    }
  }

  /** Behind the end of the leaf that a key belongs on all keys are larger. */
  lemma {:induction false} LaterLarger(t: Tree, d: nat, lo: int, hi: int, rank: int)
    requires Ordered(t, d, lo, hi) && lo <= rank < hi
    requires var p := Path(t, rank); Top(p).Leaf? && p[|p| - 1].ki == |Top(p).es|
    ensures AllFrom(After(Path(t, rank)), rank + 1)
    decreases d
  {
    if t.Branch? {
      var i := ChildIndex(t.keys, rank);
      ChildIndexOk(t.keys, lo, hi, rank);
      assert Path(t, rank)[1..] == Path(t.kids[i], rank);
      LaterLarger(t.kids[i], d - 1, Lo(t.keys, lo, i), Hi(t.keys, hi, i), rank);
      RightAbove(t.keys, t.kids, d, lo, hi, i, rank);
      LaterStep(t.keys, t.kids, i, rank);
    } else {
      assert Path(t, rank)[1..] == [];
    }
  }

  lemma LaterStep(keys: seq<Key>, kids: seq<Tree>, i: nat, rank: int)
    requires |keys| == |kids| > 0 && i == ChildIndex(keys, rank)
    requires AllFrom(After(Path(kids[i], rank)), rank + 1) && AllFrom(FlatAll(kids[i + 1..]), rank + 1)
    ensures AllFrom(After(Path(Branch(keys, kids), rank)), rank + 1)
  {
    assert Path(Branch(keys, kids), rank)[1..] == Path(kids[i], rank);
    CatBelow(After(Path(kids[i], rank)), FlatAll(kids[i + 1..]), rank + 1);
  }

  /** Entries before number k are below rank, those from it on are not. */
  ghost predicate Cuts(es: seq<Entry>, k: nat, rank: int) {
    k <= |es| && AllBelow(es[..k], rank) && AllFrom(es[k..], rank)
  }

  /** All that is known of the place p where a search for rank ends. */
  ghost predicate Searched(root: Tree, p: seq<Level>, rank: int) {
    && |p| > 0 && Flat(root) == Before(p) + After(p) && AllBelow(Before(p), rank) && AllFrom(After(p), rank)
    && (Top(p).Leaf? && p[|p| - 1].ki == |Top(p).es| ==> AllFrom(After(p), rank + 1))
  }

  ghost predicate AtPlace(root: Tree, p: seq<Level>) { PathOk(root, p) && p[|p| - 1].ki <= |Top(p).es| }

  lemma SearchFacts(root: Tree, d: nat, lo: int, hi: int, rank: int)
    requires Ordered(root, d, lo, hi) && lo <= rank < hi
    ensures Searched(root, Path(root, rank), rank)
  {
    PathSplit(root, d, lo, hi, rank);
    PathMeaning(root, d, lo, hi, rank);
    LaterIf(root, d, lo, hi, rank);
  }

  lemma {:induction false} PathSplit(t: Tree, d: nat, lo: int, hi: int, rank: int)
    requires Ordered(t, d, lo, hi)
    ensures Flat(t) == Before(Path(t, rank)) + After(Path(t, rank))
    decreases d
  {
    match t
    case Leaf(es) =>
      LeafParts(es, rank);
    case Branch(keys, kids) =>
      var i := ChildIndex(keys, rank);
      PathSplit(kids[i], d - 1, Lo(keys, lo, i), Hi(keys, hi, i), rank);
      SplitStep(keys, kids, i, rank);
  }

  lemma LeafParts(es: seq<Entry>, rank: int)
    ensures es == Before(Path(Tree.Leaf(es), rank)) + After(Path(Tree.Leaf(es), rank))
  {
    assert Path(Tree.Leaf(es), rank)[1..] == [];
  }

  lemma SplitStep(keys: seq<Key>, kids: seq<Tree>, i: nat, rank: int)
    requires |keys| == |kids| > 0 && i == ChildIndex(keys, rank)
    requires Flat(kids[i]) == Before(Path(kids[i], rank)) + After(Path(kids[i], rank))
    ensures var p := Path(Branch(keys, kids), rank); FlatAll(kids) == Before(p) + After(p)
  {
    assert Path(Branch(keys, kids), rank)[1..] == Path(kids[i], rank);
    FlatAt(kids, i);
    Around(FlatAll(kids[..i]), Before(Path(kids[i], rank)), After(Path(kids[i], rank)), FlatAll(kids[i + 1..]));
  }

  lemma LaterIf(root: Tree, d: nat, lo: int, hi: int, rank: int)
    requires Ordered(root, d, lo, hi) && lo <= rank < hi
    ensures var p := Path(root, rank);
      Top(p).Leaf? && p[|p| - 1].ki == |Top(p).es| ==> AllFrom(After(p), rank + 1)
  {
    var p := Path(root, rank);
    if Top(p).Leaf? && p[|p| - 1].ki == |Top(p).es| { LaterLarger(root, d, lo, hi, rank); }
  }

  lemma CutsAt(s: seq<Entry>, a: seq<Entry>, b: seq<Entry>, rank: int)
    requires s == a + b && AllBelow(a, rank) && AllFrom(b, rank)
    ensures Cuts(s, |a|, rank) && s[..|a|] == a && s[|a|..] == b
  {
    assert s[..|a|] == a && s[|a|..] == b;
  }

  lemma NoneEqual(es: seq<Entry>, k: nat, rank: int)
    requires Cuts(es, k, rank) && SortedEs(es) && (k < |es| ==> es[k].key.rank != rank)
    ensures forall j :: 0 <= j < |es| ==> es[j].key.rank != rank
  {
    forall j | 0 <= j < |es| ensures es[j].key.rank != rank {
      assert j < k ==> es[..k][j] == es[j];
      assert k < |es| ==> es[k..][0] == es[k];
    }
  }

  /** A key that is not at its place on its leaf is not at the cut of the tree's entries either. */
  lemma NotOnPath(root: Tree, p: seq<Level>, rank: int)
    requires Searched(root, p, rank) && AtPlace(root, p)
    requires p[|p| - 1].ki < |Top(p).es| ==> Top(p).es[p[|p| - 1].ki].key.rank != rank
    ensures |Before(p)| < |Flat(root)| ==> Flat(root)[|Before(p)|].key.rank != rank
  {
    var k := |Before(p)|;
    if p[|p| - 1].ki < |Top(p).es| {
      StandsAt(root, p);
    } else {
      assert k < |Flat(root)| ==> Flat(root)[k] == After(p)[0];
    }
  }

  /** When the key is not at its place on its leaf it is nowhere. */
  lemma Missing(root: Tree, p: seq<Level>, rank: int)
    requires Searched(root, p, rank) && AtPlace(root, p) && SortedEs(Flat(root)) && !Answer(p, rank, MDB_SET).found
    ensures forall j :: 0 <= j < |Flat(root)| ==> Flat(root)[j].key.rank != rank
  {
    NotOnPath(root, p, rank);
    CutsAt(Flat(root), Before(p), After(p), rank);
    NoneEqual(Flat(root), |Before(p)|, rank);
  }

  lemma Standing(root: Tree, p: seq<Level>, rank: int, op: Op, d: nat, lo: int, hi: int)
    requires Ordered(root, d, lo, hi) && AtPlace(root, p) && (op == MDB_SET ==> Answer(p, rank, op).found)
    ensures var r, k := Answer(p, rank, op), |Before(p)|;
      if r.found then Stands(root, r.path, k) && (op == MDB_SET ==> Flat(root)[k].key.rank == rank) else k == |Flat(root)|
  {
    if p[|p| - 1].ki < |Top(p).es| {
      StandsAt(root, p);
    } else {
      NextStands(root, p, d, lo, hi);
      if NextPath(p) != [] { StandsAt(root, NextPath(p)); }
    }
  }

  /**
   * The meaning of mdb_cursor_set: found, the cursor stands on the first entry whose key is not below the key asked
   * for; with MDB_SET it is found exactly when that key is there, with MDB_SET_RANGE when one not below it is.
   */
  lemma SetMeaning(root: Tree, rank: int, op: Op, d: nat, lo: int, hi: int) returns (k: nat)
    requires Ordered(root, d, lo, hi) && lo <= rank < hi
    ensures Cuts(Flat(root), k, rank)
    ensures var r := FromRoot(root, rank, op);
      if r.found then Stands(root, r.path, k) && (op == MDB_SET ==> Flat(root)[k].key.rank == rank)
      else if op == MDB_SET then forall j :: 0 <= j < |Flat(root)| ==> Flat(root)[j].key.rank != rank
      else k == |Flat(root)|
  {
    PathEnds(root, d, lo, hi, rank);
    SearchFacts(root, d, lo, hi, rank);
    FlatSorted(root, d, lo, hi);
    k := PlaceMeaning(root, Path(root, rank), rank, op, d, lo, hi);
  }

  lemma PlaceMeaning(root: Tree, p: seq<Level>, rank: int, op: Op, d: nat, lo: int, hi: int) returns (k: nat)
    requires Ordered(root, d, lo, hi) && Searched(root, p, rank) && AtPlace(root, p) && SortedEs(Flat(root))
    ensures Cuts(Flat(root), k, rank)
    ensures var r := Answer(p, rank, op);
      if r.found then Stands(root, r.path, k) && (op == MDB_SET ==> Flat(root)[k].key.rank == rank)
      else if op == MDB_SET then forall j :: 0 <= j < |Flat(root)| ==> Flat(root)[j].key.rank != rank
      else k == |Flat(root)|
  {
    k := |Before(p)|;
    CutsAt(Flat(root), Before(p), After(p), rank);
    if op == MDB_SET && !Answer(p, rank, op).found {
      Missing(root, p, rank);
    } else {
      Standing(root, p, rank, op, d, lo, hi);
    }
  }
}
