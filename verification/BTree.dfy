/**
 The B+tree: pages as trees of values with the byte sizes that steer splitting and merging.
 A comparison function is a total order, and the finitely many keys of a tree embed in the
 integers under it: a key is its rank together with its length in bytes.
 */
module BTree {
  import opened SplitPoint

  type PageSize = n: nat | 4096 <= n <= 0x8000 && n % 2 == 0 witness 4096

  /** me_psize: any page size the store accepts from 4096 up. */
  const PSIZE: PageSize
  const PMAX: nat := PSIZE - 16
  const NODEMAX: nat := PMAX / 2 / 2 * 2 - 2
  const MAXKEYSIZE: nat := 511

  datatype Key = Key(rank: int, len: nat)

  /** big is F_BIGDATA: the data lives on overflow pages and the node holds their number. */
  datatype Entry = Entry(key: Key, dlen: nat, big: bool, val: int)

  datatype Tree =
    | Leaf(es: seq<Entry>)
    | Branch(keys: seq<Key>, kids: seq<Tree>)

  /** The key of index 0 of a branch page is not stored. */
  const NOKEY := Key(0, 0)

  // ---------------------------------------------------------------- sizes

  function Even(n: nat): nat { n + n % 2 }

  function LeafNode(e: Entry): nat { Even(8 + e.key.len + (if e.big then 8 else e.dlen)) + 2 }

  function BranchNode(k: Key): nat { Even(8 + k.len) + 2 }

  function LeafSizes(es: seq<Entry>): seq<nat> { seq(|es|, i requires 0 <= i < |es| => LeafNode(es[i])) }

  function KeySizes(keys: seq<Key>): seq<nat> { seq(|keys|, i requires 0 <= i < |keys| => BranchNode(keys[i])) }

  function LeafSum(es: seq<Entry>): nat { Sum(LeafSizes(es)) }

  function KeySum(keys: seq<Key>): nat { Sum(KeySizes(keys)) }

  function Used(t: Tree): nat { if t.Leaf? then LeafSum(t.es) else KeySum(t.keys) }

  function NumKeys(t: Tree): nat { if t.Leaf? then |t.es| else |t.keys| }

  function MinKeys(t: Tree): nat { if t.Leaf? then 1 else 2 }

  /** PAGEFILL, in tenths of a percent. */
  function Fill(t: Tree): int { 1000 * Used(t) / PMAX }

  /** A new node as mdb_node_add makes it. */
  function NewEntry(key: Key, dlen: nat, val: int): Entry { Entry(key, dlen, 8 + key.len + dlen > NODEMAX, val) }

  /** Data goes to overflow pages exactly when two nodes of this size do not fit on one page. */
  lemma BigExactly(key: Key, dlen: nat, val: int)
    ensures NewEntry(key, dlen, val).big <==> 2 * (Even(8 + key.len + dlen) + 2) > PMAX
  {
  }

  predicate KeyOk(k: Key) { 1 <= k.len <= MAXKEYSIZE }

  predicate EntryOk(e: Entry) { KeyOk(e.key) && (!e.big ==> 8 + e.key.len + e.dlen <= NODEMAX) }

  ghost predicate KeysOk(keys: seq<Key>) {
    |keys| >= 1 && keys[0] == NOKEY && forall i :: 1 <= i < |keys| ==> KeyOk(keys[i])
  }

  /** Every page fits, every key and node is of legal size. */
  ghost predicate Sized(t: Tree) {
    match t
    case Leaf(es) => LeafSum(es) <= PMAX && forall i :: 0 <= i < |es| ==> EntryOk(es[i])
    case Branch(keys, kids) =>
      && KeysOk(keys) && |keys| == |kids| && KeySum(keys) <= PMAX
      && forall i :: 0 <= i < |kids| ==> Sized(kids[i])
  }

  lemma LeafSumCat(a: seq<Entry>, b: seq<Entry>)
    ensures LeafSum(a + b) == LeafSum(a) + LeafSum(b)
  {
    SumCat(LeafSizes(a), LeafSizes(b));
    assert LeafSizes(a + b) == LeafSizes(a) + LeafSizes(b);
  }

  lemma KeySumCat(a: seq<Key>, b: seq<Key>)
    ensures KeySum(a + b) == KeySum(a) + KeySum(b)
  {
    SumCat(KeySizes(a), KeySizes(b));
    assert KeySizes(a + b) == KeySizes(a) + KeySizes(b);
  }

  lemma OneSum(e: Entry, k: Key)
    ensures LeafSum([e]) == LeafNode(e) && KeySum([k]) == BranchNode(k)
  {
    SumOne(LeafNode(e));
    SumOne(BranchNode(k));
    assert LeafSizes([e]) == [LeafNode(e)];
    assert KeySizes([k]) == [BranchNode(k)];
  }

  /** The bounds the size arguments rest on: at least two nodes fit on any page. */
  lemma NodeBounds(e: Entry, k: Key)
    requires EntryOk(e) && k.len <= MAXKEYSIZE
    ensures 0 < LeafNode(e) <= PMAX / 2
    ensures 10 <= BranchNode(k) <= 522
  {
  }

  // ---------------------------------------------------------------- order

  ghost predicate SortedEs(es: seq<Entry>) { forall i, j :: 0 <= i < j < |es| ==> es[i].key.rank < es[j].key.rank }

  ghost predicate Within(es: seq<Entry>, lo: int, hi: int) { forall i :: 0 <= i < |es| ==> lo <= es[i].key.rank < hi }

  function Lo(keys: seq<Key>, lo: int, i: nat): int
    requires i < |keys|
  {
    if i == 0 then lo else keys[i].rank
  }

  function Hi(keys: seq<Key>, hi: int, i: nat): int
    requires i < |keys|
  {
    if i + 1 == |keys| then hi else keys[i + 1].rank
  }

  ghost predicate Separators(keys: seq<Key>, lo: int, hi: int) {
    && (forall i :: 1 <= i < |keys| ==> lo < keys[i].rank < hi)
    && (forall i, j :: 1 <= i < j < |keys| ==> keys[i].rank < keys[j].rank)
  }

  ghost predicate Filled(t: Tree) { NumKeys(t) >= MinKeys(t) }

  /** A tree of uniform depth d whose keys lie in [lo, hi): left keys < separator <= right keys. */
  ghost predicate Ordered(t: Tree, d: nat, lo: int, hi: int)
    decreases d
  {
    match t
    case Leaf(es) => d == 0 && SortedEs(es) && Within(es, lo, hi)
    case Branch(keys, kids) =>
      && d > 0 && |keys| == |kids| && |keys| >= 1 && Separators(keys, lo, hi)
      && forall i :: 0 <= i < |kids| ==> Filled(kids[i]) && Ordered(kids[i], d - 1, Lo(keys, lo, i), Hi(keys, hi, i))
  }

  function Flat(t: Tree): seq<Entry>
    decreases t
  {
    match t
    case Leaf(es) => es
    case Branch(_, kids) => FlatAll(kids)
  }

  function FlatAll(kids: seq<Tree>): seq<Entry>
    decreases kids
  {
    if |kids| == 0 then [] else FlatAll(kids[..|kids| - 1]) + Flat(kids[|kids| - 1])
  }

  /** The key mdb_page_search_lowest finds. */
  function LowKey(t: Tree): Key
    decreases t
  {
    match t
    case Leaf(es) => if |es| == 0 then NOKEY else es[0].key
    case Branch(_, kids) => if |kids| == 0 then NOKEY else LowKey(kids[0])
  }

  lemma {:induction false} FlatCat(a: seq<Tree>, b: seq<Tree>)
    ensures FlatAll(a + b) == FlatAll(a) + FlatAll(b)
    decreases |b|
  {
    if |b| == 0 {
      assert a + b == a;
    } else {
      var c := b[..|b| - 1];
      FlatCat(a, c);
      assert (a + b)[..|a + b| - 1] == a + c;
    }
  }

  lemma FlatOne(t: Tree)
    ensures FlatAll([t]) == Flat(t)
  {
    assert [t][..0] == [];
  }

  lemma FlatThree(a: seq<Tree>, b: seq<Tree>, c: seq<Tree>)
    ensures FlatAll(a + b + c) == FlatAll(a) + FlatAll(b) + FlatAll(c)
  {
    FlatCat(a, b);
    FlatCat(a + b, c);
  }

  lemma FlatAt(kids: seq<Tree>, i: nat)
    requires i < |kids|
    ensures FlatAll(kids) == FlatAll(kids[..i]) + Flat(kids[i]) + FlatAll(kids[i + 1..])
  {
    FlatMid(kids[..i], kids[i], kids[i + 1..]);
    Parts(kids, i);
  }

  lemma Parts<T>(s: seq<T>, i: nat)
    requires i < |s|
    ensures s[..i] + [s[i]] + s[i + 1..] == s
  {
  }

  /** The middle part of a concatenation. */
  lemma Inner<T>(a: seq<T>, w: seq<T>, b: seq<T>, p: nat)
    requires p <= |w|
    ensures (a + w + b)[..|a| + p] == a + w[..p] && (a + w + b)[|a| + p..] == w[p..] + b
    ensures p < |w| ==> (a + w + b)[|a| + p] == w[p]
  {
  }

  lemma Regroup<T>(a: seq<T>, x: seq<T>, m: seq<T>, y: seq<T>, b: seq<T>)
    ensures a + (x + m + y) + b == (a + x) + m + (y + b)
  {
  }

  lemma FlatMid(a: seq<Tree>, t: Tree, c: seq<Tree>)
    ensures FlatAll(a + [t] + c) == FlatAll(a) + Flat(t) + FlatAll(c)
  {
    FlatThree(a, [t], c);
    FlatOne(t);
  }

  lemma {:induction false} Widen(t: Tree, d: nat, lo: int, hi: int, lo': int, hi': int)
    requires Ordered(t, d, lo, hi) && lo' <= lo && hi <= hi'
    ensures Ordered(t, d, lo', hi')
    decreases d
  {
    if t.Branch? {
      forall i | 0 <= i < |t.kids| ensures Ordered(t.kids[i], d - 1, Lo(t.keys, lo', i), Hi(t.keys, hi', i)) {
        Widen(t.kids[i], d - 1, Lo(t.keys, lo, i), Hi(t.keys, hi, i), Lo(t.keys, lo', i), Hi(t.keys, hi', i));
      }
    }
  }

  /** The lowest key of a tree bounds it from below, and is a key of legal size. */
  lemma {:induction false} Narrow(t: Tree, d: nat, lo: int, hi: int)
    requires Ordered(t, d, lo, hi) && NumKeys(t) >= 1 && Sized(t)
    ensures lo <= LowKey(t).rank < hi && KeyOk(LowKey(t)) && Ordered(t, d, LowKey(t).rank, hi)
    decreases d
  {
    if t.Branch? {
      Narrow(t.kids[0], d - 1, Lo(t.keys, lo, 0), Hi(t.keys, hi, 0));
    }
  }

  /** Consecutive children of a branch page form a branch page again. */
  lemma SliceOrdered(keys: seq<Key>, kids: seq<Tree>, d: nat, lo: int, hi: int, a: nat, b: nat)
    requires Ordered(Branch(keys, kids), d, lo, hi) && a < b <= |keys|
    ensures Ordered(Branch([NOKEY] + keys[a + 1..b], kids[a..b]), d, Lo(keys, lo, a), Hi(keys, hi, b - 1))
  {
    var k, c, l, h := [NOKEY] + keys[a + 1..b], kids[a..b], Lo(keys, lo, a), Hi(keys, hi, b - 1);
    assert |k| == |c| == b - a;
    forall i | 0 <= i < b - a ensures Lo(k, l, i) == Lo(keys, lo, a + i) && Hi(k, h, i) == Hi(keys, hi, a + i) {
      if i > 0 { assert k[i] == keys[a + i]; }
      if i + 1 < b - a { assert k[i + 1] == keys[a + i + 1]; }
    }
    assert forall i :: 1 <= i < b - a ==> k[i] == keys[a + i];
    forall i | 0 <= i < |c| ensures Filled(c[i]) && Ordered(c[i], d - 1, Lo(k, l, i), Hi(k, h, i)) {
      assert c[i] == kids[a + i];
    }
  }

  function Splice<T>(s: seq<T>, a: nat, b: nat, w: seq<T>): seq<T>
    requires a <= b <= |s|
  {
    s[..a] + w + s[b..]
  }

  lemma SpliceAt<T>(s: seq<T>, a: nat, b: nat, w: seq<T>)
    requires a <= b <= |s|
    ensures var k := Splice(s, a, b, w);
      && |k| == a + |w| + |s| - b
      && forall i :: 0 <= i < |k| ==> k[i] == if i < a then s[i] else if i < a + |w| then w[i - a] else s[i - a - |w| + b]
  {
  }

  /** The keys of a branch page with children a..b replaced: index 0 of the replacement keeps the old key. */
  function SpliceKeys(keys: seq<Key>, a: nat, b: nat, wk: seq<Key>): seq<Key>
    requires a < b <= |keys| && |wk| >= 1
  {
    Splice(keys, a, b, [keys[a]] + wk[1..])
  }

  lemma SpliceSeparators(keys: seq<Key>, lo: int, hi: int, a: nat, b: nat, wk: seq<Key>)
    requires Separators(keys, lo, hi) && lo < hi && a < b <= |keys| && |wk| >= 1
    requires Separators(wk, Lo(keys, lo, a), Hi(keys, hi, b - 1))
    ensures Separators(SpliceKeys(keys, a, b, wk), lo, hi)
  {
    var k, n := SpliceKeys(keys, a, b, wk), |wk|;
    SpliceAt(keys, a, b, [keys[a]] + wk[1..]);
    forall i | 1 <= i < |k|
      ensures lo < k[i].rank < hi
      ensures i <= a ==> k[i] == keys[i]
      ensures a < i < a + n ==> k[i] == wk[i - a]
      ensures a + n <= i ==> k[i] == keys[i - a - n + b]
    {
    }
    forall i, j | 1 <= i < j < |k| ensures k[i].rank < k[j].rank {
      if i <= a && a < j < a + n {
        assert k[i].rank <= Lo(keys, lo, a);
      } else if a < i < a + n && a + n <= j {
        assert Hi(keys, hi, b - 1) <= k[j].rank;
      }
    }
  }

  /** Children a..b of a branch page replaced by those of another one with the same outer bounds. */
  lemma SpliceOrdered(keys: seq<Key>, kids: seq<Tree>, d: nat, lo: int, hi: int, a: nat, b: nat, wk: seq<Key>, wc: seq<Tree>)
    requires Ordered(Branch(keys, kids), d, lo, hi) && lo < hi && a < b <= |keys|
    requires Ordered(Branch(wk, wc), d, Lo(keys, lo, a), Hi(keys, hi, b - 1))
    ensures Ordered(Branch(SpliceKeys(keys, a, b, wk), Splice(kids, a, b, wc)), d, lo, hi)
  {
    var n := |wk|;
    var k, c := SpliceKeys(keys, a, b, wk), Splice(kids, a, b, wc);
    SpliceSeparators(keys, lo, hi, a, b, wk);
    SpliceAt(keys, a, b, [keys[a]] + wk[1..]);
    SpliceAt(kids, a, b, wc);
    forall i | 0 <= i < |c| ensures Filled(c[i]) && Ordered(c[i], d - 1, Lo(k, lo, i), Hi(k, hi, i)) {
      if i < a {
        assert c[i] == kids[i] && Lo(k, lo, i) == Lo(keys, lo, i) && Hi(k, hi, i) == Hi(keys, hi, i);
      } else if i < a + n {
        assert c[i] == wc[i - a];
        assert Lo(k, lo, i) == Lo(wk, Lo(keys, lo, a), i - a);
        assert Hi(k, hi, i) == Hi(wk, Hi(keys, hi, b - 1), i - a);
      } else {
        var m := i - a - n + b;
        assert c[i] == kids[m] && Lo(k, lo, i) == Lo(keys, lo, m) && Hi(k, hi, i) == Hi(keys, hi, m);
      }
    }
  }

  // ---------------------------------------------------------------- entries in order

  lemma CatSorted(a: seq<Entry>, b: seq<Entry>, lo: int, m: int, hi: int)
    requires SortedEs(a) && SortedEs(b) && Within(a, lo, m) && Within(b, m, hi) && lo <= m <= hi
    ensures SortedEs(a + b) && Within(a + b, lo, hi)
  {
  }

  /** Every key lies between the bounds, and the entries come out sorted. */
  lemma {:induction false} FlatSorted(t: Tree, d: nat, lo: int, hi: int)
    requires Ordered(t, d, lo, hi)
    ensures SortedEs(Flat(t)) && Within(Flat(t), lo, hi)
    decreases d, NumKeys(t)
  {
    if t.Branch? {
      var n := |t.kids| - 1;
      FlatSorted(t.kids[n], d - 1, Lo(t.keys, lo, n), Hi(t.keys, hi, n));
      if n == 0 {
        FlatOne(t.kids[0]);
        assert t.kids == [t.kids[0]];
      } else {
        FrontOrdered(t.keys, t.kids, d, lo, hi, n);
        FlatSorted(Branch([NOKEY] + t.keys[1..n], t.kids[..n]), d, lo, t.keys[n].rank);
        CatSorted(FlatAll(t.kids[..n]), Flat(t.kids[n]), lo, t.keys[n].rank, hi);
      }
    }
  }

  lemma FrontOrdered(keys: seq<Key>, kids: seq<Tree>, d: nat, lo: int, hi: int, n: nat)
    requires Ordered(Branch(keys, kids), d, lo, hi) && 0 < n < |keys|
    ensures Ordered(Branch([NOKEY] + keys[1..n], kids[..n]), d, lo, keys[n].rank) && lo < keys[n].rank < hi
  {
    SliceOrdered(keys, kids, d, lo, hi, 0, n);
    assert kids[0..n] == kids[..n];
  }

  lemma BackOrdered(keys: seq<Key>, kids: seq<Tree>, d: nat, lo: int, hi: int, n: nat)
    requires Ordered(Branch(keys, kids), d, lo, hi) && 0 < n < |keys|
    ensures Ordered(Branch([NOKEY] + keys[n + 1..|keys|], kids[n..]), d, keys[n].rank, hi) && lo < keys[n].rank < hi
  {
    SliceOrdered(keys, kids, d, lo, hi, n, |keys|);
    assert kids[n..|keys|] == kids[n..];
  }

  /** The entries left and right of child i. */
  lemma FlatAround(keys: seq<Key>, kids: seq<Tree>, d: nat, lo: int, hi: int, i: nat)
    requires Ordered(Branch(keys, kids), d, lo, hi) && i < |kids|
    ensures Within(FlatAll(kids[..i]), lo, Lo(keys, lo, i)) && Within(FlatAll(kids[i + 1..]), Hi(keys, hi, i), hi)
  {
    if i > 0 { FlatBefore(keys, kids, d, lo, hi, i); }
    if i + 1 < |kids| { FlatBehind(keys, kids, d, lo, hi, i + 1); }
  }

  lemma FlatBefore(keys: seq<Key>, kids: seq<Tree>, d: nat, lo: int, hi: int, n: nat)
    requires Ordered(Branch(keys, kids), d, lo, hi) && 0 < n < |keys|
    ensures Within(FlatAll(kids[..n]), lo, keys[n].rank)
  {
    FrontOrdered(keys, kids, d, lo, hi, n);
    FlatSorted(Branch([NOKEY] + keys[1..n], kids[..n]), d, lo, keys[n].rank);
  }

  lemma FlatBehind(keys: seq<Key>, kids: seq<Tree>, d: nat, lo: int, hi: int, n: nat)
    requires Ordered(Branch(keys, kids), d, lo, hi) && 0 < n < |keys|
    ensures Within(FlatAll(kids[n..]), keys[n].rank, hi)
  {
    BackOrdered(keys, kids, d, lo, hi, n);
    FlatSorted(Branch([NOKEY] + keys[n + 1..|keys|], kids[n..]), d, keys[n].rank, hi);
  }

  lemma {:induction false} FlatNonEmpty(t: Tree, d: nat, lo: int, hi: int)
    requires Ordered(t, d, lo, hi) && NumKeys(t) >= 1
    ensures |Flat(t)| >= 1 && lo < hi
    decreases d
  {
    if t.Branch? {
      FlatNonEmpty(t.kids[0], d - 1, Lo(t.keys, lo, 0), Hi(t.keys, hi, 0));
      FlatAt(t.kids, 0);
    } else {
      assert lo <= t.es[0].key.rank < hi;
    }
  }
}
