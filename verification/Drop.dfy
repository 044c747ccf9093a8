/** mdb_drop0: all pages of a tree go to the free list, level by level from the leaves up. */
module Drop {
  import opened Idl

  /** A node of a leaf as far as dropping it goes: plain, with its data on overflow pages, or the root of a sub-DB. */
  datatype Node = Plain | Big(pg: Id, pages: nat) | Sub(root: Tree)

  /** leaf2 marks a LEAF2 page, which has keys but no nodes. */
  datatype Tree = Leaf(pgno: Id, nodes: seq<Node>, leaf2: bool) | Branch(pgno: Id, kids: seq<Tree>)

  /** Uniform depth; branch pages have children, LEAF2 is the kind of all leaves or of none, page numbers are in range. */
  ghost predicate Shape(t: Tree, d: nat, l2: bool)
    decreases t
  {
    match t
    case Leaf(_, nodes, leaf2) =>
      && d == 0 && leaf2 == l2 && (l2 ==> nodes == [])
      && forall i :: 0 <= i < |nodes| ==> NodeOk(nodes[i])
    case Branch(_, kids) => d > 0 && |kids| > 0 && forall i :: 0 <= i < |kids| ==> Shape(kids[i], d - 1, l2)
  }

  ghost predicate NodeOk(n: Node)
    decreases n
  {
    match n
    case Plain => true
    case Big(pg, pages) => pg + pages <= MAXID
    case Sub(root) => Shape(root, Depth(root), Kind(root))
  }

  /** The depth, and whether the leaves are LEAF2 pages, as the leftmost leaf shows them. */
  ghost function Depth(t: Tree): nat { if t.Leaf? || |t.kids| == 0 then 0 else Depth(t.kids[0]) + 1 }

  ghost function Kind(t: Tree): bool { if t.Leaf? then t.leaf2 else if |t.kids| == 0 then false else Kind(t.kids[0]) }

  // ---------------------------------------------------------------- what there is to free

  /** Every page of the tree: branch, leaf and overflow pages, and with subs those of its sub-DBs. */
  function PagesOf(t: Tree, subs: bool): multiset<Id>
    decreases subs, t
  {
    match t
    case Leaf(pgno, nodes, _) => multiset{pgno} + NodePages(nodes, subs)
    case Branch(pgno, kids) => multiset{pgno} + PagesAll(kids, subs)
  }

  function PagesAll(s: seq<Tree>, subs: bool): multiset<Id>
    decreases subs, s
  {
    if |s| == 0 then multiset{} else PagesAll(s[..|s| - 1], subs) + PagesOf(s[|s| - 1], subs)
  }

  function NodePages(nodes: seq<Node>, subs: bool): multiset<Id>
    decreases subs, nodes
  {
    if |nodes| == 0 then multiset{} else
      NodePages(nodes[..|nodes| - 1], subs) + OnePages(nodes[|nodes| - 1], subs)
  }

  /** The overflow pages of one node, or the pages of its sub-DB. */
  function OnePages(n: Node, subs: bool): multiset<Id>
    decreases subs, n
  {
    match n
    case Plain => multiset{}
    case Big(pg, pages) => if pg + pages <= MAXID then multiset(Range(pg, pages)) else multiset{}
    case Sub(root) => if subs then PagesOf(root, false) else multiset{}
  }

  lemma NodePagesNext(nodes: seq<Node>, i: nat, subs: bool)
    requires i < |nodes|
    ensures NodePages(nodes[..i + 1], subs) == NodePages(nodes[..i], subs) + OnePages(nodes[i], subs)
  {
    assert nodes[..i + 1][..i] == nodes[..i];
  }

  lemma {:induction false} PagesCat(a: seq<Tree>, b: seq<Tree>, subs: bool)
    ensures PagesAll(a + b, subs) == PagesAll(a, subs) + PagesAll(b, subs)
    decreases |b|
  {
    if |b| == 0 {
      assert a + b == a;
    } else {
      PagesCat(a, b[..|b| - 1], subs);
      assert (a + b)[..|a + b| - 1] == a + b[..|b| - 1];
    }
  }

  // ---------------------------------------------------------------- levels

  function KidsOf(t: Tree): seq<Tree> { if t.Branch? then t.kids else [] }

  /** The children of the pages of s, from left to right. */
  function Kids(s: seq<Tree>): seq<Tree> {
    if |s| == 0 then [] else Kids(s[..|s| - 1]) + KidsOf(s[|s| - 1])
  }

  /** The pages k levels below t. */
  function Level(t: Tree, k: nat): seq<Tree> {
    if k == 0 then [t] else Kids(Level(t, k - 1))
  }

  ghost predicate AllShape(s: seq<Tree>, d: nat, l2: bool) { forall i :: 0 <= i < |s| ==> Shape(s[i], d, l2) }

  lemma {:induction false} KidsShape(s: seq<Tree>, d: nat, l2: bool)
    requires AllShape(s, d, l2) && d > 0
    ensures AllShape(Kids(s), d - 1, l2)
  {
    if |s| > 0 { KidsShape(s[..|s| - 1], d, l2); }
  }

  lemma {:induction false} LevelShape(t: Tree, d: nat, l2: bool, k: nat)
    requires Shape(t, d, l2) && k <= d
    ensures AllShape(Level(t, k), d - k, l2)
    decreases k
  {
    if k > 0 {
      LevelShape(t, d, l2, k - 1);
      KidsShape(Level(t, k - 1), d - k + 1, l2);
    }
  }

  function Pgnos(s: seq<Tree>): seq<Id> { seq(|s|, i requires 0 <= i < |s| => s[i].pgno) }

  /** What handling one page frees: the overflow pages and sub-DBs of a leaf, the children of a branch page. */
  function FreedBy(t: Tree, subs: bool): multiset<Id> {
    if t.Leaf? then NodePages(t.nodes, subs) else multiset(Pgnos(t.kids))
  }

  function FreedAll(s: seq<Tree>, subs: bool): multiset<Id> {
    if |s| == 0 then multiset{} else FreedAll(s[..|s| - 1], subs) + FreedBy(s[|s| - 1], subs)
  }

  /** What handling levels k to d frees. */
  function Below(t: Tree, subs: bool, k: nat, d: nat): multiset<Id>
    decreases d + 1 - k
  {
    if k > d then multiset{} else Below(t, subs, k + 1, d) + FreedAll(Level(t, k), subs)
  }

  /** Handling a row of branch pages frees the pages of the next row. */
  lemma {:induction false} FreedKids(s: seq<Tree>, subs: bool, d: nat, l2: bool)
    requires AllShape(s, d, l2) && d > 0
    ensures FreedAll(s, subs) == multiset(Pgnos(Kids(s)))
    ensures PagesAll(s, subs) == multiset(Pgnos(s)) + PagesAll(Kids(s), subs)
  {
    if |s| > 0 {
      var n := |s| - 1;
      FreedKids(s[..n], subs, d, l2);
      PagesCat(Kids(s[..n]), s[n].kids, subs);
      PgnosCat(Kids(s[..n]), s[n].kids);
      PgnosLast(s);
    }
  }

  lemma PgnosCat(a: seq<Tree>, b: seq<Tree>)
    ensures multiset(Pgnos(a + b)) == multiset(Pgnos(a)) + multiset(Pgnos(b))
  {
    assert Pgnos(a + b) == Pgnos(a) + Pgnos(b);
  }

  lemma PgnosLast(s: seq<Tree>)
    requires |s| > 0
    ensures multiset(Pgnos(s)) == multiset(Pgnos(s[..|s| - 1])) + multiset{s[|s| - 1].pgno}
  {
    assert Pgnos(s) == Pgnos(s[..|s| - 1]) + [s[|s| - 1].pgno];
  }

  lemma {:induction false} FreedLeaves(s: seq<Tree>, subs: bool, l2: bool)
    requires AllShape(s, 0, l2)
    ensures PagesAll(s, subs) == multiset(Pgnos(s)) + FreedAll(s, subs)
  {
    if |s| > 0 {
      FreedLeaves(s[..|s| - 1], subs, l2);
      PgnosLast(s);
    }
  }

  /** All pages from level k down: those of level k themselves, and what handling the levels frees. */
  lemma {:induction false} LevelsFree(t: Tree, d: nat, l2: bool, subs: bool, k: nat)
    requires Shape(t, d, l2) && k <= d
    ensures PagesAll(Level(t, k), subs) == multiset(Pgnos(Level(t, k))) + Below(t, subs, k, d)
    decreases d - k
  {
    var row, next := Level(t, k), Level(t, k + 1);
    RowSplit(t, d, l2, subs, k);
    BelowStep(t, subs, k, d);
    if k < d {
      LevelsFree(t, d, l2, subs, k + 1);
      Regroup(PagesAll(row, subs), multiset(Pgnos(row)), PagesAll(next, subs), FreedAll(row, subs), Below(t, subs, k + 1, d));
    }
  }

  lemma RowSplit(t: Tree, d: nat, l2: bool, subs: bool, k: nat)
    requires Shape(t, d, l2) && k <= d
    ensures k < d ==> PagesAll(Level(t, k), subs) == multiset(Pgnos(Level(t, k))) + PagesAll(Level(t, k + 1), subs)
    ensures k < d ==> FreedAll(Level(t, k), subs) == multiset(Pgnos(Level(t, k + 1)))
    ensures k == d ==> PagesAll(Level(t, k), subs) == multiset(Pgnos(Level(t, k))) + FreedAll(Level(t, k), subs)
  {
    LevelShape(t, d, l2, k);
    if k < d { FreedKids(Level(t, k), subs, d - k, l2); } else { FreedLeaves(Level(t, k), subs, l2); }
  }

  lemma BelowStep(t: Tree, subs: bool, k: nat, d: nat)
    requires k <= d
    ensures Below(t, subs, k, d) == Below(t, subs, k + 1, d) + FreedAll(Level(t, k), subs)
    ensures k == d ==> Below(t, subs, k + 1, d) == multiset{}
  {
  }

  lemma Regroup(all: multiset<Id>, row: multiset<Id>, kids: multiset<Id>, freed: multiset<Id>, below: multiset<Id>)
    requires all == row + kids && kids == freed + below
    ensures all == row + (below + freed)
  {
  }

  /** Handling all levels and the root frees every page of the tree once. */
  lemma AllFreed(t: Tree, d: nat, l2: bool, subs: bool)
    requires Shape(t, d, l2)
    ensures Below(t, subs, 0, d) + multiset{t.pgno} == PagesOf(t, subs)
  {
    LevelsFree(t, d, l2, subs, 0);
    assert [t][..0] == [] && Pgnos([t]) == [t.pgno] && Level(t, 0) == [t];
    assert PagesAll([t], subs) == PagesOf(t, subs);
  }

  // ---------------------------------------------------------------- the cursor

  /** One entry of the cursor's stack. */
  datatype Entry = Entry(page: Tree, ki: nat)

  ghost predicate Down(path: seq<Entry>, i: nat)
    requires i + 1 < |path|
  {
    path[i].page.Branch? && path[i].ki < |path[i].page.kids| && path[i + 1].page == path[i].page.kids[path[i].ki]
  }

  /** A stack of pages from t down. */
  ghost predicate Linked(t: Tree, path: seq<Entry>) {
    |path| >= 1 && path[0].page == t && forall i {:trigger Down(path, i)} :: 0 <= i < |path| - 1 ==> Down(path, i)
  }

  function Top(path: seq<Entry>): Tree
    requires |path| >= 1
  {
    path[|path| - 1].page
  }

  function Up(path: seq<Entry>): seq<Entry>
    requires |path| >= 1
  {
    path[..|path| - 1]
  }

  /** The pages of the stack's level to the left of its last page. */
  ghost function Ahead(path: seq<Entry>): seq<Tree> {
    if |path| < 2 then [] else
      var p := path[|path| - 2];
      Kids(Ahead(Up(path))) + if p.ki <= |KidsOf(p.page)| then KidsOf(p.page)[..p.ki] else []
  }

  /** mdb_cursor_sibling to the right: the stack of the next page of the level, empty when there is none. */
  function NextPath(path: seq<Entry>): seq<Entry> {
    if |path| < 2 then [] else
      var up := Up(path);
      var p := up[|up| - 1];
      if p.ki + 1 < |KidsOf(p.page)| then Up(up) + [Entry(p.page, p.ki + 1), Entry(KidsOf(p.page)[p.ki + 1], 0)]
      else
        var q := NextPath(up);
        if |q| > 0 && |KidsOf(Top(q))| > 0 then q + [Entry(KidsOf(Top(q))[0], 0)] else []
  }

  lemma LinkedUp(t: Tree, path: seq<Entry>)
    requires Linked(t, path) && |path| > 1
    ensures Linked(t, Up(path)) && Down(path, |path| - 2)
  {
    var up := Up(path);
    assert Down(path, |path| - 2);
    forall i | 0 <= i < |up| - 1 ensures Down(up, i) {
      assert Down(path, i);
    }
  }

  lemma LinkedSnoc(t: Tree, path: seq<Entry>, ki: nat)
    requires Linked(t, path) && ki < |KidsOf(Top(path))|
    ensures Linked(t, Up(path) + [Entry(Top(path), ki), Entry(KidsOf(Top(path))[ki], 0)])
  {
    var p := Up(path) + [Entry(Top(path), ki), Entry(KidsOf(Top(path))[ki], 0)];
    forall i | 0 <= i < |p| - 1 ensures Down(p, i) {
      if i < |path| - 1 { assert Down(path, i); }
    }
  }

  lemma {:induction false} PageShape(t: Tree, path: seq<Entry>, d: nat, l2: bool)
    requires Shape(t, d, l2) && Linked(t, path)
    ensures |path| <= d + 1 && Shape(Top(path), d + 1 - |path|, l2)
    decreases |path|
  {
    if |path| > 1 {
      LinkedUp(t, path);
      PageShape(t, Up(path), d, l2);
    }
  }

  lemma KidsSnoc(s: seq<Tree>, x: Tree)
    ensures Kids(s + [x]) == Kids(s) + KidsOf(x)
  {
    assert (s + [x])[..|s|] == s;
  }

  /** The level up to and including the last page, seen from the level above. */
  lemma UpTo(t: Tree, path: seq<Entry>)
    requires Linked(t, path) && |path| > 1
    ensures var p := path[|path| - 2];
      p.ki < |KidsOf(p.page)| && Ahead(path) + [Top(path)] == Kids(Ahead(Up(path))) + KidsOf(p.page)[..p.ki + 1]
  {
    LinkedUp(t, path);
    var p := path[|path| - 2];
    assert KidsOf(p.page)[..p.ki + 1] == KidsOf(p.page)[..p.ki] + [KidsOf(p.page)[p.ki]];
  }

  /** The next page is the next one of the level; without one, the level is complete. */
  ghost predicate Continues(t: Tree, path: seq<Entry>, q: seq<Entry>)
    requires |path| >= 1
  {
    if q == [] then Ahead(path) + [Top(path)] == Level(t, |path| - 1)
    else |q| == |path| && Linked(t, q) && q[|q| - 1].ki == 0 && Ahead(q) == Ahead(path) + [Top(path)]
  }

  lemma {:induction false} NextMeaning(t: Tree, path: seq<Entry>, d: nat, l2: bool)
    requires Shape(t, d, l2) && Linked(t, path)
    ensures Continues(t, path, NextPath(path))
    decreases |path|
  {
    if |path| > 1 {
      var up := Up(path);
      var p := up[|up| - 1];
      UpTo(t, path);
      LinkedUp(t, path);
      if p.ki + 1 < |KidsOf(p.page)| {
        NextInParent(t, path, up, p);
      } else {
        NextMeaning(t, up, d, l2);
        NextAtEnd(t, path, up, NextPath(up), d, l2);
      }
    }
  }

  lemma RowDone(t: Tree, path: seq<Entry>, up: seq<Entry>)
    requires Linked(t, path) && |path| > 1 && up == Up(path) && up[|up| - 1].ki + 1 >= |KidsOf(Top(up))|
    ensures Ahead(path) + [Top(path)] == Kids(Ahead(up) + [Top(up)])
  {
    var p := up[|up| - 1];
    UpTo(t, path);
    assert KidsOf(p.page)[..p.ki + 1] == KidsOf(p.page);
    KidsSnoc(Ahead(up), p.page);
  }

  lemma NextAtEnd(t: Tree, path: seq<Entry>, up: seq<Entry>, q: seq<Entry>, d: nat, l2: bool)
    requires Shape(t, d, l2) && Linked(t, path) && |path| > 1 && up == Up(path) && q == NextPath(up) && Continues(t, up, q)
    requires up[|up| - 1].ki + 1 >= |KidsOf(Top(up))|
    ensures Continues(t, path, NextPath(path))
  {
    RowDone(t, path, up);
    if q != [] { NextInCousin(t, path, q, d, l2); }
  }

  lemma NextInParent(t: Tree, path: seq<Entry>, up: seq<Entry>, p: Entry)
    requires Linked(t, path) && |path| > 1 && up == Up(path) && Linked(t, up) && p == up[|up| - 1]
    requires p.ki + 1 < |KidsOf(p.page)|
    ensures Continues(t, path, Up(up) + [Entry(p.page, p.ki + 1), Entry(KidsOf(p.page)[p.ki + 1], 0)])
  {
    var v := Up(up) + [Entry(p.page, p.ki + 1)];
    var q := Up(up) + [Entry(p.page, p.ki + 1), Entry(KidsOf(p.page)[p.ki + 1], 0)];
    LinkedSnoc(t, up, p.ki + 1);
    UpTo(t, path);
    UpOf(Up(up), Entry(p.page, p.ki + 1), Entry(KidsOf(p.page)[p.ki + 1], 0));
    SameAhead(v, up);
  }

  lemma UpOf(u: seq<Entry>, a: Entry, b: Entry)
    ensures Up(u + [a, b]) == u + [a] && Up(u + [a]) == u
  {
  }

  lemma SameAhead(v: seq<Entry>, w: seq<Entry>)
    requires |v| == |w| > 0 && Up(v) == Up(w)
    ensures Ahead(v) == Ahead(w)
  {
    assert |v| > 1 ==> v[|v| - 2] == Up(v)[|v| - 2] == Up(w)[|v| - 2] == w[|v| - 2];
  }

  lemma NextInCousin(t: Tree, path: seq<Entry>, q: seq<Entry>, d: nat, l2: bool)
    requires Shape(t, d, l2) && Linked(t, path) && |path| > 1 && Linked(t, q) && |q| == |path| - 1 && q[|q| - 1].ki == 0
    ensures |KidsOf(Top(q))| > 0
    ensures var r := q + [Entry(KidsOf(Top(q))[0], 0)]; Linked(t, r) && Ahead(r) == Kids(Ahead(q))
  {
    PageShape(t, path, d, l2);
    PageShape(t, q, d, l2);
    LinkedSnoc(t, q, 0);
    var r := q + [Entry(KidsOf(Top(q))[0], 0)];
    assert Up(q) + [Entry(Top(q), 0), Entry(KidsOf(Top(q))[0], 0)] == r;
    assert Up(r) == q && KidsOf(Top(q))[..0] == [];
  }

  // ---------------------------------------------------------------- mdb_drop0

  /** The stack all of whose indexes are 0. */
  ghost predicate Leftmost(path: seq<Entry>) { forall i :: 0 <= i < |path| ==> path[i].ki == 0 }

  lemma {:induction false} LeftmostAhead(path: seq<Entry>)
    requires Leftmost(path)
    ensures Ahead(path) == []
    decreases |path|
  {
    if |path| >= 2 {
      LeftmostAhead(Up(path));
      var p := path[|path| - 2];
      assert KidsOf(p.page)[..0] == [];
    }
  }

  /** mdb_page_search with MDB_PS_FIRST. */
  method FirstLeaf(root: Tree, ghost d: nat, ghost l2: bool) returns (path: seq<Entry>)
    requires Shape(root, d, l2)
    ensures Linked(root, path) && Leftmost(path) && |path| == d + 1
  {
    path := [Entry(root, 0)];
    while Top(path).Branch?
      invariant Linked(root, path) && Leftmost(path)
      decreases d + 1 - |path|
    {
      PageShape(root, path, d, l2);
      LinkedSnoc(root, path, 0);
      assert Up(path) + [Entry(Top(path), 0), Entry(KidsOf(Top(path))[0], 0)] == path + [Entry(KidsOf(Top(path))[0], 0)];
      path := path + [Entry(KidsOf(Top(path))[0], 0)];
      PageShape(root, path, d, l2);
    }
    PageShape(root, path, d, l2);
  }

  /** mdb_cursor_sibling, one page to the right; empty for MDB_NOTFOUND. */
  method Sibling(path: seq<Entry>) returns (q: seq<Entry>)
    ensures q == NextPath(path)
    decreases |path|
  {
    if |path| < 2 {
      return [];
    }
    var up := Up(path);
    var p := up[|up| - 1];
    if p.ki + 1 < |KidsOf(p.page)| {
      return Up(up) + [Entry(p.page, p.ki + 1), Entry(KidsOf(p.page)[p.ki + 1], 0)];
    }
    q := Sibling(up);
    if q != [] {
      q := if |KidsOf(Top(q))| > 0 then q + [Entry(KidsOf(Top(q))[0], 0)] else [];
    }
  }

  /** mdb.c:8244-8265: the overflow pages of a leaf, and its sub-DBs. */
  method FreeNodes(nodes: seq<Node>, subs: bool) returns (freed: seq<Id>)
    requires forall i :: 0 <= i < |nodes| ==> NodeOk(nodes[i])
    ensures multiset(freed) == NodePages(nodes, subs)
    decreases subs, 1
  {
    freed := [];
    var i := 0;
    while i < |nodes|
      invariant i <= |nodes| && multiset(freed) == NodePages(nodes[..i], subs)
    {
      NodePagesNext(nodes, i, subs);
      var more := FreeNode(nodes[i], subs);
      freed, i := freed + more, i + 1;
    }
    assert nodes[..i] == nodes;
  }

  method FreeNode(n: Node, subs: bool) returns (freed: seq<Id>)
    requires NodeOk(n)
    ensures multiset(freed) == OnePages(n, subs)
    decreases subs, 0
  {
    freed := [];
    match n {
      case Plain =>
      case Big(pg, pages) =>
        freed := Range(pg, pages);
      case Sub(root) =>
        if subs {
          freed := Drop0(root, false, Depth(root), Kind(root));
        }
    }
  }

  /** What one round of the loop frees (mdb.c:8241-8275). */
  method FreePage(mp: Tree, subs: bool, ghost d: nat, ghost l2: bool) returns (freed: seq<Id>)
    requires Shape(mp, d, l2)
    ensures multiset(freed) == FreedBy(mp, subs)
    decreases subs, 2
  {
    if mp.Leaf? {
      freed := FreeNodes(mp.nodes, subs);
    } else {
      freed := [];
      var i := 0;
      while i < |mp.kids|
        invariant i <= |mp.kids| && freed == Pgnos(mp.kids)[..i]
      {
        freed, i := freed + [mp.kids[i].pgno], i + 1;
      }
      assert freed == Pgnos(mp.kids);
    }
  }

  /** freed is what the levels below the stack's and the pages to the left on its own level give. */
  ghost predicate Swept(t: Tree, subs: bool, d: nat, path: seq<Entry>, freed: seq<Id>) {
    multiset(freed) == Below(t, subs, |path|, d) + FreedAll(Ahead(path), subs)
  }

  /** One page more is handled: the sweep goes on with the next page, or a level up at its first page. */
  lemma SweptNext(t: Tree, d: nat, l2: bool, subs: bool, path: seq<Entry>, freed: seq<Id>, more: seq<Id>)
    requires Shape(t, d, l2) && Linked(t, path) && |path| <= d + 1 && Swept(t, subs, d, path, freed)
    requires multiset(more) == FreedBy(Top(path), subs)
    ensures var q := NextPath(path);
      if q == [] then multiset(freed + more) == Below(t, subs, |path| - 1, d) else Swept(t, subs, d, q, freed + more)
  {
    NextMeaning(t, path, d, l2);
    var q := NextPath(path);
    FreedSnoc(Ahead(path), Top(path), subs);
    if q == [] { BelowStep(t, subs, |path| - 1, d); }
    AddOne(multiset(freed), multiset(more), multiset(freed + more), Below(t, subs, |path|, d), FreedAll(Ahead(path), subs));
  }

  lemma FreedSnoc(s: seq<Tree>, x: Tree, subs: bool)
    ensures FreedAll(s + [x], subs) == FreedAll(s, subs) + FreedBy(x, subs)
  {
    assert (s + [x])[..|s|] == s;
  }

  lemma AddOne(f: multiset<Id>, m: multiset<Id>, fm: multiset<Id>, below: multiset<Id>, ahead: multiset<Id>)
    requires f == below + ahead && fm == f + m
    ensures fm == below + (ahead + m)
  {
  }

  lemma {:induction false} KidsCat(a: seq<Tree>, b: seq<Tree>)
    ensures Kids(a + b) == Kids(a) + Kids(b)
    decreases |b|
  {
    if |b| == 0 {
      Regrouped(a, b);
    } else {
      var c, x := b[..|b| - 1], b[|b| - 1];
      KidsCat(a, c);
      KidsSnoc(a + c, x);
      Regrouped(a, b);
    }
  }

  lemma Regrouped<T>(a: seq<T>, b: seq<T>)
    ensures |b| == 0 ==> a + b == a
    ensures |b| > 0 ==> a + b == (a + b[..|b| - 1]) + [b[|b| - 1]]
  {
  }

  lemma {:induction false} AheadPrefix(t: Tree, path: seq<Entry>)
    requires Linked(t, path)
    ensures Ahead(path) + [Top(path)] <= Level(t, |path| - 1)
    decreases |path|
  {
    if |path| > 1 {
      var up := Up(path);
      UpTo(t, path);
      LinkedUp(t, path);
      AheadPrefix(t, up);
      PrefixKids(Ahead(up), Top(up), Level(t, |up| - 1), path[|path| - 2].ki + 1, Ahead(path) + [Top(path)]);
    }
  }

  lemma PrefixKids(a: seq<Tree>, x: Tree, row: seq<Tree>, n: nat, s: seq<Tree>)
    requires a + [x] <= row && n <= |KidsOf(x)| && s == Kids(a) + KidsOf(x)[..n]
    ensures s <= Kids(row)
  {
    var rest := row[|a| + 1..];
    assert row == a + [x] + rest;
    KidsCat(a + [x], rest);
    KidsSnoc(a, x);
  }

  lemma {:induction false} NothingOnLeaf2(s: seq<Tree>, subs: bool)
    requires AllShape(s, 0, true)
    ensures FreedAll(s, subs) == multiset{}
  {
    if |s| > 0 { NothingOnLeaf2(s[..|s| - 1], subs); }
  }

  /** The sweep may begin one level up when the leaves are LEAF2 pages. */
  lemma SweepStarts(t: Tree, d: nat, l2: bool, subs: bool, path: seq<Entry>)
    requires Shape(t, d, l2) && Leftmost(path) && (|path| == d + 1 || (l2 && |path| == d))
    ensures Swept(t, subs, d, path, [])
  {
    LeftmostAhead(path);
    LevelShape(t, d, l2, d);
    if |path| == d { NothingOnLeaf2(Level(t, d), subs); }
  }

  lemma LinkedTo(t: Tree, path: seq<Entry>, n: nat)
    requires Linked(t, path) && Leftmost(path) && 1 <= n <= |path|
    ensures Linked(t, path[..n]) && Leftmost(path[..n]) && Ahead(path[..n]) == []
  {
    var p := path[..n];
    forall i | 0 <= i < |p| - 1 ensures Down(p, i) {
      assert Down(path, i);
    }
    LeftmostAhead(p);
  }

  /** Where the sweep goes after a page: to the next one of the level, else to the first one of the level above. */
  function After(mx: seq<Entry>, path: seq<Entry>): seq<Entry>
    requires 1 <= |path| <= |mx|
  {
    if NextPath(path) != [] then NextPath(path) else mx[..|path| - 1]
  }

  /** How many pages of the stack's level are still to come. */
  ghost function Left(t: Tree, path: seq<Entry>): int { if path == [] then 0 else |Level(t, |path| - 1)| - |Ahead(path)| }

  lemma LeftLess(t: Tree, path: seq<Entry>, q: seq<Entry>)
    requires Linked(t, path) && |q| == |path| && |Ahead(q)| > |Ahead(path)|
    ensures Left(t, path) >= 0 && Left(t, q) < Left(t, path)
  {
    AheadPrefix(t, path);
  }

  lemma AfterOk(t: Tree, d: nat, l2: bool, subs: bool, mx: seq<Entry>, path: seq<Entry>, freed: seq<Id>, more: seq<Id>)
    requires Shape(t, d, l2) && Linked(t, mx) && Leftmost(mx) && Linked(t, path) && |path| <= |mx| && |path| <= d + 1
    requires Swept(t, subs, d, path, freed) && multiset(more) == FreedBy(Top(path), subs)
    ensures var q := After(mx, path);
      && |q| <= |path| && Swept(t, subs, d, q, freed + more) && (q != [] ==> Linked(t, q))
      && (|q| == |path| ==> |Ahead(q)| > |Ahead(path)|)
  {
    SweptNext(t, d, l2, subs, path, freed, more);
    NextMeaning(t, path, d, l2);
    if NextPath(path) == [] {
      if |path| > 1 { LinkedTo(t, mx, |path| - 1); }
      assert Ahead(mx[..|path| - 1]) == [];
      assert FreedAll([], subs) == multiset{};
    }
  }

  /** One round of the loop at mdb.c:8240-8291; path is empty after the root. */
  method Round(root: Tree, subs: bool, mx: seq<Entry>, path0: seq<Entry>, freed0: seq<Id>, ghost d: nat, ghost l2: bool)
    returns (path: seq<Entry>, freed: seq<Id>)
    requires Shape(root, d, l2) && Linked(root, mx) && Leftmost(mx)
    requires Linked(root, path0) && |path0| <= |mx| && |path0| <= d + 1 && Swept(root, subs, d, path0, freed0)
    ensures Swept(root, subs, d, path, freed) && (path != [] ==> Linked(root, path))
    ensures |path| < |path0| || (|path| == |path0| && 0 <= Left(root, path0) && Left(root, path) < Left(root, path0))
    decreases subs, 4
  {
    var more := FreeTop(root, subs, path0, d, l2);
    freed := freed0 + more;
    path := Advance(mx, path0);
    AfterOk(root, d, l2, subs, mx, path0, freed0, more);
    if |path| == |path0| { LeftLess(root, path0, path); }
  }

  method FreeTop(root: Tree, subs: bool, path: seq<Entry>, ghost d: nat, ghost l2: bool) returns (freed: seq<Id>)
    requires Shape(root, d, l2) && Linked(root, path)
    ensures multiset(freed) == FreedBy(Top(path), subs)
    decreases subs, 3
  {
    PageShape(root, path, d, l2);
    freed := FreePage(Top(path), subs, d + 1 - |path|, l2);
  }

  /** mdb.c:8276-8290 */
  method Advance(mx: seq<Entry>, path0: seq<Entry>) returns (path: seq<Entry>)
    requires 1 <= |path0| <= |mx|
    ensures path == After(mx, path0)
  {
    if |path0| == 1 {
      return [];
    }
    path := Sibling(path0);
    if path == [] {
      path := mx[..|path0| - 1];
    }
  }

  /** mdb.c:8228-8239: the first leaf, or its parent when leaves have no nodes. */
  method StartPath(root: Tree, ghost d: nat, ghost l2: bool) returns (path: seq<Entry>)
    requires Shape(root, d, l2)
    ensures Leftmost(path) && (|path| == d + 1 || (l2 && |path| == d)) && (path != [] ==> Linked(root, path))
  {
    path := FirstLeaf(root, d, l2);
    PageShape(root, path, d, l2);
    if Top(path).Leaf? && Top(path).leaf2 {
      if d > 0 { LinkedUp(root, path); }
      path := Up(path);
    }
  }

  /** The loop at mdb.c:8240-8291. */
  method Sweep(root: Tree, subs: bool, mx: seq<Entry>, ghost d: nat, ghost l2: bool) returns (freed: seq<Id>)
    requires Shape(root, d, l2) && Leftmost(mx) && |mx| <= d + 1 && (mx != [] ==> Linked(root, mx))
    requires Swept(root, subs, d, mx, [])
    ensures Swept(root, subs, d, [], freed)
    decreases subs, 5
  {
    freed := [];
    var path := mx;
    while |path| > 0
      invariant |path| <= |mx| && Swept(root, subs, d, path, freed)
      invariant path != [] ==> Linked(root, path)
      decreases |path|, Left(root, path)
    {
      path, freed := Round(root, subs, mx, path, freed, d, l2);
    }
  }

  /** mdb_drop0: what it adds to mt_free_pgs. */
  method Drop0(root: Tree, subs: bool, ghost d: nat, ghost l2: bool) returns (freed: seq<Id>)
    requires Shape(root, d, l2)
    ensures multiset(freed) == PagesOf(root, subs)
    decreases subs, 6
  {
    var path := StartPath(root, d, l2);
    SweepStarts(root, d, l2, subs, path);
    freed := Sweep(root, subs, path, d, l2);
    freed := freed + [root.pgno];
    AllFreed(root, d, l2, subs);
  }
}
