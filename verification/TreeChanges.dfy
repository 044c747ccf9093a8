/** The page operations of the B+tree are changes of trees that the page-lifetime protocol allows. */
module TreeChanges {
  import opened Mvcc

  /** Each link afterwards was there before, or leads to a new page, and comes to a page whose children lie lower. */
  ghost predicate FromOld(pages: map<Pgno, Page>, height: map<Pgno, nat>, c: TreeChange) {
    && c.edits.Keys <= (height + c.height).Keys
    && forall q, p {:trigger Parent(c.edits, q, p)} :: Parent(c.edits, q, p) ==>
      p !in c.roots && p in height + c.height && (height + c.height)[p] < (height + c.height)[q]
  }

  ghost predicate NoneTwice(c: TreeChange) {
    forall q, r, p {:trigger Parent(c.edits, q, p), Parent(c.edits, r, p)} :: Parent(c.edits, q, p) && Parent(c.edits, r, p) ==> q == r
  }

  ghost predicate SameLinks(roots: set<Pgno>, pages: map<Pgno, Page>, c: TreeChange) {
    var before := roots + LinksOf(pages, c.edits.Keys + c.Gone());
    c.Gone() <= before && c.roots + LinksOf(c.edits, c.edits.Keys) == before - c.Gone() + c.New()
  }

  lemma Keeps(roots: set<Pgno>, pages: map<Pgno, Page>, height: map<Pgno, nat>, c: TreeChange)
    requires FromOld(pages, height, c) && NoneTwice(c) && SameLinks(roots, pages, c)
    ensures KeepsLinks(roots, pages, height, c)
  {
  }

  /** Two different pages have no child in common, and no root is a child. */
  lemma Known(roots: set<Pgno>, pages: map<Pgno, Page>, height: map<Pgno, nat>, q: Pgno, p: Pgno)
    requires Forest(roots, pages, height) && q in pages && p in pages[q].kids
    ensures p in pages && p !in roots && height[p] < height[q] && forall r :: r in pages && p in pages[r].kids ==> r == q
  {
    assert Parent(pages, q, p);
    forall r | r in pages && p in pages[r].kids ensures r == q { assert Parent(pages, r, p); }
  }

  lemma Links2(pages: map<Pgno, Page>, ps: set<Pgno>, p: Pgno, q: Pgno)
    requires ps * pages.Keys == {p, q}
    ensures LinksOf(pages, ps) == pages[p].kids + pages[q].kids
  {
    assert p in ps * pages.Keys && q in ps * pages.Keys;
    forall k ensures k in LinksOf(pages, ps) <==> k in pages[p].kids + pages[q].kids {
      if k in LinksOf(pages, ps) {
        var r :| r in ps && r in pages && k in pages[r].kids;
        assert r in ps * pages.Keys;
      }
    }
  }

  lemma Links3(pages: map<Pgno, Page>, ps: set<Pgno>, p: Pgno, q: Pgno, r: Pgno)
    requires ps * pages.Keys == {p, q, r}
    ensures LinksOf(pages, ps) == pages[p].kids + pages[q].kids + pages[r].kids
  {
    assert p in ps * pages.Keys && q in ps * pages.Keys && r in ps * pages.Keys;
    forall k ensures k in LinksOf(pages, ps) <==> k in pages[p].kids + pages[q].kids + pages[r].kids {
      if k in LinksOf(pages, ps) {
        var x :| x in ps && x in pages && k in pages[x].kids;
        assert x in ps * pages.Keys;
      }
    }
  }

  // ---------------------------------------------------------------- splitting

  /** mdb_page_split: some children of page p, with their nodes, go to the new page q, which enters p's parent a. */
  function Split(pages: map<Pgno, Page>, height: map<Pgno, nat>, roots: set<Pgno>, a: Pgno, p: Pgno, q: Pgno,
                 moved: set<Pgno>, ca: int, cp: int, cq: int): TreeChange
    requires a in pages && p in pages && p in height
  {
    TreeChange(map[a := Page(pages[a].kids + {q}, ca), p := Page(pages[p].kids - moved, cp), q := Page(moved, cq)],
               map[q := height[p]], roots, {}, {})
  }

  lemma SplitKeeps(roots: set<Pgno>, pages: map<Pgno, Page>, height: map<Pgno, nat>, a: Pgno, p: Pgno, q: Pgno,
                   moved: set<Pgno>, ca: int, cp: int, cq: int)
    requires Forest(roots, pages, height) && Parent(pages, a, p) && p in pages && q !in pages && moved <= pages[p].kids
    ensures KeepsLinks(roots, pages, height, Split(pages, height, roots, a, p, q, moved, ca, cp, cq))
  {
    var c := Split(pages, height, roots, a, p, q, moved, ca, cp, cq);
    Known(roots, pages, height, a, p);
    SplitLinks(roots, pages, c, a, p, q, moved);
    forall x, k | Parent(c.edits, x, k) ensures SplitLink(roots, pages, height, a, p, q, moved, x, k) {
      var y := if x == a then a else p;
      if k in pages[y].kids { Known(roots, pages, height, y, k); }
    }
    Keeps(roots, pages, height, c);
  }

  /** What link k of page x was. */
  ghost predicate SplitLink(roots: set<Pgno>, pages: map<Pgno, Page>, height: map<Pgno, nat>, a: Pgno, p: Pgno, q: Pgno,
                            moved: set<Pgno>, x: Pgno, k: Pgno) {
    if k == q then x == a else
      && k in pages && k in height && k !in roots
      && if x == a then Parent(pages, a, k) && a in height && height[k] < height[a] && !Parent(pages, p, k)
         else Parent(pages, p, k) && p in height && height[k] < height[p] && !Parent(pages, a, k) && x == if k in moved then q else p
  }

  lemma SplitLinks(roots: set<Pgno>, pages: map<Pgno, Page>, c: TreeChange, a: Pgno, p: Pgno, q: Pgno, moved: set<Pgno>)
    requires a != p && a in pages && p in pages && q !in pages && moved <= pages[p].kids
    requires c.edits.Keys == {a, p, q} && c.Gone() == {} && c.New() == {q} && c.roots == roots
    requires c.edits[a].kids == pages[a].kids + {q} && c.edits[p].kids == pages[p].kids - moved && c.edits[q].kids == moved
    ensures SameLinks(roots, pages, c)
  {
    Links2(pages, c.edits.Keys + c.Gone(), a, p);
    Links3(c.edits, c.edits.Keys, a, p, q);
  }

  /** The split of a root p: the new root r has p and the new page q. */
  function Grow(pages: map<Pgno, Page>, height: map<Pgno, nat>, roots: set<Pgno>, p: Pgno, q: Pgno, r: Pgno,
                moved: set<Pgno>, cp: int, cq: int, cr: int): TreeChange
    requires p in pages && p in height
  {
    TreeChange(map[p := Page(pages[p].kids - moved, cp), q := Page(moved, cq), r := Page({p, q}, cr)],
               map[q := height[p], r := height[p] + 1], roots - {p} + {r}, {}, {})
  }

  lemma GrowKeeps(roots: set<Pgno>, pages: map<Pgno, Page>, height: map<Pgno, nat>, p: Pgno, q: Pgno, r: Pgno,
                  moved: set<Pgno>, cp: int, cq: int, cr: int)
    requires Forest(roots, pages, height) && p in roots && q !in pages && r !in pages && q != r && moved <= pages[p].kids
    ensures KeepsLinks(roots, pages, height, Grow(pages, height, roots, p, q, r, moved, cp, cq, cr))
  {
    var c := Grow(pages, height, roots, p, q, r, moved, cp, cq, cr);
    assert !Parent(pages, p, p);
    GrowLinks(roots, pages, c, p, q, r, moved);
    forall x, k | Parent(c.edits, x, k) ensures
      if x == r then k == p || k == q
      else k in pages && k in height && k !in roots && height[k] < height[p] && Parent(pages, p, k) && x == if k in moved then q else p
    {
      if k in pages[p].kids { Known(roots, pages, height, p, k); }
    }
    Keeps(roots, pages, height, c);
  }

  lemma GrowLinks(roots: set<Pgno>, pages: map<Pgno, Page>, c: TreeChange, p: Pgno, q: Pgno, r: Pgno, moved: set<Pgno>)
    requires p in pages && p in roots && q !in pages && r !in pages && q != r && moved <= pages[p].kids
    requires c.edits.Keys == {p, q, r} && c.Gone() == {} && c.New() == {q, r} && c.roots == roots - {p} + {r}
    requires c.edits[p].kids == pages[p].kids - moved && c.edits[q].kids == moved && c.edits[r].kids == {p, q}
    requires p !in pages[p].kids && roots <= pages.Keys
    ensures SameLinks(roots, pages, c)
  {
    Links2(pages, c.edits.Keys + c.Gone(), p, p);
    Links3(c.edits, c.edits.Keys, p, q, r);
  }

  // ---------------------------------------------------------------- moving and merging

  /** mdb_node_move between pages of one level: child x of p goes to q. */
  function Move(pages: map<Pgno, Page>, roots: set<Pgno>, p: Pgno, q: Pgno, x: Pgno, cp: int, cq: int): TreeChange
    requires p in pages && q in pages
  {
    TreeChange(map[p := Page(pages[p].kids - {x}, cp), q := Page(pages[q].kids + {x}, cq)], map[], roots, {}, {})
  }

  lemma MoveKeeps(roots: set<Pgno>, pages: map<Pgno, Page>, height: map<Pgno, nat>, p: Pgno, q: Pgno, x: Pgno, cp: int, cq: int)
    requires Forest(roots, pages, height) && p in pages && q in pages && p != q && x in pages[p].kids && height[p] == height[q]
    ensures KeepsLinks(roots, pages, height, Move(pages, roots, p, q, x, cp, cq))
  {
    var c := Move(pages, roots, p, q, x, cp, cq);
    MoveLinks(roots, pages, c, p, q, x);
    forall y, k | Parent(c.edits, y, k) ensures
      && k in pages && k in height && k !in roots && height[k] < height[p]
      && if y == p then Parent(pages, p, k) && k != x && !Parent(pages, q, k)
         else y == q && (k == x || (Parent(pages, q, k) && !Parent(pages, p, k)))
    {
      if k in pages[p].kids { Known(roots, pages, height, p, k); }
      if k in pages[q].kids { Known(roots, pages, height, q, k); }
    }
    Keeps(roots, pages, height, c);
  }

  lemma MoveLinks(roots: set<Pgno>, pages: map<Pgno, Page>, c: TreeChange, p: Pgno, q: Pgno, x: Pgno)
    requires p in pages && q in pages && p != q && x in pages[p].kids
    requires c.edits.Keys == {p, q} && c.Gone() == {} && c.New() == {} && c.roots == roots
    requires c.edits[p].kids == pages[p].kids - {x} && c.edits[q].kids == pages[q].kids + {x}
    ensures SameLinks(roots, pages, c)
  {
    Links2(pages, c.edits.Keys + c.Gone(), p, q);
    Links2(c.edits, c.edits.Keys, p, q);
  }

  /** mdb_page_merge: the children of p go to its neighbour q, and p leaves the tree and their parent a. */
  function Merge(pages: map<Pgno, Page>, roots: set<Pgno>, a: Pgno, p: Pgno, q: Pgno, ca: int, cq: int): TreeChange
    requires a in pages && p in pages && q in pages
  {
    TreeChange(map[a := Page(pages[a].kids - {p}, ca), q := Page(pages[q].kids + pages[p].kids, cq)], map[], roots, {p}, {})
  }

  lemma MergeKeeps(roots: set<Pgno>, pages: map<Pgno, Page>, height: map<Pgno, nat>, a: Pgno, p: Pgno, q: Pgno, ca: int, cq: int)
    requires Forest(roots, pages, height) && Parent(pages, a, p) && Parent(pages, a, q) && p != q
    requires p in pages && q in pages && p in height && q in height && height[p] == height[q]
    ensures KeepsLinks(roots, pages, height, Merge(pages, roots, a, p, q, ca, cq))
  {
    var c := Merge(pages, roots, a, p, q, ca, cq);
    Known(roots, pages, height, a, p);
    Known(roots, pages, height, a, q);
    assert p !in pages[p].kids && p !in pages[q].kids;
    MergeLinks(roots, pages, c, a, p, q);
    forall y, k | Parent(c.edits, y, k) ensures
      && k in pages && k in height && k !in roots && a in height
      && if y == a then Parent(pages, a, k) && !Parent(pages, p, k) && !Parent(pages, q, k) && height[k] < height[a]
         else y == q && (Parent(pages, p, k) || Parent(pages, q, k)) && height[k] < height[q]
    {
      if k in pages[a].kids { Known(roots, pages, height, a, k); }
      if k in pages[p].kids { Known(roots, pages, height, p, k); }
      if k in pages[q].kids { Known(roots, pages, height, q, k); }
    }
    Keeps(roots, pages, height, c);
  }

  lemma MergeLinks(roots: set<Pgno>, pages: map<Pgno, Page>, c: TreeChange, a: Pgno, p: Pgno, q: Pgno)
    requires a in pages && p in pages && q in pages && a != p && a != q && p != q && p in pages[a].kids && p !in roots
    requires p !in pages[p].kids && p !in pages[q].kids
    requires c.edits.Keys == {a, q} && c.Gone() == {p} && c.New() == {} && c.roots == roots
    requires c.edits[a].kids == pages[a].kids - {p} && c.edits[q].kids == pages[q].kids + pages[p].kids
    ensures SameLinks(roots, pages, c)
  {
    Links3(pages, c.edits.Keys + c.Gone(), a, p, q);
    Links2(c.edits, c.edits.Keys, a, q);
  }

  /** A root p with one child: the child becomes the root (mdb.c:7301-7338). */
  function Collapse(roots: set<Pgno>, p: Pgno, q: Pgno): TreeChange {
    TreeChange(map[], map[], roots - {p} + {q}, {p}, {})
  }

  lemma CollapseKeeps(roots: set<Pgno>, pages: map<Pgno, Page>, height: map<Pgno, nat>, p: Pgno, q: Pgno)
    requires Forest(roots, pages, height) && p in roots && pages[p].kids == {q}
    ensures KeepsLinks(roots, pages, height, Collapse(roots, p, q))
  {
    var c := Collapse(roots, p, q);
    Known(roots, pages, height, p, q);
    assert c.edits.Keys + c.Gone() == {p} && c.New() == {};
    Links2(pages, {p}, p, p);
    assert LinksOf(c.edits, c.edits.Keys) == {};
    Keeps(roots, pages, height, c);
  }

  // ---------------------------------------------------------------- overflow pages, whole trees

  /** Leaf p gets a run qs of new overflow pages. */
  function Attach(pages: map<Pgno, Page>, roots: set<Pgno>, p: Pgno, qs: set<Pgno>, cp: int, data: int): TreeChange
    requires p in pages
  {
    TreeChange((map q | q in qs :: Page({}, data))[p := Page(pages[p].kids + qs, cp)], map q | q in qs :: 0, roots, {}, {})
  }

  lemma AttachKeeps(roots: set<Pgno>, pages: map<Pgno, Page>, height: map<Pgno, nat>, p: Pgno, qs: set<Pgno>, cp: int, data: int)
    requires Forest(roots, pages, height) && p in pages && qs !! pages.Keys && 0 < height[p]
    ensures KeepsLinks(roots, pages, height, Attach(pages, roots, p, qs, cp, data))
  {
    var c := Attach(pages, roots, p, qs, cp, data);
    assert c.edits.Keys == qs + {p} && c.New() == qs && c.Gone() == {};
    assert (c.edits.Keys + c.Gone()) * pages.Keys == {p};
    Links2(pages, c.edits.Keys + c.Gone(), p, p);
    assert LinksOf(c.edits, c.edits.Keys) == pages[p].kids + qs by {
      forall k | k in pages[p].kids + qs ensures k in LinksOf(c.edits, c.edits.Keys) { assert k in c.edits[p].kids; }
    }
    forall y, k | Parent(c.edits, y, k) ensures y == p && (k in qs || (k in pages && k in height && k !in roots && height[k] < height[p])) {
      if k in pages[p].kids { Known(roots, pages, height, p, k); }
    }
    Keeps(roots, pages, height, c);
  }

  /** mdb_ovpage_free: the run qs leaves leaf p, to mt_free_pgs or to me_pghead. */
  function Detach(pages: map<Pgno, Page>, roots: set<Pgno>, p: Pgno, qs: set<Pgno>, cp: int, own: bool): TreeChange
    requires p in pages
  {
    TreeChange(map[p := Page(pages[p].kids - qs, cp)], map[], roots, if own then {} else qs, if own then qs else {})
  }

  lemma DetachKeeps(roots: set<Pgno>, pages: map<Pgno, Page>, height: map<Pgno, nat>, p: Pgno, qs: set<Pgno>, cp: int, own: bool)
    requires Forest(roots, pages, height) && p in pages && qs <= pages[p].kids && forall q :: q in qs && q in pages ==> pages[q].kids == {}
    ensures KeepsLinks(roots, pages, height, Detach(pages, roots, p, qs, cp, own))
  {
    var c := Detach(pages, roots, p, qs, cp, own);
    assert c.Gone() == qs && c.New() == {} && c.edits.Keys == {p};
    forall k ensures k in LinksOf(pages, {p} + qs) <==> k in pages[p].kids {
    }
    assert c.edits.Keys + c.Gone() == {p} + qs;
    Links2(c.edits, c.edits.Keys, p, p);
    forall k | k in pages[p].kids ensures k in pages && k in height && k !in roots && height[k] < height[p] {
      Known(roots, pages, height, p, k);
    }
    Keeps(roots, pages, height, c);
  }

  /** The pages of the tree below root r. */
  ghost predicate WholeTree(pages: map<Pgno, Page>, r: Pgno, ps: set<Pgno>) {
    && r in ps && ps <= pages.Keys && (forall q, p {:trigger Parent(pages, q, p)} :: Parent(pages, q, p) && q in ps ==> p in ps)
    && forall p :: p in ps && p != r ==> exists q :: q in ps && Parent(pages, q, p)
  }

  /** mdb_drop0 of the tree below root r. */
  function Drop(roots: set<Pgno>, r: Pgno, ps: set<Pgno>): TreeChange { TreeChange(map[], map[], roots - {r}, ps, {}) }

  lemma DropKeeps(roots: set<Pgno>, pages: map<Pgno, Page>, height: map<Pgno, nat>, r: Pgno, ps: set<Pgno>)
    requires Forest(roots, pages, height) && r in roots && WholeTree(pages, r, ps)
    ensures KeepsLinks(roots, pages, height, Drop(roots, r, ps))
  {
    var c := Drop(roots, r, ps);
    assert c.Gone() == ps && c.New() == {} && c.edits.Keys + c.Gone() == ps && LinksOf(c.edits, c.edits.Keys) == {};
    forall k ensures k in LinksOf(pages, ps) <==> k in ps && k != r {
      if k in LinksOf(pages, ps) {
        var q :| q in ps && q in pages && k in pages[q].kids;
        assert Parent(pages, q, k);
      }
      if k in ps && k != r {
        var q :| q in ps && Parent(pages, q, k);
      }
    }
    assert forall k :: k in roots && k in ps ==> k == r;
    Keeps(roots, pages, height, c);
  }
}
