/** The writer's in-memory steps keep the invariant. */
module MvccWriter {
  import opened Mvcc
  import opened MvccInvariant

  /** A step of the active writer that touches only its own fields. */
  lemma WriterOnly(nometasync: bool, s: State, s': State)
    requires Inv(nometasync, s) && InStage(s, Active)
    requires s' == s.(w := s'.w) && (InStage(s', Active) || (InStage(s', Saved) && s.outer == []))
    requires WriterOk(s, Guarded(s), s'.w.value)
    ensures Inv(nometasync, s')
  {
    assert Guarded(s') == Guarded(s);
    assert InvShared(nometasync, s');
    SameOuter(s, s', Guarded(s));
    SameWriter(s, s', Guarded(s), s'.w.value);
  }

  lemma BeginWriter(s: State, s': State, g: map<Txnid, Version>)
    requires |s.metas| == 2 && BeginWriteStep(s, s') && InvGuard(s.mem, g, s.mti) && g[s.mti] == s.hist[s.mti]
    requires s.metas[s.mti % 2] == MetaOf(s.mti, s.hist[s.mti])
    ensures WriterOk(s', g, s'.w.value)
  {
    assert VersionOk(g[s.mti]);
    assert View(s.mem, s'.w.value) == g[s.mti].pages;
  }

  lemma BeginWriteInv(nometasync: bool, s: State, s': State)
    requires Inv(nometasync, s) && BeginWriteStep(s, s')
    ensures Inv(nometasync, s')
  {
    assert Guarded(s') == Guarded(s);
    BeginShared(nometasync, s, s');
    BeginWriter(s, s', Guarded(s));
  }

  lemma BeginShared(nometasync: bool, s: State, s': State)
    requires InvShared(nometasync, s) && BeginWriteStep(s, s')
    ensures InvShared(nometasync, s') && s.metas[s.mti % 2] == MetaOf(s.mti, s.hist[s.mti])
  {
    assert MetaOk(s.hist, s.safe, s.metas[s.mti % 2], s.mti % 2);
  }

  // ---------------------------------------------------------------- slot scan and reclaim

  lemma ScanWriter(s: State, g: map<Txnid, Version>, w: Writer, scan: Scan)
    requires WriterOk(s, g, w) && ScanOk(s.slots, s.mti, scan)
    ensures WriterOk(s, g, w.(scan := scan))
  {
    assert View(s.mem, w.(scan := scan)) == View(s.mem, w);
  }

  /** One slot more is taken into account. */
  lemma SlotScanned(s: State, s': State)
    requires ScanSlotStep(s, s') && SlotsOk(s.slots, s.hist, s.mti) && ScanOk(s.slots, s.mti, s.w.value.scan)
    ensures ScanOk(s.slots, s.mti, s'.w.value.scan)
  {
    var w := s.w.value;
    if w.scan.i != 0 { assert SlotOk(s.slots[w.scan.i - 1], s.hist, s.mti); }
  }

  lemma ScanStartInv(nometasync: bool, s: State, s': State)
    requires Inv(nometasync, s) && ScanStartStep(s, s')
    ensures Inv(nometasync, s')
  {
    ScanWriter(s, Guarded(s), s.w.value, s'.w.value.scan);
    WriterOnly(nometasync, s, s');
  }

  lemma ScanSlotInv(nometasync: bool, s: State, s': State)
    requires Inv(nometasync, s) && ScanSlotStep(s, s')
    ensures Inv(nometasync, s')
  {
    SlotScanned(s, s');
    ScanWriter(s, Guarded(s), s.w.value, s'.w.value.scan);
    WriterOnly(nometasync, s, s');
  }

  /** The inequalities at mdb.c:1686 and 1803/1812: a record older than the scan result is older than
      every live reader and no newer than the version of either meta page. */
  lemma OldestIsOld(s: State, oldest: Txnid, k: Txnid)
    requires SafeRange(s.safe, s.mti, false) && ScanOk(s.slots, s.mti, Scanned(oldest)) && k < oldest
    ensures forall v :: v in Guarded(s) ==> k <= v
    ensures forall v :: v in ReaderIds(s.slots) ==> k < v
  {
    forall v | v in ReaderIds(s.slots) ensures oldest <= v {
      var j :| 0 <= j < |s.slots| && s.slots[j].reader.Some? && s.slots[j].reader.value.txnid == v;
    }
    forall v | v in Guarded(s) ensures k <= v {
      assert v in s.safe || v in ReaderIds(s.slots);
    }
  }

  lemma RestAfter(db: map<Txnid, set<Pgno>>, pglast: Txnid, k: Txnid)
    requires k in db && pglast < k && DisjointRecords(db)
    requires forall j :: j in db && pglast < j ==> k <= j
    ensures Rest(db, pglast) == Rest(db, k) + db[k] && Rest(db, k) !! db[k]
  {
  }

  lemma ReclaimPartition(tree: set<Pgno>, freed: set<Pgno>, head: set<Pgno>, db: map<Txnid, set<Pgno>>,
                         pglast: Txnid, next: Pgno, k: Txnid)
    requires Partition(tree, freed, head, db, pglast, next) && k in db && pglast < k
    requires forall j :: j in db && pglast < j ==> k <= j
    ensures Partition(tree, freed, head + db[k], db, k, next)
  {
    RestAfter(db, pglast, k);
    var R, R' := Rest(db, pglast), Rest(db, k);
    assert tree + freed + (head + db[k]) + R' == tree + freed + head + R;
  }

  lemma ReclaimWriter(s: State, s': State, g: map<Txnid, Version>, k: Txnid)
    requires ReclaimStep(s, s', k) && WriterOk(s, g, s.w.value)
    requires forall v :: v in g ==> k <= v
    ensures WriterOk(s, g, s'.w.value)
  {
    var w, w' := s.w.value, s'.w.value;
    ReclaimPartition(w.tree, w.freed, w.head, w.freedb, w.pglast, w.next, k);
    assert Fresh(g, w'.own + w'.head);
  }

  lemma ReclaimInv(nometasync: bool, s: State, s': State, k: Txnid)
    requires Inv(nometasync, s) && ReclaimStep(s, s', k)
    ensures Inv(nometasync, s')
  {
    OldestIsOld(s, s.w.value.scan.oldest, k);
    ReclaimWriter(s, s', Guarded(s), k);
    WriterOnly(nometasync, s, s');
  }

  // ---------------------------------------------------------------- pages

  /** Taking pages for the tree keeps the partition. */
  lemma TakePartition(w: Writer, qs: set<Pgno>, next': Pgno)
    requires Partition(w.tree, w.freed, w.head, w.freedb, w.pglast, w.next) && CanTake(w, qs, next')
    requires 2 <= w.next
    ensures w.next <= next'
    ensures Partition(w.tree + qs, w.freed, w.head - qs, w.freedb, w.pglast, next')
    ensures forall q :: q in qs ==> 2 <= q < next'
    ensures qs !! w.tree && qs !! w.freed && qs !! Rest(w.freedb, w.pglast)
  {
    var R := Rest(w.freedb, w.pglast);
    var was, now := w.tree + w.freed + w.head + R, (w.tree + qs) + w.freed + (w.head - qs) + R;
    if qs <= w.head && next' == w.next {
      assert now == was;
    } else {
      assert qs !! was && w.head - qs == w.head && now == was + qs;
    }
    assert forall p :: p in qs ==> p in now;
  }

  lemma PagesBelow(v: Version)
    requires VersionOk(v)
    ensures forall p :: p in v.pages.Keys ==> 2 <= p < v.next
  {
    forall p | p in v.pages.Keys ensures 2 <= p < v.next {
      assert p in v.pages.Keys + {} + {} + Rest(v.freedb, 0);
    }
  }

  lemma TakeFresh(s: State, g: map<Txnid, Version>, w: Writer, qs: set<Pgno>, next': Pgno)
    requires WriterOk(s, g, w) && GuardOk(s.mem, g, s.mti) && CanTake(w, qs, next')
    ensures Fresh(g, qs) && 2 <= w.next
  {
    assert VersionOk(g[s.mti]);
    if !(qs <= w.head && next' == w.next) {
      forall v | v in g ensures qs !! g[v].pages.Keys {
        assert VersionOk(g[v]) && g[v].next <= w.next;
        PagesBelow(g[v]);
      }
    }
  }

  lemma MovePartition(tree: set<Pgno>, freed: set<Pgno>, head: set<Pgno>, db: map<Txnid, set<Pgno>>,
                      pglast: Txnid, next: Pgno, ps: set<Pgno>)
    requires Partition(tree, freed, head, db, pglast, next) && ps <= tree
    ensures Partition(tree - ps, freed + ps, head, db, pglast, next)
    ensures Partition(tree - ps, freed, head + ps, db, pglast, next)
  {
    var R := Rest(db, pglast);
    assert (tree - ps) + (freed + ps) + head + R == tree + freed + head + R;
    assert (tree - ps) + freed + (head + ps) + R == tree + freed + head + R;
  }

  lemma ChangePartition(w: Writer, c: TreeChange, next': Pgno)
    requires Partition(w.tree, w.freed, w.head, w.freedb, w.pglast, w.next) && 2 <= w.next
    requires CanTake(w, c.New(), next') && c.Gone() <= w.tree && c.freed !! c.back
    ensures var w' := Changed(w, c, next'); Partition(w'.tree, w'.freed, w'.head, w'.freedb, w'.pglast, w'.next)
    ensures w.next <= next' && c.New() !! w.tree && forall q :: q in c.New() ==> 2 <= q < next'
  {
    TakePartition(w, c.New(), next');
    MovePartition(w.tree + c.New(), w.freed, w.head - c.New(), w.freedb, w.pglast, next', c.freed);
    MovePartition(w.tree + c.New() - c.freed, w.freed + c.freed, w.head - c.New(), w.freedb, w.pglast, next', c.back);
    assert w.tree + c.New() - c.freed - c.back == w.tree - c.Gone() + c.New();
  }

  lemma ChangeOwn(s: State, g: map<Txnid, Version>, w: Writer, c: TreeChange, next': Pgno)
    requires OwnOk(s.mem, g, s.mti, w) && CanChange(w, c) && Fresh(g, c.New()) && c.New() !! w.tree
    requires w.next <= next' && forall q :: q in c.New() ==> q < next'
    ensures OwnOk(s.mem, g, s.mti, Changed(w, c, next'))
  {
    var w' := Changed(w, c, next');
    assert c.back <= w.own && c.New() !! c.back;
    assert Fresh(g, w'.own + w'.head);
    forall p | p in w'.own * w'.tree ensures p in w'.dirty.Keys + w'.spilled {
      if p !in c.New() { assert p in w.own * w.tree; }
    }
  }

  /** The trees after an operation that keeps the links. */
  lemma ChangeForest(roots: set<Pgno>, pages: map<Pgno, Page>, height: map<Pgno, nat>, c: TreeChange)
    requires Forest(roots, pages, height) && KeepsLinks(roots, pages, height, c)
    requires c.New() !! pages.Keys && c.New() <= c.edits.Keys <= pages.Keys + c.New() && c.edits.Keys !! c.Gone() && c.Gone() <= pages.Keys
    ensures Forest(c.roots, pages - c.Gone() + c.edits, height + c.height)
  {
    var after, h := pages - c.Gone() + c.edits, height + c.height;
    LinksIn(roots, pages, height, c);
    forall q, p | Parent(after, q, p) ensures p in after && p !in c.roots && h[p] < h[q] {
      if q in c.edits { assert Parent(c.edits, q, p); } else { Untouched(roots, pages, height, c, q, p); }
    }
    forall p | p in after ensures p in c.roots || exists q :: Parent(after, q, p) {
      HasParent(roots, pages, height, c, p);
    }
    forall q, r, p | Parent(after, q, p) && Parent(after, r, p) ensures q == r {
      OneParent(roots, pages, height, c, q, r, p);
    }
  }

  /** What the operation's pages point to afterwards is in the trees. */
  lemma LinksIn(roots: set<Pgno>, pages: map<Pgno, Page>, height: map<Pgno, nat>, c: TreeChange)
    requires Forest(roots, pages, height) && KeepsLinks(roots, pages, height, c) && c.New() <= c.edits.Keys
    ensures c.roots <= (pages - c.Gone() + c.edits).Keys <= (height + c.height).Keys + c.edits.Keys
    ensures forall q, p {:trigger Parent(c.edits, q, p)} :: Parent(c.edits, q, p) ==> p in pages - c.Gone() + c.edits
  {
    var before := roots + LinksOf(pages, c.edits.Keys + c.Gone());
    forall p | p in before ensures p in pages {
      if p !in roots {
        var q :| q in c.edits.Keys + c.Gone() && Parent(pages, q, p);
      }
    }
    forall q, p | Parent(c.edits, q, p) ensures p in pages - c.Gone() + c.edits {
      assert p in LinksOf(c.edits, c.edits.Keys);
    }
  }

  /** A link of a page that the operation does not look at. */
  lemma Untouched(roots: set<Pgno>, pages: map<Pgno, Page>, height: map<Pgno, nat>, c: TreeChange, q: Pgno, p: Pgno)
    requires Forest(roots, pages, height) && KeepsLinks(roots, pages, height, c) && c.New() !! pages.Keys
    requires q !in c.edits && q !in c.Gone() && Parent(pages, q, p)
    ensures p in pages && height[p] < height[q] && p !in c.Gone() && p !in c.roots && p !in LinksOf(c.edits, c.edits.Keys)
  {
    var before := roots + LinksOf(pages, c.edits.Keys + c.Gone());
    if p in before {
      var r :| r in c.edits.Keys + c.Gone() && Parent(pages, r, p);
    }
  }

  lemma HasParent(roots: set<Pgno>, pages: map<Pgno, Page>, height: map<Pgno, nat>, c: TreeChange, p: Pgno)
    requires Forest(roots, pages, height) && KeepsLinks(roots, pages, height, c)
    requires c.New() <= c.edits.Keys <= pages.Keys + c.New() && p in pages - c.Gone() + c.edits && c.edits.Keys !! c.Gone()
    ensures p in c.roots || exists q :: Parent(pages - c.Gone() + c.edits, q, p)
  {
    var after, before := pages - c.Gone() + c.edits, roots + LinksOf(pages, c.edits.Keys + c.Gone());
    if p in before || p in c.New() {
      if p !in c.roots {
        assert p in before - c.Gone() + c.New();
        assert p in c.roots + LinksOf(c.edits, c.edits.Keys);
        var q :| q in c.edits && p in c.edits[q].kids;
        assert Parent(after, q, p);
      }
    } else {
      var q :| Parent(pages, q, p);
      assert q !in c.edits.Keys + c.Gone();
      assert Parent(after, q, p);
    }
  }

  lemma OneParent(roots: set<Pgno>, pages: map<Pgno, Page>, height: map<Pgno, nat>, c: TreeChange, q: Pgno, r: Pgno, p: Pgno)
    requires Forest(roots, pages, height) && KeepsLinks(roots, pages, height, c) && c.New() !! pages.Keys
    requires var after := pages - c.Gone() + c.edits; Parent(after, q, p) && Parent(after, r, p)
    ensures q == r
  {
    if q in c.edits && r in c.edits {
      assert Parent(c.edits, q, p) && Parent(c.edits, r, p);
    } else if q !in c.edits && r !in c.edits {
      assert Parent(pages, q, p) && Parent(pages, r, p);
    } else if q in c.edits {
      Untouched(roots, pages, height, c, r, p);
    } else {
      Untouched(roots, pages, height, c, q, p);
    }
  }

  lemma ChangeView(mem: map<Pgno, Page>, w: Writer, c: TreeChange, next': Pgno)
    requires View(mem, w).Keys == w.tree && CanChange(w, c) && c.New() !! w.tree
    ensures View(mem, Changed(w, c, next')) == View(mem, w) - c.Gone() + c.edits
    ensures View(mem, Changed(w, c, next')).Keys == Changed(w, c, next').tree
  {
    var w' := Changed(w, c, next');
    var after := View(mem, w) - c.Gone() + c.edits;
    forall p ensures (p in after <==> p in w'.tree) && (p in w'.tree ==> p in View(mem, w') && View(mem, w')[p] == after[p]) {
      ChangeViewAt(mem, w, c, next', p);
    }
    assert View(mem, w').Keys == w'.tree;
  }

  lemma ChangeViewAt(mem: map<Pgno, Page>, w: Writer, c: TreeChange, next': Pgno, p: Pgno)
    requires View(mem, w).Keys == w.tree && CanChange(w, c) && c.New() !! w.tree
    ensures var w', after := Changed(w, c, next'), View(mem, w) - c.Gone() + c.edits;
      (p in after <==> p in w'.tree) && (p in w'.tree ==> p in View(mem, w') && View(mem, w')[p] == after[p])
  {
    if p in Changed(w, c, next').tree && p !in c.edits { assert p in View(mem, w) && p !in c.back; }
  }

  lemma ChangeTree(mem: map<Pgno, Page>, w: Writer, c: TreeChange, next': Pgno)
    requires TreeOk(mem, w) && CanChange(w, c) && KeepsLinks(w.roots, View(mem, w), w.height, c) && c.New() !! w.tree
    ensures TreeOk(mem, Changed(w, c, next'))
  {
    ChangeView(mem, w, c, next');
    ChangeForest(w.roots, View(mem, w), w.height, c);
  }

  lemma ChangeWriter(s: State, g: map<Txnid, Version>, w: Writer, c: TreeChange, next': Pgno)
    requires WriterOk(s, g, w) && GuardOk(s.mem, g, s.mti) && w.stage == Active
    requires CanChange(w, c) && KeepsLinks(w.roots, View(s.mem, w), w.height, c) && CanTake(w, c.New(), next')
    ensures WriterOk(s, g, Changed(w, c, next'))
  {
    TakeFresh(s, g, w, c.New(), next');
    ChangePartition(w, c, next');
    ChangeOwn(s, g, w, c, next');
    ChangeTree(s.mem, w, c, next');
  }

  /** An operation on the trees keeps the invariant. */
  lemma ChangeInv(nometasync: bool, s: State, s': State, c: TreeChange)
    requires Inv(nometasync, s) && ChangeStep(s, s', c)
    ensures Inv(nometasync, s')
  {
    ChangeWriter(s, Guarded(s), s.w.value, c, s'.w.value.next);
    WriterOnly(nometasync, s, s');
  }

  /** Copying a page is such an operation. */
  lemma TouchKeeps(mem: map<Pgno, Page>, w: Writer, p: Pgno, q: Pgno)
    requires TreeOk(mem, w) && p in w.tree && p !in w.dirty && p in mem && p in w.height && q !in w.tree
    requires p in w.roots || exists a :: a in w.dirty && Parent(View(mem, w), a, p)
    ensures CanChange(w, Touching(mem, w, p, q)) && KeepsLinks(w.roots, View(mem, w), w.height, Touching(mem, w, p, q))
  {
    var c, pages := Touching(mem, w, p, q), View(mem, w);
    assert c.New() == {q} && c.Gone() == {p};
    TouchLinks(mem, w, p, q);
    assert forall k :: k in mem[p].kids ==> Parent(pages, p, k);
    forall a, k | Parent(c.edits, a, k) ensures k !in c.roots && k in w.height + c.height && a in w.height + c.height
      && (w.height + c.height)[k] < (w.height + c.height)[a]
    {
      TouchedLink(mem, w, p, q, a, k);
    }
    forall a, b, k | Parent(c.edits, a, k) && Parent(c.edits, b, k) ensures a == b {
      TouchedLink(mem, w, p, q, a, k);
      TouchedLink(mem, w, p, q, b, k);
    }
  }

  /** A link afterwards was one before, of the page copied or of its parent. */
  lemma TouchedLink(mem: map<Pgno, Page>, w: Writer, p: Pgno, q: Pgno, a: Pgno, k: Pgno)
    requires TreeOk(mem, w) && p in w.tree && p !in w.dirty && p in mem && p in w.height && q !in w.tree
    requires Parent(Touching(mem, w, p, q).edits, a, k)
    ensures var pages := View(mem, w);
      && (if a == q then Parent(pages, p, k) && k != q else a in w.tree && Parent(pages, a, p) && Parent(pages, a, if k == q then p else k))
      && k != p
  {
    var pages := View(mem, w);
    if a == q { assert Parent(pages, p, k); } else { assert Parent(pages, a, p); }
  }

  lemma TouchLinks(mem: map<Pgno, Page>, w: Writer, p: Pgno, q: Pgno)
    requires TreeOk(mem, w) && p in w.tree && p !in w.dirty && p in mem && p in w.height && q !in w.tree
    requires p in w.roots || exists a :: a in w.dirty && Parent(View(mem, w), a, p)
    ensures var c := Touching(mem, w, p, q);
      var before := w.roots + LinksOf(View(mem, w), c.edits.Keys + c.Gone());
      p in before && c.roots + LinksOf(c.edits, c.edits.Keys) == before - {p} + {q}
  {
    var c, pages := Touching(mem, w, p, q), View(mem, w);
    var before := w.roots + LinksOf(pages, c.edits.Keys + c.Gone());
    var after := c.roots + LinksOf(c.edits, c.edits.Keys);
    TouchedThere(mem, w, p, q);
    forall k | k in after ensures k in before - {p} + {q} {
      if k !in c.roots {
        var a :| a in c.edits && k in c.edits[a].kids;
        assert Parent(c.edits, a, k);
        TouchedLink(mem, w, p, q, a, k);
        if k != q { assert if a == q then Parent(pages, p, k) else Parent(pages, a, k); }
      }
    }
    forall k | k in before - {p} ensures k in after {
      if k !in w.roots {
        var a :| a in c.edits.Keys + c.Gone() && Parent(pages, a, k);
        assert k in c.edits[if a == p then q else a].kids;
      }
    }
  }

  lemma TouchedThere(mem: map<Pgno, Page>, w: Writer, p: Pgno, q: Pgno)
    requires TreeOk(mem, w) && p in w.tree && p !in w.dirty && p in mem && p in w.height && q !in w.tree
    requires p in w.roots || exists a :: a in w.dirty && Parent(View(mem, w), a, p)
    ensures var c := Touching(mem, w, p, q);
      p in w.roots + LinksOf(View(mem, w), c.edits.Keys + c.Gone()) && q in c.roots + LinksOf(c.edits, c.edits.Keys)
  {
    var c, pages := Touching(mem, w, p, q), View(mem, w);
    if p !in w.roots {
      var a :| a in w.dirty && Parent(pages, a, p);
      assert a in c.edits && q in c.edits[a].kids;
    }
  }

  lemma TouchInv(nometasync: bool, s: State, s': State, p: Pgno, q: Pgno)
    requires Inv(nometasync, s) && TouchStep(s, s', p, q)
    ensures Inv(nometasync, s')
  {
    TouchWriter(s, s', Guarded(s), p, q);
    WriterOnly(nometasync, s, s');
  }

  lemma TouchWriter(s: State, s': State, g: map<Txnid, Version>, p: Pgno, q: Pgno)
    requires TouchStep(s, s', p, q) && WriterOk(s, g, s.w.value) && GuardOk(s.mem, g, s.mti)
    ensures WriterOk(s, g, s'.w.value)
  {
    var w := s.w.value;
    var next' :| CanTake(w, {q}, next') && s' == s.(w := Some(Changed(w, Touching(s.mem, w, p, q), next')));
    TouchedWriter(s, g, w, p, q, next');
  }

  lemma TouchedWriter(s: State, g: map<Txnid, Version>, w: Writer, p: Pgno, q: Pgno, next': Pgno)
    requires WriterOk(s, g, w) && GuardOk(s.mem, g, s.mti) && w.stage == Active && CanTake(w, {q}, next')
    requires p in w.tree && p !in w.dirty && p in s.mem && p in w.height
    requires p in w.roots || exists a :: a in w.dirty && Parent(View(s.mem, w), a, p)
    ensures WriterOk(s, g, Changed(w, Touching(s.mem, w, p, q), next'))
  {
    TouchCan(s, g, w, p, q, next');
    ChangeWriter(s, g, w, Touching(s.mem, w, p, q), next');
  }

  lemma TouchCan(s: State, g: map<Txnid, Version>, w: Writer, p: Pgno, q: Pgno, next': Pgno)
    requires WriterOk(s, g, w) && GuardOk(s.mem, g, s.mti) && CanTake(w, {q}, next')
    requires p in w.tree && p !in w.dirty && p in s.mem && p in w.height
    requires p in w.roots || exists a :: a in w.dirty && Parent(View(s.mem, w), a, p)
    ensures var c := Touching(s.mem, w, p, q);
      c.New() == {q} && CanChange(w, c) && KeepsLinks(w.roots, View(s.mem, w), w.height, c)
  {
    TakeNew(s, g, w, {q}, next');
    TouchKeeps(s.mem, w, p, q);
  }

  lemma TakeNew(s: State, g: map<Txnid, Version>, w: Writer, qs: set<Pgno>, next': Pgno)
    requires WriterOk(s, g, w) && GuardOk(s.mem, g, s.mti) && CanTake(w, qs, next')
    ensures qs !! w.tree
  {
    TakeFresh(s, g, w, qs, next');
    TakePartition(w, qs, next');
  }

  /** Bringing a spilled page back. */
  lemma UnspillInv(nometasync: bool, s: State, s': State, p: Pgno)
    requires Inv(nometasync, s) && UnspillStep(s, s', p)
    ensures Inv(nometasync, s')
  {
    UnspillWriter(s, Guarded(s), s.w.value, p);
    WriterOnly(nometasync, s, s');
  }

  lemma UnspillWriter(s: State, g: map<Txnid, Version>, w: Writer, p: Pgno)
    requires WriterOk(s, g, w) && w.stage == Active && p in w.spilled && p in s.mem
    ensures WriterOk(s, g, w.(dirty := w.dirty[p := s.mem[p]], spilled := w.spilled - {p}))
  {
    var w' := w.(dirty := w.dirty[p := s.mem[p]], spilled := w.spilled - {p});
    assert OwnOk(s.mem, g, s.mti, w');
    assert View(s.mem, w') == View(s.mem, w);
  }

  // ---------------------------------------------------------------- nested transactions

  /** Nested begin, commit and abort. */
  lemma NestInv(nometasync: bool, s: State, s': State)
    requires Inv(nometasync, s) && (NestBeginStep(s, s') || NestCommitStep(s, s') || NestAbortStep(s, s'))
    ensures Inv(nometasync, s')
  {
    var g := Guarded(s);
    assert Guarded(s') == g;
    NestShared(nometasync, s, s');
    NestWriters(s, s', g);
  }

  lemma NestShared(nometasync: bool, s: State, s': State)
    requires InvShared(nometasync, s) && InStage(s, Active) && InStage(s', Active) && s' == s.(w := s'.w, outer := s'.outer)
    ensures InvShared(nometasync, s')
  {
  }

  lemma NestWriters(s: State, s': State, g: map<Txnid, Version>)
    requires InStage(s, Active) && WriterOk(s, g, s.w.value) && OuterOk(s, g)
    requires NestBeginStep(s, s') || NestCommitStep(s, s') || NestAbortStep(s, s')
    ensures WriterOk(s', g, s'.w.value) && OuterOk(s', g)
  {
    forall a | a == s'.w.value || a in s'.outer ensures a.stage == Active && WriterOk(s', g, a) {
      assert a == s.w.value || a in s.outer;
      SameWriter(s, s', g, a);
    }
  }

  // ---------------------------------------------------------------- freelist save

  lemma RecordIn(db: map<Txnid, set<Pgno>>, pglast: Txnid)
    ensures forall k :: k in db && pglast < k ==> db[k] <= Rest(db, pglast)
  {
    forall k | k in db && pglast < k ensures db[k] <= Rest(db, pglast) {
      assert forall p :: p in db[k] ==> p in Rest(db, pglast);
    }
  }

  lemma SavedRest(w: Writer, recs: map<Txnid, set<Pgno>>)
    requires w.pglast < w.id && forall k :: k in w.freedb && w.pglast < k ==> 1 <= k < w.id
    requires forall k :: k in recs ==> 1 <= k <= w.pglast
    ensures Rest(SavedRecords(w, recs), 0) == Rest(w.freedb, w.pglast) + Rest(recs, 0) + w.freed
  {
    var db := SavedRecords(w, recs);
    RecordIn(db, 0);
    RecordIn(recs, 0);
    RecordIn(w.freedb, w.pglast);
    assert w.freed != {} ==> db[w.id] == w.freed;
    assert forall k :: k in recs ==> k in db && db[k] == recs[k];
    assert forall k :: k in w.freedb && w.pglast < k ==> k in db && db[k] == w.freedb[k];
    assert forall p :: p in Rest(recs, 0) ==> exists k :: k in recs && p in recs[k];
    assert forall p :: p in Rest(w.freedb, w.pglast) ==> exists k :: k in w.freedb && w.pglast < k && p in w.freedb[k];
  }

  /** Nothing is lost or doubled when the free lists become freeDB records. */
  lemma SavedPartition(w: Writer, recs: map<Txnid, set<Pgno>>)
    requires Partition(w.tree, w.freed, w.head, w.freedb, w.pglast, w.next)
    requires w.pglast < w.id && forall k :: k in w.freedb && w.pglast < k ==> 1 <= k < w.id
    requires forall k :: k in recs ==> 1 <= k <= w.pglast
    requires DisjointRecords(recs) && Rest(recs, 0) == w.head
    ensures Partition(w.tree, {}, {}, SavedRecords(w, recs), 0, w.next)
  {
    var db, R := SavedRecords(w, recs), Rest(w.freedb, w.pglast);
    SavedRest(w, recs);
    RecordIn(recs, 0);
    RecordIn(w.freedb, w.pglast);
    assert w.tree + {} + {} + Rest(db, 0) == w.tree + w.freed + w.head + R;
    assert DisjointRecords(db);
  }

  lemma SavedRecordsOk(w: Writer, recs: map<Txnid, set<Pgno>>, g: map<Txnid, Version>, mti: Txnid)
    requires w.id == mti + 1 && w.pglast <= mti && forall v :: v in g ==> v <= mti
    requires RecordsOk(g, w.freedb, w.pglast, mti) && Fresh(g, w.own + w.head)
    requires (forall k :: k in recs ==> 1 <= k <= w.pglast) && Rest(recs, 0) == w.head
    ensures RecordsOk(g, SavedRecords(w, recs), 0, w.id) && KeysUpTo(SavedRecords(w, recs), w.id)
  {
    RecordIn(recs, 0);
  }

  lemma SaveWriter(s: State, s': State, g: map<Txnid, Version>, recs: map<Txnid, set<Pgno>>)
    requires SaveFreelistStep(s, s', recs) && WriterOk(s, g, s.w.value)
    requires forall v :: v in g ==> v <= s.mti
    ensures WriterOk(s, g, s'.w.value)
  {
    var w, w' := s.w.value, s'.w.value;
    SavedPartition(w, recs);
    SavedRecordsOk(w, recs, g, s.mti);
    assert OwnOk(s.mem, g, s.mti, w');
  }

  lemma SaveInv(nometasync: bool, s: State, s': State, recs: map<Txnid, set<Pgno>>)
    requires Inv(nometasync, s) && SaveFreelistStep(s, s', recs)
    ensures Inv(nometasync, s')
  {
    SaveWriter(s, s', Guarded(s), recs);
    WriterOnly(nometasync, s, s');
  }
}
