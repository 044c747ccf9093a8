/** The inductive invariant of the page-lifetime protocol, one lemma per group of steps. */
module MvccInvariant {
  import opened Mvcc

  ghost predicate KeysUpTo(db: map<Txnid, set<Pgno>>, last: Txnid) {
    forall k :: k in db ==> 1 <= k <= last
  }

  /** Every guarded version is well formed and its pages are in the map as committed. */
  ghost predicate GuardOk(mem: map<Pgno, Page>, g: map<Txnid, Version>, mti: Txnid) {
    && mti in g
    && forall v :: v in g ==>
      VersionOk(g[v]) && KeysUpTo(g[v].freedb, v) && MemHas(mem, g[v].pages) && g[v].next <= g[mti].next
  }

  ghost predicate SafeOk(disk: map<Pgno, Page>, pend: map<Pgno, set<Page>>, hist: map<Txnid, Version>, safe: set<Txnid>) {
    forall v :: v in safe ==> v in hist && Durable(disk, pend, hist[v].pages)
  }

  ghost predicate SafeRange(safe: set<Txnid>, mti: Txnid, written: bool) {
    && mti in safe
    && forall v :: v in safe ==> mti <= v + 1 && (v <= mti || (written && v == mti + 1))
  }

  ghost predicate SlotOk(r: Slot, hist: map<Txnid, Version>, mti: Txnid) {
    r.reader.Some? ==>
      var id := r.reader.value.txnid;
      r.pid && r.mark == At(id) && id <= mti && id in hist && r.reader.value.roots == hist[id].roots
  }

  ghost predicate SlotsOk(slots: seq<Slot>, hist: map<Txnid, Version>, mti: Txnid) {
    forall i :: 0 <= i < |slots| ==> SlotOk(slots[i], hist, mti)
  }

  ghost predicate MetaOk(hist: map<Txnid, Version>, safe: set<Txnid>, m: Meta, i: nat) {
    && (m.txnid % 2 == i || m.txnid == 0)
    && (m.txnid in safe ==> m.txnid in hist && m == MetaOf(m.txnid, hist[m.txnid]))
  }

  ghost predicate MetasOk(nometasync: bool, hist: map<Txnid, Version>, safe: set<Txnid>, metas: seq<Meta>) {
    && |metas| == 2 && MetaOk(hist, safe, metas[0], 0) && MetaOk(hist, safe, metas[1], 1)
    && (!nometasync ==> metas[0].txnid in safe && metas[1].txnid in safe)
  }

  /** mdb_env_pick_meta prefers the current meta page over an older one. */
  ghost predicate Older(m: Meta, mti: Txnid) { m.txnid < mti || mti == m.txnid == 0 }

  ghost predicate MetasBeforeWrite(nometasync: bool, metas: seq<Meta>, dmetas: seq<Meta>, safe: set<Txnid>, mti: Txnid)
    requires |metas| == 2 && |dmetas| == 2
  {
    var a := mti % 2;
    && metas[a].txnid == mti && Older(metas[1 - a], mti)
    && (dmetas == metas ||
        (&& nometasync && 0 < mti
         && dmetas[1 - a] == metas[1 - a] && metas[1 - a].txnid == mti - 1
         && mti - 1 in safe && dmetas[a].txnid < mti))
  }

  ghost predicate MetasAfterWrite(metas: seq<Meta>, dmetas: seq<Meta>, safe: set<Txnid>, mti: Txnid)
    requires |metas| == 2 && |dmetas| == 2
  {
    var a := mti % 2;
    && metas[a].txnid == mti && metas[1 - a].txnid == mti + 1 && mti + 1 in safe
    && dmetas[a] == metas[a]
    && (dmetas[1 - a] == metas[1 - a] || Older(dmetas[1 - a], mti))
  }

  ghost predicate InvMetas(nometasync: bool, s: State) {
    && MetasOk(nometasync, s.hist, s.safe, s.metas) && MetasOk(nometasync, s.hist, s.safe, s.dmetas)
    && (if InStage(s, MetaWritten) then MetasAfterWrite(s.metas, s.dmetas, s.safe, s.mti)
        else MetasBeforeWrite(nometasync, s.metas, s.dmetas, s.safe, s.mti))
    && (InStage(s, Synced) ==> s.dmetas == s.metas)
  }

  /** Unread freeDB records only hold pages that no guarded version at or after their key uses. */
  ghost predicate RecordsOk(g: map<Txnid, Version>, db: map<Txnid, set<Pgno>>, pglast: Txnid, last: Txnid) {
    forall k :: k in db && pglast < k ==>
      1 <= k <= last && forall v :: v in g && k <= v ==> db[k] !! g[v].pages.Keys
  }

  ghost predicate Fresh(g: map<Txnid, Version>, ps: set<Pgno>) {
    forall v :: v in g ==> ps !! g[v].pages.Keys
  }

  ghost predicate ScannedFrom(slots: seq<Slot>, i: nat, oldest: Txnid) {
    forall j :: i <= j < |slots| && slots[j].reader.Some? ==> oldest <= slots[j].reader.value.txnid
  }

  ghost predicate ScanOk(slots: seq<Slot>, mti: Txnid, scan: Scan) {
    match scan
    case NoScan => true
    case Scanning(i, oldest) => oldest <= mti && i <= |slots| && ScannedFrom(slots, i, oldest)
    case Scanned(oldest) => oldest <= mti && ScannedFrom(slots, 0, oldest)
  }

  ghost predicate OwnOk(mem: map<Pgno, Page>, g: map<Txnid, Version>, mti: Txnid, w: Writer) {
    && Fresh(g, w.own + w.head)
    && w.dirty.Keys <= w.own && w.spilled <= w.own && w.spilled <= mem.Keys && w.dirty.Keys !! w.spilled
    && w.own * w.tree <= w.dirty.Keys + w.spilled
    && (forall p :: p in w.own ==> p < w.next)
    && mti in g && w.tree - w.own <= g[mti].pages.Keys && g[mti].next <= w.next
  }

  ghost predicate StageOk(s: State, w: Writer) {
    && (w.stage != Active ==> w.freed == {} && w.head == {} && w.pglast == 0 && KeysUpTo(w.freedb, w.id))
    && (w.stage == Synced ==> w.dirty == map[])
    && (w.stage == Synced ==> forall p :: p in w.tree ==> p in s.mem && Settled(s.disk, s.pend, p, s.mem[p]))
    && (w.stage == MetaWritten ==>
          && w.id in s.hist && s.hist[w.id].freedb == w.freedb && s.hist[w.id].next == w.next
          && VersionOk(s.hist[w.id]) && KeysUpTo(w.freedb, w.id) && MemHas(s.mem, s.hist[w.id].pages))
  }

  ghost predicate WriterOk(s: State, g: map<Txnid, Version>, w: Writer) {
    && w.id == s.mti + 1 && w.pglast <= s.mti && (w.head != {} ==> 0 < w.pglast)
    && Partition(w.tree, w.freed, w.head, w.freedb, w.pglast, w.next)
    && RecordsOk(g, w.freedb, w.pglast, if w.stage == Active then s.mti else w.id)
    && OwnOk(s.mem, g, s.mti, w) && StageOk(s, w) && ScanOk(s.slots, s.mti, w.scan) && TreeOk(s.mem, w)
  }

  /** The pages of the transaction's trees are just the pages below its roots. */
  ghost predicate TreeOk(mem: map<Pgno, Page>, w: Writer) {
    View(mem, w).Keys == w.tree && Forest(w.roots, View(mem, w), w.height)
  }

  ghost predicate InvShared(nometasync: bool, s: State) {
    && InvMetas(nometasync, s)
    && SafeRange(s.safe, s.mti, InStage(s, MetaWritten))
    && SafeOk(s.disk, s.pend, s.hist, s.safe)
    && SlotsOk(s.slots, s.hist, s.mti)
  }

  ghost predicate InvGuard(mem: map<Pgno, Page>, g: map<Txnid, Version>, mti: Txnid) {
    GuardOk(mem, g, mti) && RecordsOk(g, g[mti].freedb, 0, mti)
  }

  /** Only an active transaction has ancestors, and each is one that could go on. */
  ghost predicate OuterOk(s: State, g: map<Txnid, Version>) {
    && (s.outer != [] ==> InStage(s, Active))
    && forall a :: a in s.outer ==> a.stage == Active && WriterOk(s, g, a)
  }

  ghost predicate Inv(nometasync: bool, s: State) {
    && InvShared(nometasync, s)
    && InvGuard(s.mem, Guarded(s), s.mti)
    && (s.w.Some? ==> WriterOk(s, Guarded(s), s.w.value))
    && OuterOk(s, Guarded(s))
  }

  /** What a transaction's invariant depends on besides itself. */
  lemma SameWriter(s: State, s': State, g: map<Txnid, Version>, w: Writer)
    requires WriterOk(s, g, w) && s'.mem == s.mem && s'.mti == s.mti && s'.slots == s.slots
    requires s'.disk == s.disk && s'.pend == s.pend && s'.hist == s.hist
    ensures WriterOk(s', g, w)
  {
  }

  lemma SameOuter(s: State, s': State, g: map<Txnid, Version>)
    requires OuterOk(s, g) && s'.mem == s.mem && s'.mti == s.mti && s'.slots == s.slots
    requires s'.disk == s.disk && s'.pend == s.pend && s'.hist == s.hist
    requires (forall a :: a in s'.outer ==> a in s.outer) && (s'.outer != [] ==> InStage(s', Active))
    ensures OuterOk(s', g)
  {
    forall a | a in s'.outer ensures WriterOk(s', g, a) { SameWriter(s, s', g, a); }
  }

  lemma InitInv(nometasync: bool, s: State)
    requires Init(s)
    ensures Inv(nometasync, s)
  {
    assert Guarded(s) == s.hist;
  }

  // ---------------------------------------------------------------- readers

  ghost predicate Fewer(g': map<Txnid, Version>, g: map<Txnid, Version>) {
    g'.Keys <= g.Keys && forall v :: v in g' ==> g'[v] == g[v]
  }

  lemma ReaderIdsAfter(slots: seq<Slot>, slots': seq<Slot>, i: nat, mti: Txnid)
    requires i <= |slots| && i < |slots'| && (|slots'| == |slots| || i == |slots| == |slots'| - 1)
    requires forall j :: 0 <= j < |slots| && j != i ==> slots'[j] == slots[j]
    requires slots'[i].reader.None? || slots'[i].reader.value.txnid == mti
    ensures ReaderIds(slots') <= ReaderIds(slots) + {mti}
  {
    forall v | v in ReaderIds(slots') ensures v in ReaderIds(slots) + {mti} {
      var j :| 0 <= j < |slots'| && slots'[j].reader.Some? && slots'[j].reader.value.txnid == v;
      if j != i { assert slots'[j] == slots[j]; }
    }
  }

  lemma GuardFewer(mem: map<Pgno, Page>, g: map<Txnid, Version>, g': map<Txnid, Version>, mti: Txnid)
    requires InvGuard(mem, g, mti) && Fewer(g', g) && mti in g'
    ensures InvGuard(mem, g', mti)
  {
  }

  ghost predicate SlotChange(s: State, s': State, i: nat)
    requires |s.metas| == 2
  {
    && i < |s'.slots| && (|s'.slots| == |s.slots| || i == |s.slots| == |s'.slots| - 1)
    && (forall j :: 0 <= j < |s.slots| && j != i ==> s'.slots[j] == s.slots[j])
    && (s'.slots[i].reader.None? ||
        s'.slots[i] == Slot(true, At(s.mti), Some(ReadTxn(s.mti, s.metas[s.mti % 2].roots))))
    && s' == s.(slots := s'.slots)
  }

  lemma SlotChangeWriter(s: State, s': State, i: nat, g: map<Txnid, Version>, g': map<Txnid, Version>, w: Writer)
    requires |s.metas| == 2 && SlotChange(s, s', i)
    requires WriterOk(s, g, w) && Fewer(g', g) && s.mti in g'
    ensures WriterOk(s', g', w)
  {
    assert ScanOk(s'.slots, s.mti, w.scan);
    assert Fresh(g', w.own + w.head);
  }

  lemma SlotChangeShared(nometasync: bool, s: State, s': State, i: nat)
    requires InvShared(nometasync, s) && SlotChange(s, s', i)
    ensures InvShared(nometasync, s')
  {
    assert SlotOk(s'.slots[i], s.hist, s.mti);
  }

  lemma SlotChangeGuarded(s: State, s': State, i: nat)
    requires |s.metas| == 2 && SlotChange(s, s', i) && s.mti in s.safe
    ensures Fewer(Guarded(s'), Guarded(s))
  {
    ReaderIdsAfter(s.slots, s'.slots, i, s.mti);
  }

  lemma SlotChangeInv(nometasync: bool, s: State, s': State, i: nat)
    requires Inv(nometasync, s) && SlotChange(s, s', i)
    ensures Inv(nometasync, s')
  {
    var g, g' := Guarded(s), Guarded(s');
    SlotChangeShared(nometasync, s, s', i);
    SlotChangeGuarded(s, s', i);
    GuardFewer(s.mem, g, g', s.mti);
    if s.w.Some? { SlotChangeWriter(s, s', i, g, g', s.w.value); }
    forall a | a in s.outer ensures WriterOk(s', g', a) { SlotChangeWriter(s, s', i, g, g', a); }
  }
}
