/** Page writes, syncs, the commit record and crashes keep the invariant. */
module MvccDisk {
  import opened Mvcc
  import opened MvccInvariant
  import opened MvccWriter

  // ---------------------------------------------------------------- page writes and syncs

  /** A page of the writer's own is in nobody's snapshot: neither map nor disk content of a snapshot changes. */
  lemma WritePageGuard(s: State, s': State, g: map<Txnid, Version>, p: Pgno)
    requires WritePageStep(s, s', p) && InvGuard(s.mem, g, s.mti) && WriterOk(s, g, s.w.value)
    ensures InvGuard(s'.mem, g, s.mti)
    ensures forall v :: v in g ==> p !in g[v].pages
  {
    assert forall v :: v in g ==> p !in g[v].pages by {
      assert p in s.w.value.own + s.w.value.head;
    }
    forall v | v in g ensures MemHas(s'.mem, g[v].pages) {
      assert MemHas(s.mem, g[v].pages);
    }
  }

  lemma WritePageSafe(s: State, s': State, p: Pgno)
    requires WritePageStep(s, s', p) && SafeOk(s.disk, s.pend, s.hist, s.safe)
    requires forall v :: v in s.safe ==> v in s.hist && p !in s.hist[v].pages
    ensures SafeOk(s'.disk, s'.pend, s'.hist, s'.safe)
  {
    forall v | v in s.safe ensures Durable(s'.disk, s'.pend, s.hist[v].pages) {
      assert Durable(s.disk, s.pend, s.hist[v].pages);
      forall q | q in s.hist[v].pages ensures Settled(s'.disk, s'.pend, q, s.hist[v].pages[q]) {
        assert q != p && Settled(s.disk, s.pend, q, s.hist[v].pages[q]);
      }
    }
  }

  lemma WritePageWriter(s: State, s': State, g: map<Txnid, Version>, p: Pgno)
    requires WritePageStep(s, s', p) && WriterOk(s, g, s.w.value)
    ensures WriterOk(s', g, s'.w.value)
  {
    WritePageOwn(s, s', g, p, s.w.value);
    WritePageView(s.mem, s.w.value, p);
  }

  lemma WritePageOwn(s: State, s': State, g: map<Txnid, Version>, p: Pgno, w: Writer)
    requires WritePageStep(s, s', p) && s.w == Some(w) && OwnOk(s.mem, g, s.mti, w) && StageOk(s, w)
    ensures OwnOk(s'.mem, g, s.mti, s'.w.value) && StageOk(s', s'.w.value)
  {
  }

  lemma WritePageView(mem: map<Pgno, Page>, w: Writer, p: Pgno)
    requires p in w.dirty
    ensures View(mem[p := w.dirty[p]], w.(dirty := w.dirty - {p}, spilled := w.spilled + {p})) == View(mem, w)
  {
  }

  lemma WritePageInv(nometasync: bool, s: State, s': State, p: Pgno)
    requires Inv(nometasync, s) && WritePageStep(s, s', p)
    ensures Inv(nometasync, s')
  {
    var g := Guarded(s);
    assert Guarded(s') == g;
    WritePageParts(nometasync, s, s', g, p);
    WritePageWriter(s, s', g, p);
    forall a | a in s.outer ensures WriterOk(s', g, a) { WritePageOuter(s, s', g, p, s.w.value, a); }
  }

  /** No ancestor sees a page that its child writes: it has the page on its dirty list, or not in its trees. */
  lemma WritePageOuter(s: State, s': State, g: map<Txnid, Version>, p: Pgno, w: Writer, a: Writer)
    requires WritePageStep(s, s', p) && s.w == Some(w) && a in s.outer && a.stage == Active
    requires OwnOk(s.mem, g, s.mti, w) && WriterOk(s, g, a)
    ensures WriterOk(s', g, a) && View(s'.mem, a) == View(s.mem, a)
  {
    assert p in w.own + w.head && p !in g[s.mti].pages;
    assert p in a.tree && p !in a.dirty ==> p in a.own;
    assert View(s'.mem, a) == View(s.mem, a);
    assert OwnOk(s'.mem, g, s.mti, a);
  }

  lemma WritePageParts(nometasync: bool, s: State, s': State, g: map<Txnid, Version>, p: Pgno)
    requires g == Guarded(s) && InvShared(nometasync, s) && InvGuard(s.mem, g, s.mti) && WritePageStep(s, s', p)
    requires WriterOk(s, g, s.w.value)
    ensures InvShared(nometasync, s') && InvGuard(s'.mem, g, s.mti)
  {
    WritePageGuard(s, s', g, p);
    assert forall v :: v in s.safe ==> v in g;
    WritePageSafe(s, s', p);
  }

  lemma SyncedSafe(s: State, s': State, g: map<Txnid, Version>)
    requires SafeOk(s.disk, s.pend, s.hist, s.safe) && s'.disk == s.mem && s'.pend == map[]
    requires forall v :: v in s.safe ==> v in s.hist && MemHas(s.mem, s.hist[v].pages)
    ensures SafeOk(s'.disk, s'.pend, s.hist, s.safe)
  {
    forall v | v in s.safe ensures Durable(s'.disk, s'.pend, s.hist[v].pages) {
      assert MemHas(s.mem, s.hist[v].pages);
    }
  }

  lemma SafeInMem(nometasync: bool, s: State)
    requires Inv(nometasync, s)
    ensures forall v :: v in s.safe ==> v in s.hist && MemHas(s.mem, s.hist[v].pages)
  {
    SafeMem(s, Guarded(s));
  }

  lemma SafeMem(s: State, g: map<Txnid, Version>)
    requires g == Guarded(s) && GuardOk(s.mem, g, s.mti) && SafeOk(s.disk, s.pend, s.hist, s.safe)
    requires SafeRange(s.safe, s.mti, InStage(s, MetaWritten))
    requires s.w.Some? ==> s.w.value.id == s.mti + 1 && StageOk(s, s.w.value)
    ensures forall v :: v in s.safe ==> v in s.hist && MemHas(s.mem, s.hist[v].pages)
  {
    forall v | v in s.safe ensures v in s.hist && MemHas(s.mem, s.hist[v].pages) {
      if v <= s.mti { assert v in g; }
    }
  }

  lemma SyncOuter(s: State, s': State, g: map<Txnid, Version>, a: Writer)
    requires EnvSyncStep(s, s') && WriterOk(s, g, a) && a.stage == Active
    ensures WriterOk(s', g, a)
  {
  }

  lemma SyncWriter(s: State, s': State, g: map<Txnid, Version>)
    requires SyncDataStep(s, s') || (EnvSyncStep(s, s') && s.w.Some?)
    requires WriterOk(s, g, s.w.value)
    requires forall v :: v in g ==> MemHas(s.mem, g[v].pages)
    ensures WriterOk(s', g, s'.w.value)
  {
    var w := s.w.value;
    forall p | p in w.tree && (w.stage == Synced || (w.stage == Saved && w.dirty == map[])) ensures p in s.mem {
      if p in w.own { assert p in w.dirty.Keys + w.spilled; }
    }
  }

  lemma SyncInv(nometasync: bool, s: State, s': State)
    requires Inv(nometasync, s) && (SyncDataStep(s, s') || EnvSyncStep(s, s'))
    ensures Inv(nometasync, s')
  {
    var g := Guarded(s);
    assert Guarded(s') == g;
    SafeInMem(nometasync, s);
    SyncedSafe(s, s', g);
    if s.w.Some? { SyncWriter(s, s', g); }
    if EnvSyncStep(s, s') {
      forall a | a in s.outer ensures WriterOk(s', g, a) { SyncOuter(s, s', g, a); }
    }
    assert InvShared(nometasync, s');
  }

  // ---------------------------------------------------------------- commit

  lemma CommittedOk(s: State, g: map<Txnid, Version>, w: Writer)
    requires WriterOk(s, g, w) && w.stage == Synced && VersionOk(g[s.mti])
    ensures var v := Committed(s, w);
      && VersionOk(v) && MemHas(s.mem, v.pages) && Durable(s.disk, s.pend, v.pages)
  {
    var v := Committed(s, w);
    assert v.pages.Keys == w.tree;
    assert View(s.mem, w) == v.pages;
  }

  lemma WriteMetaShared(nometasync: bool, s: State, s': State)
    requires InvShared(nometasync, s) && WriteMetaStep(s, s') && s.w.value.id == s.mti + 1
    requires Durable(s.disk, s.pend, s'.hist[s.mti + 1].pages)
    ensures InvShared(nometasync, s')
  {
    var n := s.mti + 1;
    assert n % 2 == 1 - s.mti % 2;
    assert n !in s.safe;
    assert SlotsOk(s'.slots, s'.hist, s.mti) by {
      forall i | 0 <= i < |s.slots| ensures SlotOk(s.slots[i], s'.hist, s.mti) {
        assert SlotOk(s.slots[i], s.hist, s.mti);
      }
    }
    assert MetaOk(s'.hist, s'.safe, s'.metas[n % 2], n % 2);
    assert MetaOk(s'.hist, s'.safe, s'.metas[s.mti % 2], s.mti % 2);
    assert MetaOk(s'.hist, s'.safe, s'.dmetas[n % 2], n % 2);
    assert SafeOk(s'.disk, s'.pend, s'.hist, s'.safe);
  }

  lemma WriteMetaInv(nometasync: bool, s: State, s': State)
    requires Inv(nometasync, s) && WriteMetaStep(s, s')
    ensures Inv(nometasync, s')
  {
    var g, w := Guarded(s), s.w.value;
    WriteMetaGuarded(s, s');
    WriteMetaParts(nometasync, s, s', g, w);
    WriteMetaWriter(s, s', g, w);
  }

  lemma WriteMetaGuarded(s: State, s': State)
    requires |s.metas| == 2 && WriteMetaStep(s, s') && s.w.value.id == s.mti + 1
    ensures Guarded(s') == Guarded(s)
  {
  }

  lemma WriteMetaParts(nometasync: bool, s: State, s': State, g: map<Txnid, Version>, w: Writer)
    requires InvShared(nometasync, s) && WriteMetaStep(s, s') && s.w == Some(w) && WriterOk(s, g, w) && VersionOk(g[s.mti])
    ensures InvShared(nometasync, s')
  {
    CommittedOk(s, g, w);
    WriteMetaShared(nometasync, s, s');
  }

  lemma WriteMetaWriter(s: State, s': State, g: map<Txnid, Version>, w: Writer)
    requires |s.metas| == 2 && WriteMetaStep(s, s') && s.w == Some(w) && WriterOk(s, g, w) && VersionOk(g[s.mti])
    ensures WriterOk(s', g, s'.w.value)
  {
    CommittedOk(s, g, w);
    assert View(s.mem, s'.w.value) == View(s.mem, w);
  }

  lemma MetaDurableInv(nometasync: bool, s: State, s': State)
    requires Inv(nometasync, s) && MetaDurableStep(s, s')
    ensures Inv(nometasync, s')
  {
    assert Guarded(s') == Guarded(s);
    MetaDurableShared(nometasync, s, s');
    MetaDurableWriter(s, s', Guarded(s));
  }

  lemma MetaDurableShared(nometasync: bool, s: State, s': State)
    requires InvShared(nometasync, s) && MetaDurableStep(s, s') && s.w.value.id == s.mti + 1
    ensures InvShared(nometasync, s')
  {
    assert (s.mti + 1) % 2 == 1 - s.mti % 2;
  }

  lemma MetaDurableWriter(s: State, s': State, g: map<Txnid, Version>)
    requires |s.metas| == 2 && |s.dmetas| == 2 && MetaDurableStep(s, s') && WriterOk(s, g, s.w.value)
    ensures WriterOk(s', g, s'.w.value)
  {
  }

  /** The new version becomes the one readers start from. */
  lemma PublishGuard(s: State, g: map<Txnid, Version>, g': map<Txnid, Version>, w: Writer)
    requires InvGuard(s.mem, g, s.mti) && WriterOk(s, g, w) && w.stage == MetaWritten
    requires w.id in g' && g'[w.id] == s.hist[w.id]
    requires forall v :: v in g' && v != w.id ==> v in g && g'[v] == g[v]
    ensures InvGuard(s.mem, g', w.id)
  {
    var db := s.hist[w.id].freedb;
    RecordIn(db, 0);
    assert VersionOk(s.hist[w.id]);
    forall k | k in db ensures 1 <= k <= w.id && forall v :: v in g' && k <= v ==> db[k] !! g'[v].pages.Keys {
      assert db[k] <= Rest(db, 0);
    }
  }

  lemma PublishShared(nometasync: bool, s: State, s': State)
    requires InvShared(nometasync, s) && PublishStep(nometasync, s, s') && s.w.value.id == s.mti + 1
    ensures InvShared(nometasync, s')
  {
    assert (s.mti + 1) % 2 == 1 - s.mti % 2;
    assert SlotsOk(s'.slots, s'.hist, s'.mti) by {
      forall i | 0 <= i < |s.slots| ensures SlotOk(s.slots[i], s'.hist, s'.mti) {
        assert SlotOk(s.slots[i], s.hist, s.mti);
      }
    }
  }

  lemma PublishGuarded(nometasync: bool, s: State, s': State)
    requires PublishStep(nometasync, s, s') && SafeRange(s.safe, s.mti, true) && s.w.value.id == s.mti + 1
    requires s.mti + 1 in s.hist && s.mti in s.hist && SlotsOk(s.slots, s.hist, s.mti)
    ensures var g, g', n := Guarded(s), Guarded(s'), s.mti + 1;
      && n in g' && g'[n] == s.hist[n]
      && forall v :: v in g' && v != n ==> v in g && g'[v] == g[v]
  {
    forall v | v in ReaderIds(s.slots) ensures v <= s.mti {
      var i :| 0 <= i < |s.slots| && s.slots[i].reader.Some? && s.slots[i].reader.value.txnid == v;
      assert SlotOk(s.slots[i], s.hist, s.mti);
    }
  }

  lemma PublishParts(nometasync: bool, s: State, s': State, g: map<Txnid, Version>, w: Writer)
    requires PublishStep(nometasync, s, s') && s.w == Some(w) && g == Guarded(s)
    requires InvShared(nometasync, s) && InvGuard(s.mem, g, s.mti) && WriterOk(s, g, w)
    ensures InvShared(nometasync, s') && InvGuard(s'.mem, Guarded(s'), s'.mti)
  {
    PublishShared(nometasync, s, s');
    PublishGuarded(nometasync, s, s');
    PublishGuard(s, g, Guarded(s'), w);
  }

  lemma PublishInv(nometasync: bool, s: State, s': State)
    requires Inv(nometasync, s) && PublishStep(nometasync, s, s')
    ensures Inv(nometasync, s')
  {
    PublishParts(nometasync, s, s', Guarded(s), s.w.value);
  }

  lemma AbortInv(nometasync: bool, s: State, s': State)
    requires Inv(nometasync, s) && AbortStep(s, s')
    ensures Inv(nometasync, s')
  {
    assert Guarded(s') == Guarded(s);
    assert InvShared(nometasync, s');
  }

  // ---------------------------------------------------------------- crash

  /** Which version recovery picks. */
  ghost predicate CrashOutcome(nometasync: bool, s: State, v: Txnid) {
    if InStage(s, MetaWritten) then v == s.mti || v == s.mti + 1
    else v == s.mti || (nometasync && s.dmetas != s.metas && v == s.mti - 1)
  }

  lemma PickedVersion(nometasync: bool, s: State, dmetas: seq<Meta>)
    requires InvMetas(nometasync, s) && SafeRange(s.safe, s.mti, InStage(s, MetaWritten)) && |dmetas| == 2
    requires forall i :: 0 <= i < 2 ==> dmetas[i] == s.dmetas[i] || dmetas[i] == s.metas[i]
    ensures var v := dmetas[Pick(dmetas)].txnid;
      && v in s.safe && CrashOutcome(nometasync, s, v)
      && dmetas[v % 2].txnid == v && Older(dmetas[1 - v % 2], v)
      && (v == s.mti + 1 ==> dmetas[1 - v % 2].txnid == s.mti)
  {
  }

  lemma CrashDurable(s: State, disk: map<Pgno, Page>, pages: map<Pgno, Page>)
    requires s.disk.Keys <= disk.Keys
    requires forall p :: p in disk ==> (p in s.disk && disk[p] == s.disk[p]) || (p in s.pend && disk[p] in s.pend[p])
    requires Durable(s.disk, s.pend, pages)
    ensures MemHas(disk, pages) && Durable(disk, map[], pages)
  {
    forall p | p in pages ensures p in disk && disk[p] == pages[p] {
      assert Settled(s.disk, s.pend, p, pages[p]);
    }
  }

  lemma CrashSafe(s: State, s': State, disk: map<Pgno, Page>, dmetas: seq<Meta>)
    requires |s.metas| == 2 && |s.dmetas| == 2 && CrashStep(s, s', disk, dmetas)
    requires SafeOk(s.disk, s.pend, s.hist, s.safe) && forall u :: u in s'.safe ==> u <= s'.mti
    ensures SafeOk(s'.disk, s'.pend, s'.hist, s'.safe)
  {
    forall u | u in s'.safe ensures u in s'.hist && Durable(s'.disk, s'.pend, s'.hist[u].pages) {
      CrashDurable(s, disk, s.hist[u].pages);
    }
  }

  lemma CrashMetas(nometasync: bool, s: State, s': State, disk: map<Pgno, Page>, dmetas: seq<Meta>)
    requires InvMetas(nometasync, s) && SafeRange(s.safe, s.mti, InStage(s, MetaWritten))
    requires CrashStep(s, s', disk, dmetas)
    ensures InvMetas(nometasync, s') && SafeRange(s'.safe, s'.mti, false)
    ensures s'.safe <= s.safe && CrashOutcome(nometasync, s, s'.mti)
  {
    PickedVersion(nometasync, s, dmetas);
    assert MetaOk(s.hist, s.safe, dmetas[0], 0) && MetaOk(s.hist, s.safe, dmetas[1], 1);
  }

  lemma CrashShared(nometasync: bool, s: State, s': State, disk: map<Pgno, Page>, dmetas: seq<Meta>)
    requires InvShared(nometasync, s) && CrashStep(s, s', disk, dmetas)
    ensures InvShared(nometasync, s')
    ensures s'.safe <= s.safe && CrashOutcome(nometasync, s, s'.mti)
  {
    CrashMetas(nometasync, s, s', disk, dmetas);
    CrashSafe(s, s', disk, dmetas);
  }

  lemma VersionsOrdered(nometasync: bool, s: State, v: Txnid, u: Txnid)
    requires Inv(nometasync, s) && v in s.safe && u in s.safe && u <= v && CrashOutcome(nometasync, s, v)
    ensures s.hist[u].next <= s.hist[v].next
    ensures VersionOk(s.hist[u]) && KeysUpTo(s.hist[u].freedb, u)
    ensures forall k :: k in s.hist[v].freedb && k <= u ==> s.hist[v].freedb[k] !! s.hist[u].pages.Keys
  {
    OrderedParts(nometasync, s, Guarded(s), v, u);
  }

  lemma OrderedParts(nometasync: bool, s: State, g: map<Txnid, Version>, v: Txnid, u: Txnid)
    requires g == Guarded(s) && InvShared(nometasync, s) && InvGuard(s.mem, g, s.mti)
    requires s.w.Some? ==> WriterOk(s, g, s.w.value)
    requires v in s.safe && u in s.safe && u <= v && CrashOutcome(nometasync, s, v)
    ensures s.hist[u].next <= s.hist[v].next && VersionOk(s.hist[u]) && KeysUpTo(s.hist[u].freedb, u)
    ensures forall k :: k in s.hist[v].freedb && k <= u ==> s.hist[v].freedb[k] !! s.hist[u].pages.Keys
  {
    if v <= s.mti {
      GuardedOrdered(s, g, v, u);
    } else {
      WrittenOrdered(s, g, s.w.value, u);
    }
  }

  lemma GuardedOrdered(s: State, g: map<Txnid, Version>, v: Txnid, u: Txnid)
    requires g == Guarded(s) && InvGuard(s.mem, g, s.mti) && v in s.safe && u in s.safe && u <= v <= s.mti
    requires v in s.hist && u in s.hist && (v == s.mti || u == v)
    ensures s.hist[u].next <= s.hist[v].next && VersionOk(s.hist[u]) && KeysUpTo(s.hist[u].freedb, u)
    ensures forall k :: k in s.hist[v].freedb && k <= u ==> s.hist[v].freedb[k] !! s.hist[u].pages.Keys
  {
    assert v in g && u in g && VersionOk(g[u]) && KeysUpTo(g[u].freedb, u);
    RecordIn(g[v].freedb, 0);
  }

  lemma WrittenOrdered(s: State, g: map<Txnid, Version>, w: Writer, u: Txnid)
    requires g == Guarded(s) && InvGuard(s.mem, g, s.mti) && s.w == Some(w) && WriterOk(s, g, w) && w.stage == MetaWritten
    requires u in s.safe && u in s.hist && u <= w.id
    ensures s.hist[u].next <= s.hist[w.id].next && VersionOk(s.hist[u]) && KeysUpTo(s.hist[u].freedb, u)
    ensures forall k :: k in s.hist[w.id].freedb && k <= u ==> s.hist[w.id].freedb[k] !! s.hist[u].pages.Keys
  {
    RecordIn(w.freedb, 0);
    if u <= s.mti { assert u in g && VersionOk(g[u]) && KeysUpTo(g[u].freedb, u); }
  }

  lemma CrashInv(nometasync: bool, s: State, s': State, disk: map<Pgno, Page>, dmetas: seq<Meta>)
    requires Inv(nometasync, s) && CrashStep(s, s', disk, dmetas)
    ensures Inv(nometasync, s') && CrashOutcome(nometasync, s, s'.mti)
  {
    CrashShared(nometasync, s, s', disk, dmetas);
    var g', v := Guarded(s'), s'.mti;
    assert g'.Keys == s'.safe by { assert ReaderIds(s'.slots) == {}; }
    forall u | u in g'
      ensures VersionOk(g'[u]) && KeysUpTo(g'[u].freedb, u) && MemHas(disk, g'[u].pages) && g'[u].next <= g'[v].next
      ensures forall k :: k in g'[v].freedb && k <= u ==> g'[v].freedb[k] !! g'[u].pages.Keys
    {
      VersionsOrdered(nometasync, s, v, u);
      CrashDurable(s, disk, s.hist[u].pages);
    }
  }
}
