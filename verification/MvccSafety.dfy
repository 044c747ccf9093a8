/** What the protocol guarantees over every run. */
module MvccSafety {
  import opened Mvcc
  import opened MvccInvariant
  import opened MvccWriter
  import opened MvccDisk

  lemma ScanNextKeeps(nometasync: bool, s: State, s': State, step: Step)
    requires Inv(nometasync, s) && ScanNext(s, s', step)
    ensures Inv(nometasync, s')
  {
    match step
    case BeginWrite => BeginWriteInv(nometasync, s, s');
    case ScanStart => ScanStartInv(nometasync, s, s');
    case ScanSlot => ScanSlotInv(nometasync, s, s');
    case Reclaim(k) => ReclaimInv(nometasync, s, s', k);
  }

  lemma TreeNextKeeps(nometasync: bool, s: State, s': State, step: Step)
    requires Inv(nometasync, s) && TreeNext(s, s', step)
    ensures Inv(nometasync, s')
  {
    match step
    case Touch(p, q) => TouchInv(nometasync, s, s', p, q);
    case Change(c) => ChangeInv(nometasync, s, s', c);
    case Unspill(p) => UnspillInv(nometasync, s, s', p);
    case SaveFreelist(recs) => SaveInv(nometasync, s, s', recs);
  }

  lemma ReaderNextKeeps(nometasync: bool, s: State, s': State, step: Step)
    requires Inv(nometasync, s) && ReaderNext(s, s', step)
    ensures Inv(nometasync, s')
  {
    ReaderChange(s, s', step);
    SlotChangeInv(nometasync, s, s', step.i);
  }

  lemma ReaderChange(s: State, s': State, step: Step)
    requires |s.metas| == 2 && ReaderNext(s, s', step)
    ensures (step.Acquire? || step.BeginRead? || step.Reset? || step.Exit?) && SlotChange(s, s', step.i)
  {
  }

  lemma MemoryNextKeeps(nometasync: bool, s: State, s': State, step: Step)
    requires Inv(nometasync, s)
    requires ReaderNext(s, s', step) || ScanNext(s, s', step) || TreeNext(s, s', step) || NestNext(s, s', step)
    ensures Inv(nometasync, s')
  {
    if ReaderNext(s, s', step) {
      ReaderNextKeeps(nometasync, s, s', step);
    } else if ScanNext(s, s', step) {
      ScanNextKeeps(nometasync, s, s', step);
    } else if TreeNext(s, s', step) {
      TreeNextKeeps(nometasync, s, s', step);
    } else {
      NestInv(nometasync, s, s');
    }
  }

  lemma FileNextKeeps(nometasync: bool, s: State, s': State, step: Step)
    requires Inv(nometasync, s) && FileNext(s, s', step)
    ensures Inv(nometasync, s')
  {
    match step
    case WritePage(p) => WritePageInv(nometasync, s, s', p);
    case SyncData => SyncInv(nometasync, s, s');
    case EnvSync => SyncInv(nometasync, s, s');
    case Abort => AbortInv(nometasync, s, s');
  }

  lemma CommitNextKeeps(nometasync: bool, s: State, s': State, step: Step)
    requires Inv(nometasync, s) && CommitNext(nometasync, s, s', step)
    ensures Inv(nometasync, s')
  {
    match step
    case WriteMeta => WriteMetaInv(nometasync, s, s');
    case MetaDurable => MetaDurableInv(nometasync, s, s');
    case Publish => PublishInv(nometasync, s, s');
  }

  lemma StepKeeps(nometasync: bool, s: State, s': State, step: Step)
    requires Inv(nometasync, s) && NextStep(nometasync, s, s', step)
    ensures Inv(nometasync, s')
  {
    if ReaderNext(s, s', step) || ScanNext(s, s', step) || TreeNext(s, s', step) || NestNext(s, s', step) {
      MemoryNextKeeps(nometasync, s, s', step);
    } else if FileNext(s, s', step) {
      FileNextKeeps(nometasync, s, s', step);
    } else if CommitNext(nometasync, s, s', step) {
      CommitNextKeeps(nometasync, s, s', step);
    } else {
      CrashInv(nometasync, s, s', step.disk, step.dmetas);
    }
  }

  // ---------------------------------------------------------------- runs

  ghost predicate WellShaped(s: State) { |s.metas| == 2 && |s.dmetas| == 2 }

  /** States run[0], run[1], ... connected by steps[0], steps[1], ... */
  ghost predicate Run(nometasync: bool, run: seq<State>, steps: seq<Step>) {
    && |run| == |steps| + 1 && Init(run[0])
    && (forall i :: 0 <= i < |run| ==> WellShaped(run[i]))
    && forall i :: 0 <= i < |steps| ==> StepAt(nometasync, run, steps, i)
  }

  ghost predicate StepAt(nometasync: bool, run: seq<State>, steps: seq<Step>, i: nat)
    requires i < |steps| && |run| == |steps| + 1
  {
    WellShaped(run[i]) && NextStep(nometasync, run[i], run[i + 1], steps[i])
  }

  lemma StepIs(nometasync: bool, run: seq<State>, steps: seq<Step>, i: nat)
    requires Run(nometasync, run, steps) && i < |steps|
    ensures steps[i].WritePage? ==> WritePageStep(run[i], run[i + 1], steps[i].p)
    ensures steps[i].Reclaim? ==> ReclaimStep(run[i], run[i + 1], steps[i].k)
    ensures steps[i].Crash? ==> WellShaped(run[i]) && CrashStep(run[i], run[i + 1], steps[i].disk, steps[i].dmetas)
  {
    assert StepAt(nometasync, run, steps, i);
  }

  lemma {:induction false} RunInv(nometasync: bool, run: seq<State>, steps: seq<Step>, i: nat)
    requires Run(nometasync, run, steps) && i < |run|
    ensures Inv(nometasync, run[i])
  {
    if i == 0 {
      InitInv(nometasync, run[0]);
    } else {
      RunInv(nometasync, run, steps, i - 1);
      assert StepAt(nometasync, run, steps, i - 1);
      StepKeeps(nometasync, run[i - 1], run[i], steps[i - 1]);
    }
  }

  // ---------------------------------------------------------------- snapshot safety

  lemma ReaderGuarded(s: State, j: nat)
    requires SlotsOk(s.slots, s.hist, s.mti) && j < |s.slots| && s.slots[j].reader.Some?
    ensures var r := s.slots[j].reader.value;
      r.txnid in Guarded(s) && Guarded(s)[r.txnid] == s.hist[r.txnid] && r.roots == s.hist[r.txnid].roots
  {
    assert SlotOk(s.slots[j], s.hist, s.mti);
    assert s.slots[j].reader.value.txnid in ReaderIds(s.slots);
  }

  /** No live reader, neither of the two last versions and, with default flags, neither meta page
      depends on page p. */
  ghost predicate Unwatched(nometasync: bool, s: State, p: Pgno) {
    && (forall j :: 0 <= j < |s.slots| && s.slots[j].reader.Some? ==>
          var id := s.slots[j].reader.value.txnid; id in s.hist && p !in s.hist[id].pages)
    && s.mti in s.hist && p !in s.hist[s.mti].pages
    && (!nometasync ==> forall m :: m in s.metas ==> m.txnid in s.hist && p !in s.hist[m.txnid].pages)
  }

  lemma MetasGuarded(nometasync: bool, s: State)
    requires InvShared(nometasync, s) && !InStage(s, MetaWritten) && !nometasync
    ensures forall m :: m in s.metas ==> m.txnid in Guarded(s)
  {
    forall m | m in s.metas ensures m.txnid in Guarded(s) {
      assert m == s.metas[0] || m == s.metas[1];
    }
  }

  lemma WriteIsUnwatched(nometasync: bool, s: State, s': State, p: Pgno)
    requires Inv(nometasync, s) && WritePageStep(s, s', p)
    ensures Unwatched(nometasync, s, p)
  {
    var g := Guarded(s);
    assert forall v :: v in g ==> v in s.hist && p !in s.hist[v].pages by { WritePageGuard(s, s', g, p); }
    forall j | 0 <= j < |s.slots| && s.slots[j].reader.Some? ensures s.slots[j].reader.value.txnid in g {
      ReaderGuarded(s, j);
    }
    if !nometasync { MetasGuarded(nometasync, s); }
  }

  /** No page write of any run targets a page somebody may still look at. */
  lemma SnapshotSafety(nometasync: bool, run: seq<State>, steps: seq<Step>, i: nat)
    requires Run(nometasync, run, steps) && i < |steps| && steps[i].WritePage?
    ensures Unwatched(nometasync, run[i], steps[i].p)
  {
    RunInv(nometasync, run, steps, i);
    StepIs(nometasync, run, steps, i);
    WriteIsUnwatched(nometasync, run[i], run[i + 1], steps[i].p);
  }

  lemma ReclaimPoint(nometasync: bool, s: State, s': State, k: Txnid)
    requires Inv(nometasync, s) && ReclaimStep(s, s', k)
    ensures s.w.value.id == s.mti + 1 && k < s.w.value.id - 1
    ensures forall j :: 0 <= j < |s.slots| && s.slots[j].reader.Some? ==> k < s.slots[j].reader.value.txnid
  {
    assert ScanOk(s.slots, s.mti, s.w.value.scan);
  }

  /** A record is reclaimed only when it is older than every live reader and older than the last version. */
  lemma ReclaimIsOld(nometasync: bool, run: seq<State>, steps: seq<Step>, i: nat)
    requires Run(nometasync, run, steps) && i < |steps| && steps[i].Reclaim?
    ensures var s, k := run[i], steps[i].k;
      && s.w.Some? && s.w.value.id == s.mti + 1 && k < s.w.value.id - 1
      && forall j :: 0 <= j < |s.slots| && s.slots[j].reader.Some? ==> k < s.slots[j].reader.value.txnid
  {
    RunInv(nometasync, run, steps, i);
    StepIs(nometasync, run, steps, i);
    ReclaimPoint(nometasync, run[i], run[i + 1], steps[i].k);
  }

  /** A walk from these roots along child pointers. */
  ghost predicate Walk(mem: map<Pgno, Page>, roots: set<Pgno>, path: seq<Pgno>) {
    && |path| > 0 && path[0] in roots
    && (forall i :: 0 <= i < |path| - 1 ==> path[i] in mem && path[i + 1] in mem[path[i]].kids)
  }

  ghost predicate Reached(mem: map<Pgno, Page>, roots: set<Pgno>, p: Pgno) {
    exists path: seq<Pgno> :: Walk(mem, roots, path) && path[|path| - 1] == p
  }

  lemma {:induction false} WalkInVersion(mem: map<Pgno, Page>, roots: set<Pgno>, pages: map<Pgno, Page>, path: seq<Pgno>)
    requires Closed(roots, pages) && MemHas(mem, pages) && Walk(mem, roots, path)
    ensures path[|path| - 1] in pages && path[|path| - 1] in mem
    ensures mem[path[|path| - 1]] == pages[path[|path| - 1]]
  {
    if |path| > 1 {
      var front := path[..|path| - 1];
      WalkInVersion(mem, roots, pages, front);
      var q := front[|front| - 1];
      assert q == path[|path| - 2] && path[|path| - 1] in mem[q].kids;
    }
  }

  lemma ForestClosed(roots: set<Pgno>, pages: map<Pgno, Page>, height: map<Pgno, nat>)
    requires Forest(roots, pages, height)
    ensures Closed(roots, pages)
  {
    forall q, p | q in pages && p in pages[q].kids ensures p in pages {
      assert Parent(pages, q, p);
    }
  }

  /** The pages of greater height. */
  ghost function Above(pages: map<Pgno, Page>, height: map<Pgno, nat>, p: Pgno): set<Pgno>
    requires pages.Keys <= height.Keys && p in pages
  {
    set q | q in pages && height[p] < height[q]
  }

  lemma Climbs(pages: map<Pgno, Page>, height: map<Pgno, nat>, p: Pgno, q: Pgno)
    requires pages.Keys <= height.Keys && p in pages && q in pages && height[p] < height[q]
    ensures |Above(pages, height, q)| < |Above(pages, height, p)|
  {
    assert Above(pages, height, q) <= Above(pages, height, p) - {q};
    CardinalityUp(Above(pages, height, q), Above(pages, height, p) - {q});
  }

  lemma CardinalityUp(a: set<Pgno>, b: set<Pgno>)
    requires a <= b
    ensures |a| <= |b|
  {
    assert b == a + (b - a);
  }

  /** Every page of the trees is reached from the roots. */
  lemma {:induction false} ForestReached(roots: set<Pgno>, pages: map<Pgno, Page>, height: map<Pgno, nat>, p: Pgno)
    requires Forest(roots, pages, height) && p in pages
    ensures Reached(pages, roots, p)
    decreases |Above(pages, height, p)|
  {
    if p in roots {
      assert Walk(pages, roots, [p]) && [p][0] == p;
    } else {
      var q :| Parent(pages, q, p);
      Climbs(pages, height, p, q);
      ForestReached(roots, pages, height, q);
      var path :| Walk(pages, roots, path) && path[|path| - 1] == q;
      Extended(pages, roots, path, p);
    }
  }

  lemma Extended(pages: map<Pgno, Page>, roots: set<Pgno>, path: seq<Pgno>, p: Pgno)
    requires Walk(pages, roots, path) && Parent(pages, path[|path| - 1], p)
    ensures Reached(pages, roots, p)
  {
    var long := path + [p];
    assert Walk(pages, roots, long) && long[|long| - 1] == p;
  }

  /** A file that has these pages leads from the roots to them and to nothing else. */
  lemma TreesReached(mem: map<Pgno, Page>, roots: set<Pgno>, pages: map<Pgno, Page>, height: map<Pgno, nat>)
    requires Forest(roots, pages, height) && MemHas(mem, pages)
    ensures Closed(roots, pages) && forall p :: p in pages <==> Reached(mem, roots, p)
  {
    ForestClosed(roots, pages, height);
    forall p | p in pages ensures Reached(mem, roots, p) {
      ForestReached(roots, pages, height, p);
      var path :| Walk(pages, roots, path) && path[|path| - 1] == p;
      assert Walk(mem, roots, path);
    }
    forall p | Reached(mem, roots, p) ensures p in pages {
      var path :| Walk(mem, roots, path) && path[|path| - 1] == p;
      WalkInVersion(mem, roots, pages, path);
    }
  }

  /**
   * A live reader: walking the mapped file from the roots it copied leads to the pages of its version, all of them and no
   * others, and each has the contents that were committed.
   */
  lemma ReaderSeesItsVersion(nometasync: bool, run: seq<State>, steps: seq<Step>, i: nat, j: nat)
    requires Run(nometasync, run, steps) && i < |run|
    requires j < |run[i].slots| && run[i].slots[j].reader.Some?
    ensures var s, r := run[i], run[i].slots[j].reader.value;
      && r.txnid in s.hist && MemHas(s.mem, s.hist[r.txnid].pages)
      && forall p :: p in s.hist[r.txnid].pages <==> Reached(s.mem, r.roots, p)
  {
    var s, r := run[i], run[i].slots[j].reader.value;
    RunInv(nometasync, run, steps, i);
    ReaderVersion(nometasync, s, j);
    TreesReached(s.mem, r.roots, s.hist[r.txnid].pages, s.hist[r.txnid].height);
  }

  lemma QuietHistory(s: State, s': State, step: Step)
    requires |s.metas| == 2
    requires ReaderNext(s, s', step) || ScanNext(s, s', step) || NestNext(s, s', step) || TreeNext(s, s', step) || FileNext(s, s', step)
    ensures s'.hist == s.hist && s'.mti == s.mti && (!step.WritePage? ==> s'.mem == s.mem)
  {
  }

  lemma CommitHistory(nometasync: bool, s: State, s': State, step: Step, id: Txnid)
    requires WellShaped(s) && CommitNext(nometasync, s, s', step)
    requires s.w.Some? ==> s.w.value.id == s.mti + 1
    requires id in s.hist && id <= s.mti
    ensures id in s'.hist && s'.hist[id] == s.hist[id] && id <= s'.mti && s'.mem == s.mem
  {
  }

  lemma HistoryStep(nometasync: bool, s: State, s': State, step: Step, id: Txnid)
    requires WellShaped(s) && NextStep(nometasync, s, s', step) && !step.Crash?
    requires s.w.Some? ==> s.w.value.id == s.mti + 1
    requires id in s.hist && id <= s.mti
    ensures id in s'.hist && s'.hist[id] == s.hist[id] && id <= s'.mti && (!step.WritePage? ==> s'.mem == s.mem)
  {
    if CommitNext(nometasync, s, s', step) {
      CommitHistory(nometasync, s, s', step, id);
    } else {
      QuietHistory(s, s', step);
    }
  }

  lemma WriterId(nometasync: bool, run: seq<State>, steps: seq<Step>, i: nat)
    requires Run(nometasync, run, steps) && i < |run|
    ensures run[i].w.Some? ==> run[i].w.value.id == run[i].mti + 1
  {
    RunInv(nometasync, run, steps, i);
  }

  /** Recorded versions are never rewritten; only a crash forgets some, the newest. */
  lemma {:induction false} HistoryKept(nometasync: bool, run: seq<State>, steps: seq<Step>, i: nat, j: nat, id: Txnid)
    requires Run(nometasync, run, steps) && i <= j < |run|
    requires id in run[i].hist && id <= run[i].mti
    requires forall k :: i <= k < j ==> !steps[k].Crash?
    ensures id in run[j].hist && run[j].hist[id] == run[i].hist[id] && id <= run[j].mti
  {
    if i < j {
      HistoryKept(nometasync, run, steps, i, j - 1, id);
      HistoryAt(nometasync, run, steps, j - 1, id);
    }
  }

  lemma HistoryAt(nometasync: bool, run: seq<State>, steps: seq<Step>, k: nat, id: Txnid)
    requires Run(nometasync, run, steps) && k < |steps| && id in run[k].hist && id <= run[k].mti && !steps[k].Crash?
    ensures id in run[k + 1].hist && run[k + 1].hist[id] == run[k].hist[id] && id <= run[k + 1].mti
  {
    WriterId(nometasync, run, steps, k);
    assert StepAt(nometasync, run, steps, k);
    HistoryStep(nometasync, run[k], run[k + 1], steps[k], id);
  }

  lemma ReaderVersion(nometasync: bool, s: State, j: nat)
    requires Inv(nometasync, s) && j < |s.slots| && s.slots[j].reader.Some?
    ensures var r := s.slots[j].reader.value;
      && r.txnid in s.hist && r.txnid <= s.mti && r.roots == s.hist[r.txnid].roots
      && Forest(r.roots, s.hist[r.txnid].pages, s.hist[r.txnid].height) && MemHas(s.mem, s.hist[r.txnid].pages)
  {
    ReaderGuarded(s, j);
    GuardedVersion(s.mem, Guarded(s), s.mti, s.slots[j].reader.value.txnid);
  }

  lemma GuardedVersion(mem: map<Pgno, Page>, g: map<Txnid, Version>, mti: Txnid, id: Txnid)
    requires GuardOk(mem, g, mti) && id in g && forall v :: v in g ==> v <= mti
    ensures id <= mti && Forest(g[id].roots, g[id].pages, g[id].height) && MemHas(mem, g[id].pages)
  {
    assert VersionOk(g[id]);
  }

  /** From any point of its life to any later one, a reader keeps reading one and the same snapshot. */
  lemma SnapshotIsolation(nometasync: bool, run: seq<State>, steps: seq<Step>, i: nat, j: nat, slot: nat, path: seq<Pgno>)
    requires Run(nometasync, run, steps) && i <= j < |run| && slot < |run[i].slots|
    requires forall k :: i <= k < j ==> !steps[k].Crash?
    requires forall k :: i <= k <= j ==> slot < |run[k].slots| && run[k].slots[slot] == run[i].slots[slot]
    requires run[i].slots[slot].reader.Some?
    ensures var roots := run[i].slots[slot].reader.value.roots;
      && (Walk(run[i].mem, roots, path) <==> Walk(run[j].mem, roots, path))
      && (Walk(run[i].mem, roots, path) ==> var p := path[|path| - 1];
            p in run[i].mem && p in run[j].mem && run[j].mem[p] == run[i].mem[p])
  {
    var r := run[i].slots[slot].reader.value;
    RunInv(nometasync, run, steps, i);
    ReaderVersion(nometasync, run[i], slot);
    HistoryKept(nometasync, run, steps, i, j, r.txnid);
    RunInv(nometasync, run, steps, j);
    ReaderVersion(nometasync, run[j], slot);
    var v := run[i].hist[r.txnid];
    ForestClosed(v.roots, v.pages, v.height);
    if Walk(run[i].mem, r.roots, path) { SameWalk(run[i].mem, run[j].mem, v, path); }
    if Walk(run[j].mem, r.roots, path) { SameWalk(run[j].mem, run[i].mem, v, path); }
  }

  lemma {:induction false} SameWalk(mem: map<Pgno, Page>, mem': map<Pgno, Page>, v: Version, path: seq<Pgno>)
    requires Closed(v.roots, v.pages) && MemHas(mem, v.pages) && MemHas(mem', v.pages)
    requires Walk(mem, v.roots, path)
    ensures Walk(mem', v.roots, path)
    ensures var p := path[|path| - 1]; p in mem && p in mem' && mem'[p] == mem[p]
  {
    forall i | 0 <= i < |path| ensures path[i] in v.pages {
      assert Walk(mem, v.roots, path[..i + 1]);
      WalkInVersion(mem, v.roots, v.pages, path[..i + 1]);
      assert path[..i + 1][|path[..i + 1]| - 1] == path[i];
    }
  }

  // ---------------------------------------------------------------- crash recovery

  /**
   * Recovery with this meta page and this disk finds a complete version: from its roots just the pages of that version
   * are reached, each as it was committed.
   */
  ghost predicate Recovers(s: State, m: Meta, disk: map<Pgno, Page>) {
    && m.txnid in s.hist && m == MetaOf(m.txnid, s.hist[m.txnid])
    && MemHas(disk, s.hist[m.txnid].pages)
    && forall p :: p in s.hist[m.txnid].pages <==> Reached(disk, m.roots, p)
  }

  lemma CrashPoint(nometasync: bool, s: State, s': State, disk: map<Pgno, Page>, dmetas: seq<Meta>)
    requires Inv(nometasync, s) && CrashStep(s, s', disk, dmetas)
    ensures Recovers(s, dmetas[Pick(dmetas)], disk) && CrashOutcome(nometasync, s, dmetas[Pick(dmetas)].txnid)
  {
    PickedVersion(nometasync, s, dmetas);
    var v := dmetas[Pick(dmetas)].txnid;
    VersionsOrdered(nometasync, s, v, v);
    CrashFinds(nometasync, s, s', disk, dmetas, v);
  }

  lemma CrashFinds(nometasync: bool, s: State, s': State, disk: map<Pgno, Page>, dmetas: seq<Meta>, v: Txnid)
    requires InvMetas(nometasync, s) && SafeOk(s.disk, s.pend, s.hist, s.safe) && CrashStep(s, s', disk, dmetas)
    requires v == dmetas[Pick(dmetas)].txnid && v in s.safe && VersionOk(s.hist[v])
    ensures Recovers(s, dmetas[Pick(dmetas)], disk)
  {
    assert MetaOk(s.hist, s.safe, dmetas[0], 0) && MetaOk(s.hist, s.safe, dmetas[1], 1);
    CrashDurable(s, disk, s.hist[v].pages);
    TreesReached(disk, s.hist[v].roots, s.hist[v].pages, s.hist[v].height);
  }

  /** After a crash at any point of any run the picked meta page names a committed version, and all its
      pages are on disk as committed.  With default flags that is the last published version or the
      one whose meta page was being written; with NOMETASYNC at most the last one is lost. */
  lemma CrashRecovery(nometasync: bool, run: seq<State>, steps: seq<Step>, i: nat)
    requires Run(nometasync, run, steps) && i < |steps| && steps[i].Crash?
    ensures |steps[i].dmetas| == 2
    ensures var m := steps[i].dmetas[Pick(steps[i].dmetas)];
      && Recovers(run[i], m, steps[i].disk)
      && (m.txnid == run[i].mti
          || (InStage(run[i], MetaWritten) && m.txnid == run[i].mti + 1)
          || (nometasync && run[i].dmetas != run[i].metas && m.txnid == run[i].mti - 1))
  {
    RunInv(nometasync, run, steps, i);
    StepIs(nometasync, run, steps, i);
    CrashPoint(nometasync, run[i], run[i + 1], steps[i].disk, steps[i].dmetas);
  }

  // ---------------------------------------------------------------- conservation

  ghost function SumSizes(db: map<Txnid, set<Pgno>>, keys: set<Txnid>): nat
    requires keys <= db.Keys
  {
    if keys == {} then 0 else var k :| k in keys; |db[k]| + SumSizes(db, keys - {k})
  }

  ghost function UnionOf(db: map<Txnid, set<Pgno>>, keys: set<Txnid>): set<Pgno>
    requires keys <= db.Keys
  {
    set k, p | k in keys && p in db[k] :: p
  }

  lemma {:induction false} SumIsUnion(db: map<Txnid, set<Pgno>>, keys: set<Txnid>)
    requires keys <= db.Keys && DisjointRecords(db)
    ensures SumSizes(db, keys) == |UnionOf(db, keys)|
  {
    if keys == {} {
      assert UnionOf(db, keys) == {};
    } else {
      var k :| k in keys && SumSizes(db, keys) == |db[k]| + SumSizes(db, keys - {k});
      SumIsUnion(db, keys - {k});
      assert UnionOf(db, keys) == UnionOf(db, keys - {k}) + db[k];
      assert UnionOf(db, keys - {k}) !! db[k];
    }
  }

  function UpTo(n: nat): (r: set<Pgno>)
    ensures forall p: nat :: p in r <==> p < n
    ensures |r| == n
  {
    if n == 0 then {} else UpTo(n - 1) + {n - 1}
  }

  lemma PartitionSize(tree: set<Pgno>, R: set<Pgno>, next: Pgno)
    requires tree !! R && 2 <= next
    requires forall p :: p in tree + R <==> 2 <= p < next
    ensures |R| + |tree| + 2 == next
  {
    assert UpTo(next) == tree + R + {0, 1};
    assert |tree + R + {0, 1}| == |tree + R| + |{0, 1}|;
    assert |tree + R| == |tree| + |R|;
  }

  lemma SavedBalances(w: Writer)
    requires Partition(w.tree, {}, {}, w.freedb, 0, w.next) && 2 <= w.next
    requires KeysUpTo(w.freedb, w.id)
    ensures SumSizes(w.freedb, w.freedb.Keys) + |w.tree| + 2 == w.next
  {
    var R := Rest(w.freedb, 0);
    SumIsUnion(w.freedb, w.freedb.Keys);
    assert UnionOf(w.freedb, w.freedb.Keys) == R;
    assert w.tree + {} + {} + R == w.tree + R;
    PartitionSize(w.tree, R, w.next);
  }

  /** The pages that the transaction reaches from its roots, through its dirty list and the map. */
  ghost predicate InTrees(s: State, w: Writer, p: Pgno) { Reached(View(s.mem, w), w.roots, p) }

  /**
   * At every moment of a write transaction no page is lost and none is in two places: the pages that its roots lead to,
   * mt_free_pgs, me_pghead and the unread records partition the pages from 2 on.  So they do with the lists and the page
   * state that are kept for each suspended ancestor.
   */
  lemma Conservation(nometasync: bool, run: seq<State>, steps: seq<Step>, i: nat)
    requires Run(nometasync, run, steps) && i < |run| && run[i].w.Some?
    ensures var w := run[i].w.value;
      && (forall p :: p in w.tree <==> InTrees(run[i], w, p))
      && Partition(w.tree, w.freed, w.head, w.freedb, w.pglast, w.next)
    ensures forall a :: a in run[i].outer ==>
      && (forall p :: p in a.tree <==> InTrees(run[i], a, p))
      && Partition(a.tree, a.freed, a.head, a.freedb, a.pglast, a.next)
  {
    RunInv(nometasync, run, steps, i);
    forall a | a == run[i].w.value || a in run[i].outer
      ensures (forall p :: p in a.tree <==> InTrees(run[i], a, p)) && Partition(a.tree, a.freed, a.head, a.freedb, a.pglast, a.next)
    {
      TreeReached(run[i], Guarded(run[i]), a);
    }
  }

  lemma TreeReached(s: State, g: map<Txnid, Version>, w: Writer)
    requires WriterOk(s, g, w)
    ensures (forall p :: p in w.tree <==> InTrees(s, w, p)) && Partition(w.tree, w.freed, w.head, w.freedb, w.pglast, w.next)
  {
    TreesReached(View(s.mem, w), w.roots, View(s.mem, w), w.height);
  }

  /** What ancestor a sees of the file and its dirty list, through a step of its descendant. */
  lemma StepUnder(nometasync: bool, s: State, s': State, step: Step, a: Writer)
    requires Inv(nometasync, s) && NextStep(nometasync, s, s', step) && a in s.outer && !step.Crash?
    ensures View(s'.mem, a) == View(s.mem, a)
  {
    StepKind(nometasync, s, s', step);
    if step.WritePage? { WriteUnderInv(nometasync, s, s', step.p, a); }
  }

  lemma WriteUnderInv(nometasync: bool, s: State, s': State, p: Pgno, a: Writer)
    requires Inv(nometasync, s) && WritePageStep(s, s', p) && a in s.outer
    ensures View(s'.mem, a) == View(s.mem, a)
  {
    WriteUnder(s, s', Guarded(s), p, a);
  }

  lemma StepKind(nometasync: bool, s: State, s': State, step: Step)
    requires WellShaped(s) && NextStep(nometasync, s, s', step) && !step.Crash?
    ensures if step.WritePage? then WritePageStep(s, s', step.p) else s'.mem == s.mem
  {
    if !CommitNext(nometasync, s, s', step) { QuietHistory(s, s', step); }
  }

  lemma WriteUnder(s: State, s': State, g: map<Txnid, Version>, p: Pgno, a: Writer)
    requires WritePageStep(s, s', p) && a in s.outer && OuterOk(s, g) && WriterOk(s, g, s.w.value)
    ensures View(s'.mem, a) == View(s.mem, a)
  {
    WritePageOuter(s, s', g, p, s.w.value, a);
  }

  /**
   * While a transaction has a child, whatever the child does, spilling included, its own pages stay as they are: what it
   * sees when it goes on after an abort is what it saw before.
   */
  lemma {:induction false} ParentUntouched(nometasync: bool, run: seq<State>, steps: seq<Step>, i: nat, j: nat, a: Writer)
    requires Run(nometasync, run, steps) && i <= j < |run| && forall k :: i <= k < j ==> a in run[k].outer && !steps[k].Crash?
    ensures View(run[j].mem, a) == View(run[i].mem, a)
  {
    if i < j {
      ParentUntouched(nometasync, run, steps, i, j - 1, a);
      UnderAt(nometasync, run, steps, j - 1, a);
    }
  }

  lemma UnderAt(nometasync: bool, run: seq<State>, steps: seq<Step>, k: nat, a: Writer)
    requires Run(nometasync, run, steps) && k < |steps| && a in run[k].outer && !steps[k].Crash?
    ensures View(run[k + 1].mem, a) == View(run[k].mem, a)
  {
    RunInv(nometasync, run, steps, k);
    assert StepAt(nometasync, run, steps, k);
    StepUnder(nometasync, run[k], run[k + 1], steps[k], a);
  }

  /** The equation mdb_audit checks once the free lists are saved: record lengths, pages that the roots lead to and the
      two meta pages add up to mt_next_pgno. */
  lemma AuditBalances(nometasync: bool, run: seq<State>, steps: seq<Step>, i: nat, tree: set<Pgno>)
    requires Run(nometasync, run, steps) && i < |run| && InStage(run[i], Saved)
    requires forall p :: p in tree <==> InTrees(run[i], run[i].w.value, p)
    ensures var w := run[i].w.value;
      SumSizes(w.freedb, w.freedb.Keys) + |tree| + 2 == w.next
  {
    Conservation(nometasync, run, steps, i);
    assert tree == run[i].w.value.tree;
    RunInv(nometasync, run, steps, i);
    SavedWriter(run[i], Guarded(run[i]), run[i].w.value);
  }

  lemma SavedWriter(s: State, g: map<Txnid, Version>, w: Writer)
    requires GuardOk(s.mem, g, s.mti) && WriterOk(s, g, w) && w.stage == Saved
    ensures SumSizes(w.freedb, w.freedb.Keys) + |w.tree| + 2 == w.next
  {
    assert VersionOk(g[s.mti]);
    SavedBalances(w);
  }
}
