/** What is always possible: a reader begins, a page is copied, pages are given back, a transaction commits. */
module MvccProgress {
  import opened Mvcc
  import opened MvccInvariant
  import opened MvccWriter
  import opened MvccDisk
  import opened MvccSafety
  import opened MvccLaws
  import TreeChanges

  /** State s is one that a run comes to. */
  ghost predicate Reachable(nometasync: bool, s: State) { exists run, steps :: EndsIn(nometasync, run, steps, s) }

  ghost predicate EndsIn(nometasync: bool, run: seq<State>, steps: seq<Step>, s: State) {
    Run(nometasync, run, steps) && run[|run| - 1] == s
  }

  /** From there t is n steps away. */
  ghost predicate Reaches(nometasync: bool, s: State, t: State, n: nat)
    decreases n
  {
    if n == 0 then t == s else exists step, u :: Leads(nometasync, s, u, step) && Reaches(nometasync, u, t, n - 1)
  }

  ghost predicate Leads(nometasync: bool, s: State, t: State, step: Step) { WellShaped(s) && NextStep(nometasync, s, t, step) }

  lemma ReachedInv(nometasync: bool, s: State)
    requires Reachable(nometasync, s)
    ensures Inv(nometasync, s)
  {
    var run, steps :| EndsIn(nometasync, run, steps, s);
    RunInv(nometasync, run, steps, |run| - 1);
  }

  lemma Further(nometasync: bool, s: State, t: State, step: Step)
    requires Reachable(nometasync, s) && Leads(nometasync, s, t, step)
    ensures Reachable(nometasync, t)
  {
    ShapeKept(nometasync, s, t, step);
    var run, steps :| EndsIn(nometasync, run, steps, s);
    Longer(nometasync, run, steps, t, step);
    assert EndsIn(nometasync, run + [t], steps + [step], t);
  }

  lemma ShapeKept(nometasync: bool, s: State, t: State, step: Step)
    requires Reachable(nometasync, s) && Leads(nometasync, s, t, step)
    ensures WellShaped(t)
  {
    ReachedInv(nometasync, s);
    StepKeeps(nometasync, s, t, step);
  }

  lemma Longer(nometasync: bool, run: seq<State>, steps: seq<Step>, t: State, step: Step)
    requires Run(nometasync, run, steps) && Leads(nometasync, run[|run| - 1], t, step) && WellShaped(t)
    ensures Run(nometasync, run + [t], steps + [step])
  {
    var run', steps' := run + [t], steps + [step];
    forall i | 0 <= i < |steps'| ensures StepAt(nometasync, run', steps', i) {
      if i < |steps| { assert StepAt(nometasync, run, steps, i); }
    }
  }

  lemma First(nometasync: bool, s: State, u: State, step: Step, t: State, n: nat)
    requires Leads(nometasync, s, u, step) && Reaches(nometasync, u, t, n)
    ensures Reaches(nometasync, s, t, n + 1)
  {
  }

  /** What the invariant says about such a state, as far as it is needed here. */
  lemma Known(nometasync: bool, s: State)
    requires Reachable(nometasync, s)
    ensures WellShaped(s) && (InStage(s, Synced) ==> s.dmetas == s.metas)
    ensures s.w.Some? ==> TreeOk(s.mem, s.w.value) && (s.w.value.head != {} ==> 0 < s.w.value.pglast)
    ensures s.mti in s.hist && s.metas[s.mti % 2] == MetaOf(s.mti, s.hist[s.mti])
  {
    ReachedInv(nometasync, s);
    assert MetaOk(s.hist, s.safe, s.metas[s.mti % 2], s.mti % 2);
  }

  lemma Kept(nometasync: bool, s: State, t: State, step: Step)
    requires Reachable(nometasync, s) && Leads(nometasync, s, t, step) && s.w.Some? && t.w.Some? && !Alters(step)
    ensures View(t.mem, t.w.value) == View(s.mem, s.w.value) && t.w.value.roots == s.w.value.roots && t.w.value.id == s.w.value.id
  {
    ReachedInv(nometasync, s);
    ViewKept(nometasync, s, t, step);
  }

  // ---------------------------------------------------------------- readers

  /** A reader can begin at any time, whatever the writer and other readers do, and then has the last version. */
  lemma ReaderNeverWaits(nometasync: bool, s: State) returns (t: State, i: nat)
    requires Reachable(nometasync, s)
    ensures Reaches(nometasync, s, t, 2) && t == s.(slots := t.slots) && |t.slots| == |s.slots| + 1 && t.slots[..|s.slots|] == s.slots
    ensures i < |t.slots| && s.mti in s.hist && t.slots[i].reader == Some(ReadTxn(s.mti, s.hist[s.mti].roots))
  {
    Known(nometasync, s);
    i := |s.slots|;
    var u := TakeSlot(nometasync, s);
    t := TakeReader(nometasync, u, i);
    First(nometasync, u, t, BeginRead(i), t, 0);
    First(nometasync, s, u, Acquire(i), t, 1);
  }

  lemma TakeSlot(nometasync: bool, s: State) returns (t: State)
    requires WellShaped(s)
    ensures Leads(nometasync, s, t, Acquire(|s.slots|)) && t == s.(slots := s.slots + [Slot(true, Idle, None)])
  {
    t := s.(slots := s.slots + [Slot(true, Idle, None)]);
    assert ReaderNext(s, t, Acquire(|s.slots|));
  }

  lemma TakeReader(nometasync: bool, s: State, i: nat) returns (t: State)
    requires WellShaped(s) && i < |s.slots| && s.slots[i].pid && s.slots[i].reader.None?
    ensures Leads(nometasync, s, t, BeginRead(i))
    ensures t == s.(slots := s.slots[i := Slot(true, At(s.mti), Some(ReadTxn(s.mti, s.metas[s.mti % 2].roots)))])
  {
    t := s.(slots := s.slots[i := Slot(true, At(s.mti), Some(ReadTxn(s.mti, s.metas[s.mti % 2].roots)))]);
    assert ReaderNext(s, t, BeginRead(i));
  }

  /** A writer can begin whenever there is none, whatever readers there are, and then sees the last version. */
  lemma WriterNeverWaits(nometasync: bool, s: State) returns (t: State)
    requires Reachable(nometasync, s) && s.w.None?
    ensures Leads(nometasync, s, t, BeginWrite) && InStage(t, Active) && t == s.(w := t.w)
    ensures s.mti in s.hist && View(t.mem, t.w.value) == s.hist[s.mti].pages && t.w.value.roots == s.hist[s.mti].roots
  {
    Known(nometasync, s);
    t := TakeBegin(nometasync, s);
    ReachedInv(nometasync, s);
    BeginsWithLast(nometasync, s, t);
  }

  lemma TakeBegin(nometasync: bool, s: State) returns (t: State)
    requires WellShaped(s) && s.w.None? && s.mti in s.hist
    ensures Leads(nometasync, s, t, BeginWrite) && BeginWriteStep(s, t) && InStage(t, Active) && t == s.(w := t.w)
  {
    var v := s.hist[s.mti];
    t := s.(w := Some(Writer(s.mti + 1, Active, NoScan, s.metas[s.mti % 2].roots, v.pages.Keys, v.height,
                             map[], {}, {}, {}, {}, 0, s.metas[s.mti % 2].next, v.freedb)));
    assert ScanNext(s, t, BeginWrite);
  }

  // ---------------------------------------------------------------- the active writer

  /** Any clean page with a dirty parent, and any clean root, can be copied. */
  lemma CanTouch(nometasync: bool, s: State, p: Pgno) returns (t: State)
    requires Reachable(nometasync, s) && InStage(s, Active)
    requires var w := s.w.value; p in w.tree && p !in w.dirty && p !in w.spilled
    requires var w := s.w.value; p in w.roots || exists a :: a in w.dirty && Parent(View(s.mem, w), a, p)
    ensures TouchStep(s, t, p, s.w.value.next)
  {
    Known(nometasync, s);
    t := TakeTouch(s, p);
  }

  lemma TakeTouch(s: State, p: Pgno) returns (t: State)
    requires InStage(s, Active) && TreeOk(s.mem, s.w.value)
    requires var w := s.w.value; p in w.tree && p !in w.dirty && p !in w.spilled
    requires var w := s.w.value; p in w.roots || exists a :: a in w.dirty && Parent(View(s.mem, w), a, p)
    ensures TouchStep(s, t, p, s.w.value.next)
  {
    var w := s.w.value;
    assert p in View(s.mem, w);
    t := s.(w := Some(Changed(w, Touching(s.mem, w, p, w.next), w.next + 1)));
    assert CanTake(w, {w.next}, w.next + 1);
  }

  /**
   * When overflow pages leave a leaf they can be given back to me_pghead if and only if the transaction has no parent, it has
   * read freeDB records, and the pages are its own, dirty or spilled (mdb.c:4951-4954).  To mt_free_pgs they always can go.
   */
  lemma GivenBackExactly(nometasync: bool, s: State, p: Pgno, qs: set<Pgno>, cp: int)
    requires Reachable(nometasync, s) && InStage(s, Active) && qs != {} && p in s.w.value.dirty && p in s.w.value.tree
    requires var v := View(s.mem, s.w.value); p in v && qs <= v[p].kids && forall q :: q in qs && q in v ==> v[q].kids == {}
    ensures var w := s.w.value; var v := View(s.mem, w);
      && ((exists t :: ChangeStep(s, t, TreeChanges.Detach(v, w.roots, p, qs, cp, true))) <==>
            s.outer == [] && 0 < w.pglast && qs <= w.dirty.Keys + w.spilled)
      && exists t :: ChangeStep(s, t, TreeChanges.Detach(v, w.roots, p, qs, cp, false))
  {
    var w := s.w.value;
    Known(nometasync, s);
    DetachCan(s.mem, w, p, qs, cp, true);
    DetachCan(s.mem, w, p, qs, cp, false);
    var v := View(s.mem, w);
    Changes(s, TreeChanges.Detach(v, w.roots, p, qs, cp, true));
    Changes(s, TreeChanges.Detach(v, w.roots, p, qs, cp, false));
  }

  /** An operation without new pages. */
  lemma Changes(s: State, c: TreeChange)
    requires InStage(s, Active) && c.New() == {} && KeepsLinks(s.w.value.roots, View(s.mem, s.w.value), s.w.value.height, c)
    ensures (exists t :: ChangeStep(s, t, c)) <==> CanChange(s.w.value, c) && (c.back != {} ==> s.outer == [])
  {
    var w := s.w.value;
    assert CanTake(w, {}, w.next);
    if CanChange(w, c) && (c.back != {} ==> s.outer == []) { assert ChangeStep(s, s.(w := Some(Changed(w, c, w.next))), c); }
  }

  lemma DetachCan(mem: map<Pgno, Page>, w: Writer, p: Pgno, qs: set<Pgno>, cp: int, own: bool)
    requires TreeOk(mem, w) && qs != {} && p in w.dirty && p in w.tree
    requires var v := View(mem, w); p in v && qs <= v[p].kids && forall q :: q in qs && q in v ==> v[q].kids == {}
    ensures var c := TreeChanges.Detach(View(mem, w), w.roots, p, qs, cp, own);
      && c.New() == {} && c.back == (if own then qs else {}) && KeepsLinks(w.roots, View(mem, w), w.height, c)
      && (CanChange(w, c) <==> !own || (0 < w.pglast && qs <= w.dirty.Keys + w.spilled))
  {
    var v := View(mem, w);
    TreeChanges.DetachKeeps(w.roots, v, w.height, p, qs, cp, own);
    forall q | q in qs ensures q in w.tree && q != p {
      assert Parent(v, p, q);
    }
  }

  // ---------------------------------------------------------------- commit

  lemma TakeSave(s: State, recs: map<Txnid, set<Pgno>>) returns (t: State)
    requires InStage(s, Active) && s.outer == []
    requires (forall k :: k in recs ==> 1 <= k <= s.w.value.pglast) && DisjointRecords(recs) && Rest(recs, 0) == s.w.value.head
    ensures TreeNext(s, t, SaveFreelist(recs)) && InStage(t, Saved) && t.w.value.dirty == s.w.value.dirty
    ensures t == s.(w := t.w)
  {
    var w := s.w.value;
    t := s.(w := Some(w.(stage := Saved, freed := {}, head := {}, pglast := 0, freedb := SavedRecords(w, recs))));
  }

  lemma TakeWrite(s: State, p: Pgno) returns (t: State)
    requires InStage(s, Saved) && s.outer == [] && p in s.w.value.dirty
    ensures FileNext(s, t, WritePage(p)) && InStage(t, Saved) && t.w.value.dirty == s.w.value.dirty - {p}
    ensures t == s.(mem := t.mem, pend := t.pend, w := t.w)
  {
    var w := s.w.value;
    t := s.(mem := s.mem[p := w.dirty[p]], pend := PendAdd(s.pend, p, w.dirty[p]),
            w := Some(w.(dirty := w.dirty - {p}, spilled := w.spilled + {p})));
  }

  lemma TakeSync(s: State) returns (t: State)
    requires InStage(s, Saved) && s.w.value.dirty == map[]
    ensures FileNext(s, t, SyncData) && t == s.(disk := t.disk, pend := t.pend, dmetas := s.metas, w := t.w)
    ensures t.w == Some(s.w.value.(stage := Synced))
  {
    t := s.(disk := s.mem, pend := map[], dmetas := s.metas, w := Some(s.w.value.(stage := Synced)));
  }

  lemma TakeMeta(s: State) returns (t: State)
    requires WellShaped(s) && InStage(s, Synced)
    ensures CommitNext(false, s, t, WriteMeta) && WriteMetaStep(s, t) && t.w == Some(s.w.value.(stage := MetaWritten))
    ensures t == s.(metas := t.metas, hist := t.hist, safe := t.safe, w := t.w) && |t.metas| == 2
    ensures t.metas == s.metas[s.w.value.id % 2 := t.metas[s.w.value.id % 2]]
  {
    var w, v := s.w.value, Committed(s, s.w.value);
    t := s.(metas := s.metas[w.id % 2 := MetaOf(w.id, v)], hist := s.hist[w.id := v],
            safe := s.safe + {w.id}, w := Some(w.(stage := MetaWritten)));
  }

  lemma TakeDurable(s: State) returns (t: State)
    requires WellShaped(s) && InStage(s, MetaWritten)
    ensures CommitNext(false, s, t, MetaDurable) && t == s.(dmetas := s.dmetas[s.w.value.id % 2 := s.metas[s.w.value.id % 2]])
  {
    t := s.(dmetas := s.dmetas[s.w.value.id % 2 := s.metas[s.w.value.id % 2]]);
  }

  lemma TakePublish(s: State) returns (t: State)
    requires WellShaped(s) && InStage(s, MetaWritten) && s.dmetas == s.metas
    ensures CommitNext(false, s, t, Publish) && t == s.(mti := s.w.value.id, w := None, safe := t.safe)
  {
    t := s.(mti := s.w.value.id, w := None, safe := {s.mti, s.w.value.id});
  }

  lemma Next(nometasync: bool, s: State, t: State, step: Step)
    requires WellShaped(s) && (TreeNext(s, t, step) || FileNext(s, t, step) || CommitNext(false, s, t, step))
    ensures Leads(nometasync, s, t, step)
  {
    if CommitNext(false, s, t, step) { CommitEither(nometasync, s, t, step); }
  }

  lemma CommitEither(nometasync: bool, s: State, t: State, step: Step)
    requires WellShaped(s) && CommitNext(false, s, t, step)
    ensures CommitNext(nometasync, s, t, step)
  {
  }

  /** A step that has been built is one that is taken, and comes to a state with the same view. */
  lemma Taking(nometasync: bool, s: State, t: State, step: Step)
    requires Reachable(nometasync, s) && (TreeNext(s, t, step) || FileNext(s, t, step) || CommitNext(false, s, t, step))
    requires WellShaped(s) && s.w.Some? && t.w.Some? && !Alters(step)
    ensures Leads(nometasync, s, t, step) && Reachable(nometasync, t) && WellShaped(t)
    ensures View(t.mem, t.w.value) == View(s.mem, s.w.value) && t.w.value.roots == s.w.value.roots && t.w.value.id == s.w.value.id
  {
    Next(nometasync, s, t, step);
    Further(nometasync, s, t, step);
    Kept(nometasync, s, t, step);
    Known(nometasync, t);
  }

  /** The new version is that of transaction w as it stands in s, and no reader has had to move. */
  ghost predicate Done(s: State, t: State) {
    && s.w.Some? && t.w.None? && t.slots == s.slots && t.mti == s.w.value.id && t.mti in t.hist
    && t.hist[t.mti].pages == View(s.mem, s.w.value) && t.hist[t.mti].roots == s.w.value.roots
  }

  /** The same transaction, seeing the same. */
  ghost predicate Same(s: State, t: State) {
    && s.w.Some? && t.w.Some? && t.slots == s.slots && t.w.value.id == s.w.value.id
    && View(t.mem, t.w.value) == View(s.mem, s.w.value) && t.w.value.roots == s.w.value.roots
  }

  lemma CanEnd(nometasync: bool, s: State, id: Txnid) returns (t: State)
    requires WellShaped(s) && InStage(s, MetaWritten) && id == s.w.value.id && s.dmetas == s.metas[id % 2 := s.dmetas[id % 2]]
    ensures Reaches(nometasync, s, t, 2) && t.w.None? && t.slots == s.slots && t.mti == id && t.hist == s.hist
  {
    var c := TakeDurable(s);
    Next(nometasync, s, c, MetaDurable);
    t := TakePublish(c);
    Next(nometasync, c, t, Publish);
    First(nometasync, c, t, Publish, t, 0);
    First(nometasync, s, c, MetaDurable, t, 1);
  }

  lemma CanRecord(nometasync: bool, s: State) returns (t: State)
    requires Reachable(nometasync, s) && InStage(s, Synced)
    ensures Reaches(nometasync, s, t, 3) && Done(s, t)
  {
    Known(nometasync, s);
    var b := TakeMeta(s);
    Taking(nometasync, s, b, WriteMeta);
    RecordIsView(nometasync, s, b);
    t := CanEnd(nometasync, b, s.w.value.id);
    First(nometasync, s, b, WriteMeta, t, 2);
  }

  lemma RecordIsView(nometasync: bool, s: State, b: State)
    requires Reachable(nometasync, s) && WellShaped(s) && WriteMetaStep(s, b)
    ensures var w := s.w.value; w.id in b.hist && b.hist[w.id].pages == View(s.mem, w) && b.hist[w.id].roots == w.roots
  {
    ReachedInv(nometasync, s);
    WrittenIsView(s, b, Guarded(s), s.w.value);
  }

  /** From the saved free lists on: one page after the other is written, then sync, meta page, publish. */
  lemma {:induction false} CanFinish(nometasync: bool, s: State) returns (t: State, n: nat)
    requires Reachable(nometasync, s) && InStage(s, Saved) && s.outer == []
    ensures Reaches(nometasync, s, t, n) && n == |s.w.value.dirty| + 4 && Done(s, t)
    decreases |s.w.value.dirty|
  {
    if s.w.value.dirty == map[] {
      var u := CanSync(nometasync, s);
      t := CanRecord(nometasync, u);
      n := 3;
      First(nometasync, s, u, SyncData, t, n);
      n := n + 1;
    } else {
      var p :| p in s.w.value.dirty;
      var u := CanWrite(nometasync, s, p);
      t, n := CanFinish(nometasync, u);
      First(nometasync, s, u, WritePage(p), t, n);
      n := n + 1;
    }
  }

  lemma CanSync(nometasync: bool, s: State) returns (t: State)
    requires Reachable(nometasync, s) && InStage(s, Saved) && s.w.value.dirty == map[]
    ensures Reachable(nometasync, t) && Leads(nometasync, s, t, SyncData) && InStage(t, Synced) && Same(s, t)
  {
    Known(nometasync, s);
    t := TakeSync(s);
    Taking(nometasync, s, t, SyncData);
  }

  lemma CanWrite(nometasync: bool, s: State, p: Pgno) returns (t: State)
    requires Reachable(nometasync, s) && InStage(s, Saved) && s.outer == [] && p in s.w.value.dirty
    ensures Reachable(nometasync, t) && Leads(nometasync, s, t, WritePage(p)) && Same(s, t)
    ensures InStage(t, Saved) && t.outer == [] && |t.w.value.dirty| == |s.w.value.dirty| - 1
  {
    Known(nometasync, s);
    t := TakeWrite(s, p);
    Taking(nometasync, s, t, WritePage(p));
    Without(s.w.value.dirty, p);
  }

  lemma Without(m: map<Pgno, Page>, p: Pgno)
    requires p in m
    ensures |m - {p}| == |m| - 1
  {
    assert m == (m - {p})[p := m[p]];
  }

  /** The free lists can be saved: all of me_pghead in one record. */
  lemma CanSave(nometasync: bool, s: State) returns (t: State, step: Step)
    requires Reachable(nometasync, s) && InStage(s, Active) && s.outer == []
    ensures Reachable(nometasync, t) && Leads(nometasync, s, t, step) && Same(s, t) && InStage(t, Saved) && t.outer == []
    ensures t.w.value.dirty == s.w.value.dirty
  {
    Known(nometasync, s);
    var w := s.w.value;
    var recs := if w.head == {} then map[] else map[w.pglast := w.head];
    OneRecord(w, recs);
    step := SaveFreelist(recs);
    t := TakeSave(s, recs);
    Taking(nometasync, s, t, step);
  }

  lemma OneRecord(w: Writer, recs: map<Txnid, set<Pgno>>)
    requires recs == (if w.head == {} then map[] else map[w.pglast := w.head]) && (w.head != {} ==> 0 < w.pglast)
    ensures Rest(recs, 0) == w.head
  {
    forall p | p in w.head ensures p in Rest(recs, 0) { assert w.pglast in recs && p in recs[w.pglast]; }
  }

  /**
   * A write transaction can commit from wherever it stands, whatever readers there are, and what it sees becomes the last
   * version.
   */
  lemma CanCommit(nometasync: bool, s: State) returns (t: State, n: nat)
    requires Reachable(nometasync, s) && InStage(s, Active) && s.outer == []
    ensures Reaches(nometasync, s, t, n) && n == |s.w.value.dirty| + 5 && Done(s, t)
  {
    var u, save := CanSave(nometasync, s);
    t, n := CanFinish(nometasync, u);
    First(nometasync, s, u, save, t, n);
    n := n + 1;
  }
}
