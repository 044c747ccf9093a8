/** What the steps of the protocol mean: what the slot scan answers, what a transaction sees, what a commit makes of it. */
module MvccLaws {
  import opened Mvcc
  import opened MvccInvariant
  import opened MvccWriter
  import opened MvccDisk
  import opened MvccSafety

  lemma Taken(nometasync: bool, run: seq<State>, steps: seq<Step>, i: nat)
    requires Run(nometasync, run, steps) && i < |steps|
    ensures WellShaped(run[i]) && Means(nometasync, run[i], run[i + 1], steps[i])
  {
    assert StepAt(nometasync, run, steps, i);
    Meant(nometasync, run[i], run[i + 1], steps[i]);
  }

  lemma Meant(nometasync: bool, s: State, s': State, step: Step)
    requires WellShaped(s) && NextStep(nometasync, s, s', step)
    ensures Means(nometasync, s, s', step)
  {
  }

  ghost predicate Means(nometasync: bool, s: State, s': State, step: Step)
    requires |s.metas| == 2
  {
    match step
    case ScanStart => ScanStartStep(s, s')
    case ScanSlot => ScanSlotStep(s, s')
    case BeginRead(i) => BeginReadStep(s, s', i)
    case WriteMeta => WriteMetaStep(s, s')
    case Publish => PublishStep(nometasync, s, s')
    case NestBegin => NestBeginStep(s, s')
    case NestCommit => NestCommitStep(s, s')
    case NestAbort => NestAbortStep(s, s')
    case WritePage(p) => WritePageStep(s, s', p)
    case Unspill(p) => UnspillStep(s, s', p)
    case _ => true
  }

  // ---------------------------------------------------------------- the slot scan

  /** Slot n asks to keep the records from m on: it has a process, and its mark is m. */
  ghost predicate Marks(slots: seq<Slot>, n: nat, m: Txnid) { n < |slots| && slots[n].pid && slots[n].mark == At(m) }

  /** It does so from state i to state j - 1. */
  ghost predicate Holds(run: seq<State>, i: nat, j: nat, n: nat, m: Txnid) {
    i < j <= |run| && forall k :: i <= k < j ==> Marks(run[k].slots, n, m)
  }

  /** Some slot did at some time between. */
  ghost predicate Seen(run: seq<State>, i: nat, j: nat, m: Txnid) {
    exists k: nat, n: nat :: i < k < j < |run| && Marks(run[k].slots, n, m)
  }

  /** One call of mdb_find_oldest: it starts with step i and has come to state j; other processes may do anything. */
  ghost predicate Scans(run: seq<State>, steps: seq<Step>, i: nat, j: nat) {
    && i < j < |run| && |run| == |steps| + 1 && steps[i].ScanStart?
    && forall k :: i < k < j ==> steps[k].ScanSlot? || run[k + 1].w == run[k].w
  }

  /** oldest is right for the slots from n on. */
  ghost predicate OldestFrom(run: seq<State>, i: nat, j: nat, last: int, n: nat, oldest: Txnid) {
    && oldest <= last && (oldest == last || Seen(run, i, j, oldest))
    && forall k, m :: n <= k && Holds(run, i, j, k, m) ==> oldest <= m
  }

  ghost predicate ScanTold(run: seq<State>, i: nat, j: nat) {
    && i < j < |run| && run[i].w.Some? && run[j].w.Some? && run[j].w.value.id == run[i].w.value.id
    && match run[j].w.value.scan
       case NoScan => false
       case Scanning(n, oldest) => OldestFrom(run, i, j, run[i].w.value.id - 1, n, oldest)
       case Scanned(oldest) => OldestFrom(run, i, j, run[i].w.value.id - 1, 0, oldest)
  }

  lemma OldestLater(run: seq<State>, i: nat, j: nat, last: int, n: nat, oldest: Txnid)
    requires i < j < |run| - 1 && OldestFrom(run, i, j, last, n, oldest)
    ensures OldestFrom(run, i, j + 1, last, n, oldest)
  {
    if oldest != last {
      var k: nat, h: nat :| i < k < j && Marks(run[k].slots, h, oldest);
      assert Marks(run[k].slots, h, oldest);
    }
    var e := j + 1;
    forall k, m | n <= k && Holds(run, i, e, k, m) ensures oldest <= m { assert Holds(run, i, j, k, m); }
  }

  /** One more slot is read, at state j. */
  lemma OldestNext(run: seq<State>, i: nat, j: nat, last: int, n: nat, oldest: Txnid, next: Txnid)
    requires i < j < |run| - 1 && OldestFrom(run, i, j, last, n, oldest) && 0 < n <= |run[j].slots|
    requires var r := run[j].slots[n - 1]; next == if r.pid && r.mark.At? && oldest > r.mark.txnid then r.mark.txnid else oldest
    ensures OldestFrom(run, i, j + 1, last, n - 1, next)
  {
    OldestLater(run, i, j, last, n, oldest);
    if next != oldest { assert Marks(run[j].slots, n - 1, next); }
    var e, from := j + 1, n - 1;
    forall k, m | from <= k && Holds(run, i, e, k, m) ensures next <= m {
      assert Marks(run[j].slots, k, m);
      if k >= n { assert oldest <= m; }
    }
  }

  lemma {:induction false} ScanSoFar(nometasync: bool, run: seq<State>, steps: seq<Step>, i: nat, j: nat)
    requires Run(nometasync, run, steps) && Scans(run, steps, i, j)
    ensures ScanTold(run, i, j)
  {
    if j == i + 1 {
      Taken(nometasync, run, steps, i);
      ScanBegins(run, i);
    } else {
      ScanSoFar(nometasync, run, steps, i, j - 1);
      Taken(nometasync, run, steps, j - 1);
      ScanGoesOn(run, steps[j - 1], i, j - 1);
    }
  }

  lemma ScanBegins(run: seq<State>, i: nat)
    requires i + 1 < |run| && ScanStartStep(run[i], run[i + 1])
    ensures ScanTold(run, i, i + 1)
  {
    var e := i + 1;
    forall k: nat, m: Txnid | Holds(run, i, e, k, m) ensures k < |run[i].slots| { assert Marks(run[i].slots, k, m); }
  }

  lemma ScanGoesOn(run: seq<State>, step: Step, i: nat, j: nat)
    requires j + 1 < |run| && ScanTold(run, i, j)
    requires (step.ScanSlot? && ScanSlotStep(run[j], run[j + 1])) || run[j + 1].w == run[j].w
    ensures ScanTold(run, i, j + 1)
  {
    var w, last := run[j].w.value, run[i].w.value.id - 1;
    var n := if w.scan.Scanning? then w.scan.i else 0;
    OldestLater(run, i, j, last, n, w.scan.oldest);
    if run[j + 1].w != run[j].w && n > 0 {
      OldestNext(run, i, j, last, n, w.scan.oldest, run[j + 1].w.value.scan.oldest);
    }
  }

  /**
   * What mdb_find_oldest answers, whatever the readers do meanwhile: at most the transaction's id - 1 and the mark of
   * every slot that keeps it through the call, and one of id - 1 and the marks there were.
   */
  lemma OldestBounds(nometasync: bool, run: seq<State>, steps: seq<Step>, i: nat, j: nat)
    requires Run(nometasync, run, steps) && Scans(run, steps, i, j) && run[j].w.Some? && run[j].w.value.scan.Scanned?
    ensures run[i].w.Some? && run[j].w.value.id == run[i].w.value.id
    ensures OldestFrom(run, i, j, run[j].w.value.id - 1, 0, run[j].w.value.scan.oldest)
  {
    ScanSoFar(nometasync, run, steps, i, j);
  }

  /** While no slot changes: the minimum of id - 1 and all marks. */
  lemma OldestIsMinimum(nometasync: bool, run: seq<State>, steps: seq<Step>, i: nat, j: nat)
    requires Run(nometasync, run, steps) && Scans(run, steps, i, j) && run[j].w.Some? && run[j].w.value.scan.Scanned?
    requires forall k :: i <= k <= j ==> run[k].slots == run[j].slots
    ensures var w := run[j].w.value; var oldest := w.scan.oldest;
      && oldest <= w.id - 1 && (forall n, m :: Marks(run[j].slots, n, m) ==> oldest <= m)
      && (oldest == w.id - 1 || exists n :: Marks(run[j].slots, n, oldest))
  {
    OldestBounds(nometasync, run, steps, i, j);
    var w := run[j].w.value;
    forall n, m | Marks(run[j].slots, n, m) ensures w.scan.oldest <= m { assert Holds(run, i, j, n, m); }
    if w.scan.oldest != w.id - 1 {
      var k: nat, n: nat :| i < k < j && Marks(run[k].slots, n, w.scan.oldest);
      assert Marks(run[j].slots, n, w.scan.oldest);
    }
  }

  /** The first record that has not been read. */
  ghost predicate NextRecord(w: Writer, k: Txnid) {
    k in w.freedb && w.pglast < k && forall j :: j in w.freedb && w.pglast < j ==> k <= j
  }

  /** After such a scan the next record can be reclaimed if and only if it is older than the last version and all marks. */
  lemma ReclaimExactly(nometasync: bool, run: seq<State>, steps: seq<Step>, i: nat, j: nat, k: Txnid)
    requires Run(nometasync, run, steps) && Scans(run, steps, i, j) && run[j].w.Some? && run[j].w.value.scan.Scanned?
    requires forall k :: i <= k <= j ==> run[k].slots == run[j].slots
    ensures var s, w := run[j], run[j].w.value;
      (exists s' :: ReclaimStep(s, s', k)) <==>
        NextRecord(w, k) && k < w.id - 1 && forall n, m :: Marks(s.slots, n, m) ==> k < m
  {
    OldestIsMinimum(nometasync, run, steps, i, j);
    StillActive(nometasync, run, steps, i, j);
    var s, w := run[j], run[j].w.value;
    if NextRecord(w, k) && k < w.scan.oldest {
      assert ReclaimStep(s, s.(w := Some(w.(head := w.head + w.freedb[k], pglast := k))), k);
    }
  }

  lemma {:induction false} StillActive(nometasync: bool, run: seq<State>, steps: seq<Step>, i: nat, j: nat)
    requires Run(nometasync, run, steps) && Scans(run, steps, i, j)
    ensures InStage(run[j], Active)
  {
    Taken(nometasync, run, steps, j - 1);
    if i + 1 < j { StillActive(nometasync, run, steps, i, j - 1); }
  }

  /** A reader that has reset its transaction or gone holds nothing back. */
  lemma SlotReleased(s: State, s': State, i: nat, n: nat, m: Txnid)
    requires ResetStep(s, s', i) || ExitStep(s, s', i)
    ensures Marks(s'.slots, n, m) <==> Marks(s.slots, n, m) && n != i
  {
  }

  /** A new slot holds nothing back; one that is taken over, what its mark says. */
  lemma SlotTaken(s: State, s': State, i: nat, n: nat, m: Txnid)
    requires AcquireStep(s, s', i)
    ensures Marks(s'.slots, n, m) <==> Marks(s.slots, n, m) || (n == i < |s.slots| && s.slots[i].mark == At(m))
  {
  }

  // ---------------------------------------------------------------- what a transaction sees

  /**
   * mdb_page_touch: the view at q is what it was at p, p is gone, and of the other pages and the roots only the link to p
   * changes, to q.
   */
  lemma TouchView(nometasync: bool, s: State, s': State, p: Pgno, q: Pgno)
    requires Inv(nometasync, s) && TouchStep(s, s', p, q)
    ensures s'.w.Some? && s'.mem == s.mem
    ensures var w, w' := s.w.value, s'.w.value;
      var v, v' := View(s.mem, w), View(s'.mem, w');
      && p in v && q !in v && v'.Keys == v.Keys - {p} + {q} && v'[q] == v[p] && q in w'.dirty
      && (forall a :: a in v && a != p ==> v'[a].payload == v[a].payload)
      && (forall a :: a in v && a != p ==> v'[a].kids == if p in v[a].kids then v[a].kids - {p} + {q} else v[a].kids)
      && w'.roots == (if p in w.roots then w.roots - {p} + {q} else w.roots)
      && w'.freed == w.freed + {p}
  {
    var w := s.w.value;
    var next' :| CanTake(w, {q}, next') && s' == s.(w := Some(Changed(w, Touching(s.mem, w, p, q), next')));
    TouchedView(s, Guarded(s), w, p, q, next');
  }

  lemma TouchedView(s: State, g: map<Txnid, Version>, w: Writer, p: Pgno, q: Pgno, next': Pgno)
    requires WriterOk(s, g, w) && GuardOk(s.mem, g, s.mti) && CanTake(w, {q}, next')
    requires p in w.tree && p !in w.dirty && p in s.mem && p in w.height
    requires p in w.roots || exists a :: a in w.dirty && Parent(View(s.mem, w), a, p)
    ensures var v, v' := View(s.mem, w), View(s.mem, Changed(w, Touching(s.mem, w, p, q), next'));
      && p in v && q !in v && v'.Keys == v.Keys - {p} + {q} && v'[q] == v[p]
      && (forall a :: a in v && a != p ==> v'[a].payload == v[a].payload)
      && (forall a :: a in v && a != p ==> v'[a].kids == if p in v[a].kids then v[a].kids - {p} + {q} else v[a].kids)
  {
    var c, v := Touching(s.mem, w, p, q), View(s.mem, w);
    TouchCan(s, g, w, p, q, next');
    TakeNew(s, g, w, {q}, next');
    ChangeView(s.mem, w, c, next');
    TouchedPages(s.mem, w, p, q);
  }

  lemma TouchedPages(mem: map<Pgno, Page>, w: Writer, p: Pgno, q: Pgno)
    requires TreeOk(mem, w) && p in w.tree && p !in w.dirty && p in mem && p in w.height && q !in w.tree
    requires p in w.roots || exists a :: a in w.dirty && Parent(View(mem, w), a, p)
    ensures var v, c := View(mem, w), Touching(mem, w, p, q);
      var v' := v - c.Gone() + c.edits;
      && p in v && q !in v && v'.Keys == v.Keys - {p} + {q} && v'[q] == v[p]
      && (forall a :: a in v && a != p ==> v'[a].payload == v[a].payload)
      && (forall a :: a in v && a != p ==> v'[a].kids == if p in v[a].kids then v[a].kids - {p} + {q} else v[a].kids)
  {
    var v, c := View(mem, w), Touching(mem, w, p, q);
    forall a | a in v && a != p
      ensures a in c.edits <==> p in v[a].kids
      ensures a in c.edits ==> c.edits[a] == v[a].(kids := v[a].kids - {p} + {q})
    {
      if p in v[a].kids { OnlyDirtyParents(mem, w, p, a); }
    }
  }

  lemma OnlyDirtyParents(mem: map<Pgno, Page>, w: Writer, p: Pgno, a: Pgno)
    requires TreeOk(mem, w) && Parent(View(mem, w), a, p)
    requires p in w.roots || exists b :: b in w.dirty && Parent(View(mem, w), b, p)
    ensures a in w.dirty
  {
    if p !in w.roots {
      var b :| b in w.dirty && Parent(View(mem, w), b, p);
      assert a == b;
    }
  }

  /**
   * Where an operation on the trees puts pages: those given back are in me_pghead and on neither list of the transaction, those
   * freed in mt_free_pgs, the new ones in the trees and dirty; all others are where they were.
   */
  lemma ChangeMoves(nometasync: bool, s: State, s': State, c: TreeChange)
    requires Inv(nometasync, s) && ChangeStep(s, s', c)
    ensures s'.w.Some? && s'.mem == s.mem && View(s'.mem, s'.w.value) == View(s.mem, s.w.value) - c.Gone() + c.edits
    ensures var w := s'.w.value; forall p :: p in c.back ==> p in w.head && p !in w.tree && p !in w.dirty && p !in w.spilled
    ensures var w := s'.w.value; forall p :: p in c.freed ==> p in w.freed && p !in w.tree && p !in w.head
    ensures var w := s'.w.value; forall p :: p in c.New() ==> p in w.tree && p in w.dirty && p !in w.head && p !in w.spilled
    ensures forall p :: p !in c.Gone() && p !in c.New() ==> SamePlace(s.w.value, s'.w.value, p)
  {
    var w := s.w.value;
    var next' :| CanTake(w, c.New(), next') && s' == s.(w := Some(Changed(w, c, next')));
    NewView(s, Guarded(s), w, c, next');
    PlacesAfter(w, c, next');
  }

  ghost predicate SamePlace(w: Writer, w': Writer, p: Pgno) {
    && (p in w'.tree <==> p in w.tree) && (p in w'.freed <==> p in w.freed) && (p in w'.head <==> p in w.head)
    && (p in w'.dirty <==> p in w.dirty) && (p in w'.spilled <==> p in w.spilled)
  }

  lemma PlacesAfter(w: Writer, c: TreeChange, next': Pgno)
    requires CanChange(w, c) && c.New() !! w.tree && w.tree !! w.head
    ensures var w' := Changed(w, c, next');
      && (forall p :: p in c.back ==> p in w'.head && p !in w'.tree && p !in w'.dirty && p !in w'.spilled)
      && (forall p :: p in c.freed ==> p in w'.freed && p !in w'.tree && p !in w'.head)
      && (forall p :: p in c.New() ==> p in w'.tree && p in w'.dirty && p !in w'.head && p !in w'.spilled)
      && (forall p :: p !in c.Gone() && p !in c.New() ==> SamePlace(w, w', p))
  {
  }

  lemma NewView(s: State, g: map<Txnid, Version>, w: Writer, c: TreeChange, next': Pgno)
    requires WriterOk(s, g, w) && GuardOk(s.mem, g, s.mti) && CanChange(w, c) && CanTake(w, c.New(), next')
    ensures c.New() !! w.tree && w.tree !! w.head && View(s.mem, Changed(w, c, next')) == View(s.mem, w) - c.Gone() + c.edits
  {
    TakeNew(s, g, w, c.New(), next');
    ChangeView(s.mem, w, c, next');
  }

  /** The steps that change what the transaction sees, or replace it. */
  ghost predicate Alters(step: Step) { step.Touch? || step.Change? || step.NestAbort? }

  /** Spilling, unspilling, flushing, saving the free lists and all the rest change nothing that the transaction sees. */
  lemma ViewKept(nometasync: bool, s: State, s': State, step: Step)
    requires Inv(nometasync, s) && NextStep(nometasync, s, s', step) && s.w.Some? && s'.w.Some? && !Alters(step)
    ensures var w, w' := s.w.value, s'.w.value;
      View(s'.mem, w') == View(s.mem, w) && w'.roots == w.roots && w'.height == w.height && w'.id == w.id
  {
    Meant(nometasync, s, s', step);
    if step.WritePage? {
      WritePageView(s.mem, s.w.value, step.p);
    } else if step.Unspill? {
      UnspillView(s, Guarded(s), s.w.value, step.p);
    } else {
      SameView(nometasync, s, s', step);
    }
  }

  lemma UnspillView(s: State, g: map<Txnid, Version>, w: Writer, p: Pgno)
    requires OwnOk(s.mem, g, s.mti, w) && p in w.spilled && p in s.mem
    ensures View(s.mem, w.(dirty := w.dirty[p := s.mem[p]], spilled := w.spilled - {p})) == View(s.mem, w)
  {
  }

  lemma SameView(nometasync: bool, s: State, s': State, step: Step)
    requires WellShaped(s) && NextStep(nometasync, s, s', step) && s.w.Some? && s'.w.Some? && !Alters(step)
    requires !step.WritePage? && !step.Unspill?
    ensures SameTrees(s.w.value, s'.w.value) && View(s'.mem, s'.w.value) == View(s.mem, s.w.value)
  {
    StepKind(nometasync, s, s', step);
    if CommitNext(nometasync, s, s', step) || FileNext(s, s', step) {
      FileSame(nometasync, s, s', step);
    } else if !NestNext(s, s', step) {
      MemorySame(s, s', step);
    }
  }

  ghost predicate SameTrees(w: Writer, w': Writer) {
    w'.tree == w.tree && w'.dirty == w.dirty && w'.roots == w.roots && w'.height == w.height && w'.id == w.id
  }

  lemma FileSame(nometasync: bool, s: State, s': State, step: Step)
    requires WellShaped(s) && (CommitNext(nometasync, s, s', step) || FileNext(s, s', step))
    ensures s.w.Some? && s'.w.Some? && !step.WritePage? ==> SameTrees(s.w.value, s'.w.value)
    ensures s.w.Some? && s'.w.Some? && s.w.value.stage != Active ==> s'.w.value.stage != Active
    ensures s'.outer == s.outer || s'.outer == []
  {
  }

  lemma MemorySame(s: State, s': State, step: Step)
    requires WellShaped(s) && (ReaderNext(s, s', step) || ScanNext(s, s', step) || TreeNext(s, s', step))
    ensures s.w.Some? && s'.w.Some? && !Alters(step) && !step.Unspill? ==> SameTrees(s.w.value, s'.w.value)
    ensures s'.outer == s.outer
  {
    if TreeNext(s, s', step) { TreeSame(s, s', step); } else if ScanNext(s, s', step) { ScanSame(s, s', step); }
  }

  lemma ScanSame(s: State, s': State, step: Step)
    requires |s.metas| == 2 && ScanNext(s, s', step)
    ensures s'.w.Some? && (s.w.Some? ==> SameTrees(s.w.value, s'.w.value)) && s'.outer == s.outer
  {
    match step
    case BeginWrite => assert s.w.None?;
    case ScanStart =>
    case ScanSlot => assert s.w.Some? && s'.w.Some?;
    case Reclaim(k) => assert s.w.Some?;
  }

  lemma TreeSame(s: State, s': State, step: Step)
    requires TreeNext(s, s', step)
    ensures s.w.Some? && s'.w.Some? && s'.outer == s.outer && (step.SaveFreelist? ==> SameTrees(s.w.value, s'.w.value))
  {
  }

  /** A write transaction starts from the last version. */
  lemma BeginsWithLast(nometasync: bool, s: State, s': State)
    requires Inv(nometasync, s) && BeginWriteStep(s, s')
    ensures s.mti in s.hist && s'.w.value.roots == s.hist[s.mti].roots && View(s'.mem, s'.w.value) == s.hist[s.mti].pages
  {
    BeginShared(nometasync, s, s');
    LastInMem(s.mem, Guarded(s), s.mti);
  }

  lemma LastInMem(mem: map<Pgno, Page>, g: map<Txnid, Version>, mti: Txnid)
    requires GuardOk(mem, g, mti)
    ensures MemHas(mem, g[mti].pages)
  {
  }

  // ---------------------------------------------------------------- what a commit makes of it

  /** The transaction at state i is still there at state j. */
  ghost predicate GoesOn(run: seq<State>, i: nat, j: nat) { j < |run| && forall k :: i <= k <= j ==> run[k].w.Some? }

  lemma {:induction false} Committing(nometasync: bool, run: seq<State>, steps: seq<Step>, i: nat, j: nat)
    requires Run(nometasync, run, steps) && i < j && GoesOn(run, i, j) && steps[i].SaveFreelist?
    ensures !InStage(run[j], Active)
    ensures var w, w' := run[i].w.value, run[j].w.value;
      View(run[j].mem, w') == View(run[i].mem, w) && w'.roots == w.roots && w'.height == w.height && w'.id == w.id
  {
    if i + 1 < j { Committing(nometasync, run, steps, i, j - 1); }
    CommittingAt(nometasync, run, steps, j - 1);
  }

  lemma CommittingAt(nometasync: bool, run: seq<State>, steps: seq<Step>, k: nat)
    requires Run(nometasync, run, steps) && k < |steps| && run[k].w.Some? && run[k + 1].w.Some?
    requires steps[k].SaveFreelist? || !InStage(run[k], Active)
    ensures !InStage(run[k + 1], Active)
    ensures var w, w' := run[k].w.value, run[k + 1].w.value;
      View(run[k + 1].mem, w') == View(run[k].mem, w) && w'.roots == w.roots && w'.height == w.height && w'.id == w.id
  {
    assert StepAt(nometasync, run, steps, k);
    RunInv(nometasync, run, steps, k);
    CommittingStep(nometasync, run[k], run[k + 1], steps[k]);
    ViewKept(nometasync, run[k], run[k + 1], steps[k]);
  }

  lemma CommittingStep(nometasync: bool, s: State, s': State, step: Step)
    requires WellShaped(s) && NextStep(nometasync, s, s', step) && s.w.Some? && s'.w.Some?
    requires step.SaveFreelist? || !InStage(s, Active)
    ensures !Alters(step) && !InStage(s', Active)
  {
    if CommitNext(nometasync, s, s', step) || FileNext(s, s', step) {
      FileSame(nometasync, s, s', step);
    } else {
      MemoryStage(s, s', step);
    }
  }

  lemma MemoryStage(s: State, s': State, step: Step)
    requires WellShaped(s) && s.w.Some? && (step.SaveFreelist? || !InStage(s, Active))
    requires ReaderNext(s, s', step) || ScanNext(s, s', step) || TreeNext(s, s', step) || NestNext(s, s', step)
    ensures !Alters(step) && s'.w.Some? && !InStage(s', Active)
  {
  }

  /**
   * The version that a commit records, and that readers and recovery then find, is what the transaction saw when it saved
   * its free lists, however its pages went to the file in between.
   */
  lemma CommittedIsView(nometasync: bool, run: seq<State>, steps: seq<Step>, i: nat, j: nat)
    requires Run(nometasync, run, steps) && i < j < |steps| && GoesOn(run, i, j)
    requires steps[i].SaveFreelist? && steps[j].WriteMeta?
    ensures var w := run[i].w.value; var v := run[j + 1].hist;
      && w.id in v && v[w.id].pages == View(run[i].mem, w) && v[w.id].roots == w.roots
      && run[j + 1].metas[w.id % 2] == MetaOf(w.id, v[w.id])
  {
    Committing(nometasync, run, steps, i, j);
    Taken(nometasync, run, steps, j);
    RunInv(nometasync, run, steps, j);
    WrittenIsView(run[j], run[j + 1], Guarded(run[j]), run[j].w.value);
  }

  lemma WrittenIsView(s: State, s': State, g: map<Txnid, Version>, w: Writer)
    requires |s.metas| == 2 && WriteMetaStep(s, s') && s.w == Some(w) && WriterOk(s, g, w)
    ensures w.id in s'.hist && s'.hist[w.id].pages == View(s.mem, w) && s'.hist[w.id].roots == w.roots
    ensures s'.metas[w.id % 2] == MetaOf(w.id, s'.hist[w.id])
  {
    assert Committed(s, w).pages == View(s.mem, w);
  }

  /** A reader begins with the newest version: every commit published before it began shows. */
  lemma ReaderBeginsWithLast(nometasync: bool, run: seq<State>, steps: seq<Step>, i: nat, j: nat)
    requires Run(nometasync, run, steps) && i < j < |steps| && steps[i].Publish? && steps[j].BeginRead?
    requires forall k :: i <= k < j ==> !steps[k].Crash?
    ensures run[i].w.Some? && steps[j].i < |run[j + 1].slots|
    ensures var r := run[j + 1].slots[steps[j].i].reader; r.Some? && run[i].w.value.id <= r.value.txnid == run[j].mti
  {
    Taken(nometasync, run, steps, i);
    Taken(nometasync, run, steps, j);
    LastKnown(nometasync, run, steps, i + 1);
    HistoryKept(nometasync, run, steps, i + 1, j, run[i + 1].mti);
  }

  lemma LastKnown(nometasync: bool, run: seq<State>, steps: seq<Step>, i: nat)
    requires Run(nometasync, run, steps) && i < |run|
    ensures run[i].mti in run[i].hist
  {
    RunInv(nometasync, run, steps, i);
  }

  // ---------------------------------------------------------------- what a power failure can do

  /** A power failure after which page p reads o. */
  ghost predicate Leaves(s: State, p: Pgno, o: Option<Page>) {
    exists disk, t :: WellShaped(s) && CrashStep(s, t, disk, s.dmetas) && o == if p in disk then Some(disk[p]) else None
  }

  /** A page write that no sync has followed survives a power failure or does not. */
  lemma WriteMaySurvive(s: State, s': State, p: Pgno)
    requires WellShaped(s) && WritePageStep(s, s', p)
    ensures Leaves(s', p, Some(s.w.value.dirty[p])) && Leaves(s', p, if p in s.disk then Some(s.disk[p]) else None)
  {
    var t := RemainsOf(s', s'.disk[p := s.w.value.dirty[p]]);
    var u := RemainsOf(s', s'.disk);
  }

  lemma RemainsOf(s: State, disk: map<Pgno, Page>) returns (t: State)
    requires WellShaped(s) && s.disk.Keys <= disk.Keys
    requires forall p :: p in disk ==> (p in s.disk && disk[p] == s.disk[p]) || (p in s.pend && disk[p] in s.pend[p])
    ensures CrashStep(s, t, disk, s.dmetas)
  {
    var v := s.dmetas[Pick(s.dmetas)].txnid;
    t := State(disk, disk, map[], s.dmetas, s.dmetas, v, [], None, [],
               map k | k in s.hist && k <= v :: s.hist[k], s.safe * {s.dmetas[0].txnid, s.dmetas[1].txnid});
  }

  /** So does a new meta page, so that recovery finds the new version or the old one. */
  lemma CommitMaySurvive(s: State, s': State)
    requires WellShaped(s) && WriteMetaStep(s, s') && Inv(false, s)
    ensures exists disk, dmetas, t :: CrashStep(s', t, disk, dmetas) && t.mti == s.w.value.id
    ensures exists disk, dmetas, t :: CrashStep(s', t, disk, dmetas) && t.mti == s.mti
  {
    MetaChoices(s, s');
    var t := CrashWith(s', s'.metas);
    var u := CrashWith(s', s'.dmetas);
  }

  lemma MetaChoices(s: State, s': State)
    requires WellShaped(s) && WriteMetaStep(s, s') && Inv(false, s)
    ensures WellShaped(s') && s'.metas[Pick(s'.metas)].txnid == s.w.value.id && s'.dmetas[Pick(s'.dmetas)].txnid == s.mti
  {
  }

  lemma CrashWith(s: State, dmetas: seq<Meta>) returns (t: State)
    requires WellShaped(s) && |dmetas| == 2 && (dmetas == s.metas || dmetas == s.dmetas)
    ensures CrashStep(s, t, s.disk, dmetas) && t.mti == dmetas[Pick(dmetas)].txnid
  {
    var v := dmetas[Pick(dmetas)].txnid;
    t := State(s.disk, s.disk, map[], dmetas, dmetas, v, [], None, [],
               map k | k in s.hist && k <= v :: s.hist[k], s.safe * {dmetas[0].txnid, dmetas[1].txnid});
  }

  // ---------------------------------------------------------------- nested abort

  /** Steps i and j begin and abort one and the same nested transaction. */
  ghost predicate Nested(run: seq<State>, steps: seq<Step>, i: nat, j: nat) {
    && i < j < |steps| && |run| == |steps| + 1 && steps[i].NestBegin?
    && forall k :: i < k <= j ==> |run[i].outer| < |run[k].outer|
  }

  lemma {:induction false} KeptBelow(nometasync: bool, run: seq<State>, steps: seq<Step>, i: nat, j: nat)
    requires Run(nometasync, run, steps) && Nested(run, steps, i, j)
    ensures run[i].w.Some? && |run[i].outer| < |run[j].outer|
    ensures run[j].outer[|run[j].outer| - |run[i].outer| - 1..] == [run[i].w.value] + run[i].outer
    decreases j
  {
    if i + 1 < j {
      KeptBelow(nometasync, run, steps, i, j - 1);
      OuterAt(nometasync, run, steps, j - 1);
      StackKept(run[j - 1].outer, run[j].outer, [run[i].w.value] + run[i].outer);
    } else {
      Taken(nometasync, run, steps, i);
      assert run[j].outer == [run[i].w.value] + run[i].outer;
    }
  }

  lemma OuterAt(nometasync: bool, run: seq<State>, steps: seq<Step>, k: nat)
    requires Run(nometasync, run, steps) && k < |steps|
    ensures var s, s' := run[k].outer, run[k + 1].outer; s' == s || s' == [] || (s != [] && s' == s[1..]) || (s' != [] && s'[1..] == s)
  {
    assert StepAt(nometasync, run, steps, k);
    OuterStep(nometasync, run[k], run[k + 1], steps[k]);
  }

  /** A stack that is pushed on or popped keeps what lies below, as long as it does not get shorter than that. */
  lemma StackKept<T>(s: seq<T>, s': seq<T>, below: seq<T>)
    requires 0 < |below| <= |s'| && |below| <= |s| && s[|s| - |below|..] == below
    requires s' == s || s' == [] || (s != [] && s' == s[1..]) || (s' != [] && s'[1..] == s)
    ensures s'[|s'| - |below|..] == below
  {
    var top := s[..|s| - |below|];
    assert s == top + below;
    if s' != [] && s'[1..] == s {
      assert s' == s'[..1] + top + below;
    } else if s' == s[1..] && s' != s {
      assert s' == top[1..] + below;
    }
  }

  /** Each step leaves the stack of ancestors alone, or changes its top only, or ends it. */
  lemma OuterStep(nometasync: bool, s: State, s': State, step: Step)
    requires WellShaped(s) && NextStep(nometasync, s, s', step)
    ensures s'.outer == s.outer || s'.outer == [] || (s.outer != [] && s'.outer == s.outer[1..])
         || (s.w.Some? && s'.outer == [s.w.value] + s.outer)
  {
    if CommitNext(nometasync, s, s', step) || FileNext(s, s', step) {
      FileSame(nometasync, s, s', step);
    } else if !NestNext(s, s', step) && !step.Crash? {
      MemorySame(s, s', step);
    }
  }

  /** After the commit of a nested transaction its parent goes on with what the child saw; its own ancestors are as before. */
  lemma NestCommitPasses(nometasync: bool, run: seq<State>, steps: seq<Step>, i: nat, j: nat)
    requires Run(nometasync, run, steps) && Nested(run, steps, i, j) && steps[j].NestCommit?
    requires |run[j].outer| == |run[i].outer| + 1
    ensures run[j].w.Some? && run[j + 1].w == run[j].w && run[j + 1].mem == run[j].mem && run[j + 1].outer == run[i].outer
  {
    KeptBelow(nometasync, run, steps, i, j);
    Taken(nometasync, run, steps, j);
  }

  /** After the abort of a nested transaction its parent is what it was at the begin, and sees what it saw. */
  lemma NestAbortRestores(nometasync: bool, run: seq<State>, steps: seq<Step>, i: nat, j: nat)
    requires Run(nometasync, run, steps) && Nested(run, steps, i, j) && steps[j].NestAbort?
    requires |run[j].outer| == |run[i].outer| + 1
    ensures run[i].w.Some? && run[j + 1].w == run[i].w && run[j + 1].outer == run[i].outer
    ensures View(run[j + 1].mem, run[i].w.value) == View(run[i].mem, run[i].w.value)
  {
    KeptBelow(nometasync, run, steps, i, j);
    Taken(nometasync, run, steps, j);
    SeesAgain(nometasync, run, steps, i, j);
  }

  lemma SeesAgain(nometasync: bool, run: seq<State>, steps: seq<Step>, i: nat, j: nat)
    requires Run(nometasync, run, steps) && Nested(run, steps, i, j)
    ensures run[i].w.Some? && View(run[j].mem, run[i].w.value) == View(run[i].mem, run[i].w.value)
  {
    InOuter(nometasync, run, steps, i, j);
    Taken(nometasync, run, steps, i);
    var a := run[i].w.value;
    forall k | i < k < j ensures a in run[k].outer && !steps[k].Crash? {
      InOuter(nometasync, run, steps, i, k);
      NoCrash(nometasync, run, steps, k);
    }
    ParentUntouched(nometasync, run, steps, i + 1, j, a);
  }

  lemma InOuter(nometasync: bool, run: seq<State>, steps: seq<Step>, i: nat, k: nat)
    requires Run(nometasync, run, steps) && Nested(run, steps, i, k)
    ensures run[i].w.Some? && run[i].w.value in run[k].outer
  {
    KeptBelow(nometasync, run, steps, i, k);
    assert run[i].w.value == run[k].outer[|run[k].outer| - |run[i].outer| - 1..][0];
  }

  lemma NoCrash(nometasync: bool, run: seq<State>, steps: seq<Step>, k: nat)
    requires Run(nometasync, run, steps) && k < |steps| && run[k + 1].outer != []
    ensures !steps[k].Crash?
  {
    StepIs(nometasync, run, steps, k);
  }
}
