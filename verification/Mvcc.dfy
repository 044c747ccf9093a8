/**
 The page-lifetime protocol of the store as a state machine: reader slots, the
 writer's unlocked slot scan, page reuse through the freeDB, copy-on-write,
 spilling, the two meta pages, and crashes that keep an arbitrary subset of the
 unsynced writes.
 */
module Mvcc {
  type Pgno = nat
  type Txnid = nat

  datatype Option<+T> = None | Some(value: T)

  /** Content of a page, as far as the protocol cares: the pages it points to. */
  datatype Page = Page(kids: set<Pgno>, payload: int)

  /** What a committed transaction stands for: the trees, the freeDB records, first unused page. */
  datatype Version = Version(roots: set<Pgno>, pages: map<Pgno, Page>, height: map<Pgno, nat>,
                             freedb: map<Txnid, set<Pgno>>, next: Pgno)

  /** A meta page: mm_txnid, the two md_root fields, mm_last_pg + 1. */
  datatype Meta = Meta(txnid: Txnid, roots: set<Pgno>, next: Pgno)

  /** mr_txnid: Idle is (txnid_t)-1. */
  datatype Mark = Idle | At(txnid: Txnid)
  datatype ReadTxn = ReadTxn(txnid: Txnid, roots: set<Pgno>)
  datatype Slot = Slot(pid: bool, mark: Mark, reader: Option<ReadTxn>)

  /** Progress of mdb_find_oldest: slots below i are still to be read. */
  datatype Scan = NoScan | Scanning(i: nat, oldest: Txnid) | Scanned(oldest: Txnid)

  datatype Stage = Active | Saved | Synced | MetaWritten

  datatype Writer = Writer(
    id: Txnid, stage: Stage, scan: Scan,
    roots: set<Pgno>,           // md_root of each tree
    tree: set<Pgno>,            // pages of the transaction's trees
    height: map<Pgno, nat>,     // of each page above the bottom of its tree
    dirty: map<Pgno, Page>,     // dirty list
    spilled: set<Pgno>,         // written to the file in this transaction
    own: set<Pgno>,             // every page number ever allocated here
    freed: set<Pgno>,           // mt_free_pgs
    head: set<Pgno>,            // me_pghead
    pglast: Txnid,              // me_pglast
    next: Pgno,                 // mt_next_pgno
    freedb: map<Txnid, set<Pgno>>)

  datatype State = State(
    mem: map<Pgno, Page>,       // the file as every process maps it
    disk: map<Pgno, Page>,      // what is certainly on stable storage
    pend: map<Pgno, set<Page>>, // page writes since the last sync
    metas: seq<Meta>, dmetas: seq<Meta>,  // meta pages: mapped, and on stable storage
    mti: Txnid,                 // mti_txnid
    slots: seq<Slot>,
    w: Option<Writer>,          // holder of the writer mutex: the innermost transaction
    outer: seq<Writer>,         // its suspended ancestors, innermost first, as they were
    hist: map<Txnid, Version>,  // committed versions
    safe: set<Txnid>)           // versions the meta pages may be asked for

  // ---------------------------------------------------------------- basic notions

  ghost predicate Closed(roots: set<Pgno>, pages: map<Pgno, Page>) {
    roots <= pages.Keys && forall p :: p in pages ==> pages[p].kids <= pages.Keys
  }

  /** Page q points to page p. */
  ghost predicate Parent(pages: map<Pgno, Page>, q: Pgno, p: Pgno) { q in pages && p in pages[q].kids }

  /**
   * The pages are trees below these roots, and nothing else: each is a root or has a parent, no page has two, and
   * heights fall from parent to child.
   */
  ghost predicate Forest(roots: set<Pgno>, pages: map<Pgno, Page>, height: map<Pgno, nat>) {
    && roots <= pages.Keys <= height.Keys
    && (forall q, p {:trigger Parent(pages, q, p)} :: Parent(pages, q, p) ==> p in pages && p !in roots && height[p] < height[q])
    && (forall p :: p in pages ==> p in roots || exists q :: Parent(pages, q, p))
    && (forall q, r, p {:trigger Parent(pages, q, p), Parent(pages, r, p)} :: Parent(pages, q, p) && Parent(pages, r, p) ==> q == r)
  }

  /** All that these pages point to. */
  ghost function LinksOf(pages: map<Pgno, Page>, ps: set<Pgno>): set<Pgno> {
    set q, p | q in ps && q in pages && p in pages[q].kids :: p
  }

  /** Pages of the freeDB records with a key above pglast. */
  ghost function Rest(db: map<Txnid, set<Pgno>>, pglast: Txnid): set<Pgno> {
    set k, p | k in db && pglast < k && p in db[k] :: p
  }

  ghost predicate DisjointRecords(db: map<Txnid, set<Pgno>>) {
    forall j, k :: j in db && k in db && j != k ==> db[j] !! db[k]
  }

  /** Meta pages, tree, freed list, reclaimed list and unread records partition [0, next). */
  ghost predicate Partition(tree: set<Pgno>, freed: set<Pgno>, head: set<Pgno>,
                            db: map<Txnid, set<Pgno>>, pglast: Txnid, next: Pgno) {
    && DisjointRecords(db)
    && tree !! freed && tree !! head && freed !! head && (tree + freed + head) !! Rest(db, pglast)
    && (forall p :: p in tree + freed + head + Rest(db, pglast) ==> 2 <= p < next)
    && (forall p :: 2 <= p < next ==> p in tree + freed + head + Rest(db, pglast))
  }

  ghost predicate VersionOk(v: Version) {
    && Forest(v.roots, v.pages, v.height)
    && 2 <= v.next
    && Partition(v.pages.Keys, {}, {}, v.freedb, 0, v.next)
  }

  ghost predicate MemHas(mem: map<Pgno, Page>, pages: map<Pgno, Page>) {
    forall p :: p in pages ==> p in mem && mem[p] == pages[p]
  }

  /** Whatever a crash keeps, page p reads c afterwards. */
  ghost predicate Settled(disk: map<Pgno, Page>, pend: map<Pgno, set<Page>>, p: Pgno, c: Page) {
    p in disk && disk[p] == c && (p in pend ==> pend[p] <= {c})
  }

  ghost predicate Durable(disk: map<Pgno, Page>, pend: map<Pgno, set<Page>>, pages: map<Pgno, Page>) {
    forall p :: p in pages ==> Settled(disk, pend, p, pages[p])
  }

  function MetaOf(id: Txnid, v: Version): Meta { Meta(id, v.roots, v.next) }

  /** mdb_env_pick_meta */
  function Pick(m: seq<Meta>): nat
    requires |m| == 2
  {
    if m[0].txnid < m[1].txnid then 1 else 0
  }

  ghost function ReaderIds(slots: seq<Slot>): set<Txnid> {
    set i | 0 <= i < |slots| && slots[i].reader.Some? :: slots[i].reader.value.txnid
  }

  /** Versions somebody may still look at: live readers', and those the meta pages name. */
  ghost function Protected(s: State): set<Txnid> { s.safe + ReaderIds(s.slots) }

  /** The protected versions up to the last published one, with their contents. */
  ghost function Guarded(s: State): map<Txnid, Version> {
    map v | v in Protected(s) && v in s.hist && v <= s.mti :: s.hist[v]
  }

  // ---------------------------------------------------------------- steps

  datatype Step =
    | Acquire(i: nat) | BeginRead(i: nat) | Reset(i: nat) | Exit(i: nat)
    | BeginWrite | ScanStart | ScanSlot | Reclaim(k: Txnid)
    | Touch(p: Pgno, q: Pgno) | Change(c: TreeChange)
    | WritePage(p: Pgno) | Unspill(p: Pgno)
    | NestBegin | NestCommit | NestAbort
    | SaveFreelist(recs: map<Txnid, set<Pgno>>) | SyncData | EnvSync
    | WriteMeta | MetaDurable | Publish | Abort
    | Crash(disk: map<Pgno, Page>, dmetas: seq<Meta>)

  /** Slot i is taken by a process; a new slot starts idle, a recycled one keeps its old mark. */
  ghost predicate AcquireStep(s: State, s': State, i: nat) {
    && i <= |s.slots|
    && (i < |s.slots| ==> !s.slots[i].pid)
    && s' == s.(slots := if i == |s.slots| then s.slots + [Slot(true, Idle, None)]
                         else s.slots[i := s.slots[i].(pid := true, reader := None)])
  }

  ghost predicate BeginReadStep(s: State, s': State, i: nat)
    requires |s.metas| == 2
  {
    && i < |s.slots| && s.slots[i].pid && s.slots[i].reader.None?
    && s' == s.(slots := s.slots[i := Slot(true, At(s.mti), Some(ReadTxn(s.mti, s.metas[s.mti % 2].roots)))])
  }

  ghost predicate ResetStep(s: State, s': State, i: nat) {
    && i < |s.slots| && s.slots[i].reader.Some?
    && s' == s.(slots := s.slots[i := Slot(s.slots[i].pid, Idle, None)])
  }

  /** Thread exit clears only mr_pid. */
  ghost predicate ExitStep(s: State, s': State, i: nat) {
    && i < |s.slots| && s.slots[i].pid
    && s' == s.(slots := s.slots[i := Slot(false, s.slots[i].mark, None)])
  }

  ghost predicate BeginWriteStep(s: State, s': State)
    requires |s.metas| == 2
  {
    && s.w.None? && s.mti in s.hist
    && s' == s.(w := Some(Writer(s.mti + 1, Active, NoScan, s.metas[s.mti % 2].roots, s.hist[s.mti].pages.Keys,
                                 s.hist[s.mti].height, map[], {}, {}, {}, {}, 0, s.metas[s.mti % 2].next,
                                 s.hist[s.mti].freedb)))
  }

  ghost predicate InStage(s: State, stage: Stage) { s.w.Some? && s.w.value.stage == stage }

  ghost predicate ScanStartStep(s: State, s': State) {
    && InStage(s, Active) && 0 < s.w.value.id
    && s' == s.(w := Some(s.w.value.(scan := Scanning(|s.slots|, s.w.value.id - 1))))
  }

  ghost predicate ScanSlotStep(s: State, s': State) {
    && InStage(s, Active) && s.w.value.scan.Scanning?
    && var w := s.w.value;
       if w.scan.i == 0 then s' == s.(w := Some(w.(scan := Scanned(w.scan.oldest))))
       else
         && w.scan.i <= |s.slots|
         && var r := s.slots[w.scan.i - 1];
            var oldest := if r.pid && r.mark.At? && w.scan.oldest > r.mark.txnid then r.mark.txnid else w.scan.oldest;
            s' == s.(w := Some(w.(scan := Scanning(w.scan.i - 1, oldest))))
  }

  /** mdb_page_alloc reads the next freeDB record if it is older than every reader. */
  ghost predicate ReclaimStep(s: State, s': State, k: Txnid) {
    && InStage(s, Active) && s.w.value.scan.Scanned?
    && var w := s.w.value;
       && k in w.freedb && w.pglast < k < w.scan.oldest
       && (forall j :: j in w.freedb && w.pglast < j ==> k <= j)
       && s' == s.(w := Some(w.(head := w.head + w.freedb[k], pglast := k)))
  }

  /** Pages qs come either from me_pghead or, contiguously, from the end of the file. */
  ghost predicate CanTake(w: Writer, qs: set<Pgno>, next': Pgno) {
    || (qs <= w.head && next' == w.next)
    || (w.next <= next' && forall p :: p in qs <==> w.next <= p < next')
  }

  /** The pages of the transaction's trees as it sees them. */
  ghost function View(mem: map<Pgno, Page>, w: Writer): map<Pgno, Page> {
    map p | p in w.tree && (p in w.dirty || p in mem) :: if p in w.dirty then w.dirty[p] else mem[p]
  }

  /**
   * What an operation on the trees does, whole: new contents of dirty pages and of new ones, with the heights of the
   * latter; the roots afterwards; the pages that leave the trees, to mt_free_pgs or back to me_pghead.
   */
  datatype TreeChange = TreeChange(edits: map<Pgno, Page>, height: map<Pgno, nat>, roots: set<Pgno>,
                                   freed: set<Pgno>, back: set<Pgno>)
  {
    function Gone(): set<Pgno> { freed + back }

    function New(): set<Pgno> { height.Keys }
  }

  /**
   * The operation loses and doubles no link: what its pages and the roots point to afterwards is what they and the pages
   * that leave pointed to before, without the pages that leave and with the new ones, each once, and from greater to
   * smaller height.  It looks at no other page.
   */
  ghost predicate KeepsLinks(roots: set<Pgno>, pages: map<Pgno, Page>, height: map<Pgno, nat>, c: TreeChange) {
    var before := roots + LinksOf(pages, c.edits.Keys + c.Gone());
    var h := height + c.height;
    && c.Gone() <= before && c.roots + LinksOf(c.edits, c.edits.Keys) == before - c.Gone() + c.New()
    && (forall q, p {:trigger Parent(c.edits, q, p)} :: Parent(c.edits, q, p) ==>
          p !in c.roots && p in h && q in h && h[p] < h[q])
    && (forall q, r, p {:trigger Parent(c.edits, q, p), Parent(c.edits, r, p)} ::
          Parent(c.edits, q, p) && Parent(c.edits, r, p) ==> q == r)
  }

  /** mdb_ovpage_free can give overflow pages of a top-level transaction back once there is a me_pghead. */
  ghost predicate CanChange(w: Writer, c: TreeChange) {
    && c.New() <= c.edits.Keys && (forall p :: p in c.edits && p !in c.New() ==> p in w.dirty && p in w.tree)
    && c.Gone() <= w.tree && c.edits.Keys !! c.Gone() && c.freed !! c.back
    && c.back <= w.dirty.Keys + w.spilled && (c.back != {} ==> 0 < w.pglast)
  }

  function Changed(w: Writer, c: TreeChange, next': Pgno): Writer {
    w.(roots := c.roots, tree := w.tree - c.Gone() + c.New(), height := w.height + c.height,
       dirty := w.dirty + c.edits - c.back, spilled := w.spilled - c.New() - c.back, own := w.own + c.New(),
       freed := w.freed + c.freed, head := w.head - c.New() + c.back, next := next')
  }

  ghost predicate ChangeStep(s: State, s': State, c: TreeChange) {
    && InStage(s, Active)
    && var w := s.w.value;
       && CanChange(w, c) && (c.back != {} ==> s.outer == []) && KeepsLinks(w.roots, View(s.mem, w), w.height, c)
       && exists next' :: CanTake(w, c.New(), next') && s' == s.(w := Some(Changed(w, c, next')))
  }

  /** mdb_page_touch on a clean page p: q gets its contents and takes its place in its parent, or as a root. */
  ghost predicate TouchStep(s: State, s': State, p: Pgno, q: Pgno) {
    && InStage(s, Active)
    && var w := s.w.value;
       && p in w.tree && p !in w.dirty && p !in w.spilled && p in s.mem && p in w.height
       && (p in w.roots || exists a :: a in w.dirty && Parent(View(s.mem, w), a, p))
       && exists next' :: CanTake(w, {q}, next') && s' == s.(w := Some(Changed(w, Touching(s.mem, w, p, q), next')))
  }

  function Swap(ps: set<Pgno>, p: Pgno, q: Pgno): set<Pgno> { if p in ps then ps - {p} + {q} else ps }

  ghost function Touching(mem: map<Pgno, Page>, w: Writer, p: Pgno, q: Pgno): TreeChange
    requires p in mem && p in w.height
  {
    TreeChange((map a | a in w.dirty && a in w.tree && p in w.dirty[a].kids :: w.dirty[a].(kids := Swap(w.dirty[a].kids, p, q)))
                 [q := mem[p]],
               map[q := w.height[p]], Swap(w.roots, p, q), {p}, {})
  }

  ghost function PendAdd(pend: map<Pgno, set<Page>>, p: Pgno, c: Page): map<Pgno, set<Page>> {
    pend[p := (if p in pend then pend[p] else {}) + {c}]
  }

  /** One page of mdb_page_flush, for a spill or for the commit; what an ancestor has spilled is not spilled again. */
  ghost predicate WritePageStep(s: State, s': State, p: Pgno) {
    && (InStage(s, Active) || InStage(s, Saved)) && p in s.w.value.dirty
    && (forall a :: a in s.outer ==> p !in a.spilled)
    && var w := s.w.value;
       s' == s.(mem := s.mem[p := w.dirty[p]], pend := PendAdd(s.pend, p, w.dirty[p]),
                w := Some(w.(dirty := w.dirty - {p}, spilled := w.spilled + {p})))
  }

  ghost predicate UnspillStep(s: State, s': State, p: Pgno) {
    && InStage(s, Active) && p in s.w.value.spilled && p in s.mem
    && var w := s.w.value;
       s' == s.(w := Some(w.(dirty := w.dirty[p := s.mem[p]], spilled := w.spilled - {p})))
  }

  /** mdb_txn_begin with a parent, whose lists and page state are kept.  The child goes on from them. */
  ghost predicate NestBeginStep(s: State, s': State) {
    InStage(s, Active) && s' == s.(outer := [s.w.value] + s.outer)
  }

  /** mdb_txn_commit of a nested transaction: its parent goes on from where it is. */
  ghost predicate NestCommitStep(s: State, s': State) {
    InStage(s, Active) && s.outer != [] && s' == s.(outer := s.outer[1..])
  }

  /** mdb_txn_abort of a nested transaction: its parent goes on from what was kept (mdb.c:2541-2547). */
  ghost predicate NestAbortStep(s: State, s': State) {
    InStage(s, Active) && s.outer != [] && s' == s.(w := Some(s.outer[0]), outer := s.outer[1..])
  }

  /** Result of mdb_freelist_save: me_pghead under keys in [1, me_pglast], freed pages, if any, under the txnid. */
  ghost function SavedRecords(w: Writer, recs: map<Txnid, set<Pgno>>): map<Txnid, set<Pgno>> {
    (map k | k in w.freedb && w.pglast < k :: w.freedb[k]) + recs + OwnRecord(w)
  }

  function OwnRecord(w: Writer): map<Txnid, set<Pgno>> { if w.freed == {} then map[] else map[w.id := w.freed] }

  ghost predicate SaveFreelistStep(s: State, s': State, recs: map<Txnid, set<Pgno>>) {
    && InStage(s, Active) && s.outer == []
    && var w := s.w.value;
       && (forall k :: k in recs ==> 1 <= k <= w.pglast)
       && DisjointRecords(recs) && Rest(recs, 0) == w.head
       && s' == s.(w := Some(w.(stage := Saved, freed := {}, head := {}, pglast := 0,
                                freedb := SavedRecords(w, recs))))
  }

  ghost predicate SyncDataStep(s: State, s': State) {
    && InStage(s, Saved) && s.w.value.dirty == map[]
    && s' == s.(disk := s.mem, pend := map[], dmetas := s.metas, w := Some(s.w.value.(stage := Synced)))
  }

  ghost predicate EnvSyncStep(s: State, s': State) {
    s' == s.(disk := s.mem, pend := map[], dmetas := s.metas)
  }

  ghost function Committed(s: State, w: Writer): Version {
    Version(w.roots, map p | p in w.tree && p in s.mem :: s.mem[p], w.height, w.freedb, w.next)
  }

  /** mdb_env_write_meta */
  ghost predicate WriteMetaStep(s: State, s': State)
    requires |s.metas| == 2
  {
    && InStage(s, Synced)
    && var w := s.w.value;
       var v := Committed(s, w);
       && s' == s.(metas := s.metas[w.id % 2 := MetaOf(w.id, v)], hist := s.hist[w.id := v],
                   safe := s.safe + {w.id}, w := Some(w.(stage := MetaWritten)))
  }

  /** With default flags the meta descriptor is opened for synchronous writes. */
  ghost predicate MetaDurableStep(s: State, s': State)
    requires |s.metas| == 2 && |s.dmetas| == 2
  {
    && InStage(s, MetaWritten)
    && s' == s.(dmetas := s.dmetas[s.w.value.id % 2 := s.metas[s.w.value.id % 2]])
  }

  ghost predicate PublishStep(nometasync: bool, s: State, s': State) {
    && InStage(s, MetaWritten)
    && (!nometasync ==> s.dmetas == s.metas)
    && s' == s.(mti := s.w.value.id, w := None, safe := {s.mti, s.w.value.id})
  }

  ghost predicate AbortStep(s: State, s': State) {
    && s.w.Some? && !InStage(s, MetaWritten)
    && s' == s.(w := None, outer := [])
  }

  /** Power loss at any point; each page and each meta page keeps some unsynced write or the synced content.
      The environment is then opened again: slots are empty and mti_txnid comes from the picked meta page. */
  ghost predicate CrashStep(s: State, s': State, disk: map<Pgno, Page>, dmetas: seq<Meta>)
    requires |s.metas| == 2 && |s.dmetas| == 2
  {
    && |dmetas| == 2
    && (forall i :: 0 <= i < 2 ==> dmetas[i] == s.dmetas[i] || dmetas[i] == s.metas[i])
    && s.disk.Keys <= disk.Keys
    && (forall p :: p in disk ==> (p in s.disk && disk[p] == s.disk[p]) || (p in s.pend && disk[p] in s.pend[p]))
    && var v := dmetas[Pick(dmetas)].txnid;
       s' == State(disk, disk, map[], dmetas, dmetas, v, [], None, [],
                   map k | k in s.hist && k <= v :: s.hist[k],
                   s.safe * {dmetas[0].txnid, dmetas[1].txnid})
  }

  /** Readers, in any process. */
  ghost predicate ReaderNext(s: State, s': State, step: Step)
    requires |s.metas| == 2
  {
    match step
    case Acquire(i) => AcquireStep(s, s', i)
    case BeginRead(i) => BeginReadStep(s, s', i)
    case Reset(i) => ResetStep(s, s', i)
    case Exit(i) => ExitStep(s, s', i)
    case _ => false
  }

  /** The writer begins, and finds pages. */
  ghost predicate ScanNext(s: State, s': State, step: Step)
    requires |s.metas| == 2
  {
    match step
    case BeginWrite => BeginWriteStep(s, s')
    case ScanStart => ScanStartStep(s, s')
    case ScanSlot => ScanSlotStep(s, s')
    case Reclaim(k) => ReclaimStep(s, s', k)
    case _ => false
  }

  /** It works in memory. */
  ghost predicate TreeNext(s: State, s': State, step: Step) {
    match step
    case Touch(p, q) => TouchStep(s, s', p, q)
    case Change(c) => ChangeStep(s, s', c)
    case Unspill(p) => UnspillStep(s, s', p)
    case SaveFreelist(recs) => SaveFreelistStep(s, s', recs)
    case _ => false
  }

  ghost predicate NestNext(s: State, s': State, step: Step) {
    match step
    case NestBegin => NestBeginStep(s, s')
    case NestCommit => NestCommitStep(s, s')
    case NestAbort => NestAbortStep(s, s')
    case _ => false
  }

  /** It writes pages and syncs them, or gives up. */
  ghost predicate FileNext(s: State, s': State, step: Step) {
    match step
    case WritePage(p) => WritePageStep(s, s', p)
    case SyncData => SyncDataStep(s, s')
    case EnvSync => EnvSyncStep(s, s')
    case Abort => AbortStep(s, s')
    case _ => false
  }

  /** It commits. */
  ghost predicate CommitNext(nometasync: bool, s: State, s': State, step: Step)
    requires |s.metas| == 2 && |s.dmetas| == 2
  {
    match step
    case WriteMeta => WriteMetaStep(s, s')
    case MetaDurable => MetaDurableStep(s, s')
    case Publish => PublishStep(nometasync, s, s')
    case _ => false
  }

  ghost predicate NextStep(nometasync: bool, s: State, s': State, step: Step)
    requires |s.metas| == 2 && |s.dmetas| == 2
  {
    || ReaderNext(s, s', step) || ScanNext(s, s', step) || TreeNext(s, s', step) || NestNext(s, s', step)
    || FileNext(s, s', step) || CommitNext(nometasync, s, s', step)
    || (step.Crash? && CrashStep(s, s', step.disk, step.dmetas))
  }

  /** mdb_env_init_meta: both meta pages describe the empty version 0. */
  ghost predicate Init(s: State) {
    var v := Version({}, map[], map[], map[], 2);
    s == State(map[], map[], map[], [MetaOf(0, v), MetaOf(0, v)], [MetaOf(0, v), MetaOf(0, v)], 0, [], None, [],
               map[0 := v], {0})
  }
}
