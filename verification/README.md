# LMDB in Dafny: page lifetimes, the B+tree, and the lists between them

A model of the storage engine in `liblmdb/` (LMDB 0.9.11), with machine-checked proofs. `dafny verify dfyconfig.toml`
checks all of it. The model has three layers.

**The page-lifetime protocol** (`Mvcc*.dfy`) is a state machine. Its state is the mapped file, what of it is on stable
storage, the unsynced writes, the two meta pages, `mti_txnid`, the reader slots, the versions committed so far, and at
most one writer with the roots and pages of its trees, its dirty and spill lists, `mt_free_pgs`, `me_pghead`,
`me_pglast`, `mt_next_pgno`, its unlocked scan of the slots and its suspended ancestors. The steps are those of
readers (take a slot, begin, reset, exit), of the writer (scan one slot, reclaim one freeDB record, copy a page, carry
out an operation on the trees, spill, unspill, begin, commit and abort nested transactions, save the free lists, flush
one page, sync, write and publish the meta page, abort) and a power failure that keeps any subset of the unsynced
writes. An operation on the trees may rearrange dirty and new pages at will as long as it keeps the links of the pages
it looks at, from higher pages to lower ones (`Mvcc.KeepsLinks`); that the trees stay trees, and that `md_root` leads
to every page not accounted for elsewhere, is derived from that. `TreeChanges.dfy` shows that page splits, new roots,
node moves, merges, root collapses, overflow pages and dropped trees are such operations. The theorems are about every
run: readers keep seeing their snapshot, recovery finds a committed version, no page is lost or doubled.
`MvccLaws.dfy` says what the slot scan answers and what a transaction sees, up to the commit that records it;
`MvccProgress.dfy` that readers can always begin and a transaction can always commit.

**The B+tree.** `BTree*.dfy` give insert and delete on trees of pages with the real byte sizes, so that splits, moves,
merges, separator updates and root changes happen where the code makes them happen, and prove them against a finite
map. `BTreeShape.dfy` says which pages they change: of all leaves one, or one and a neighbour. `SplitPoint.dfy` is the
split search. `PageLayout.dfy` and `SlottedPage.dfy` are one page in memory, an array of 16-bit words, and the node
operations that work on it in place. `SplitMove.dfy` is the wrap-around move of a split, whose temporary page is also
the list of pointers being read. `Leaf2.dfy` is the page of fixed-size keys. `Cursor.dfy` is searching, `Drop.dfy`
freeing a whole tree.

**Lists and transactions.** `Idl.dfy`, `IdlSort.dfy`, `Id2l.dfy` are the list primitives. `PageAlloc.dfy` and
`Allocator.dfy` are the allocator, `FreelistSave.dfy` the loop that turns free lists into freeDB records, and
`SaveRefines.dfy` connects its result with the step of the protocol. `SpillList.dfy`, `Spill.dfy`, `DirtyMerge.dfy`
are the list work of spilling and of nested commits; `TxnPages.dfy`, `TxnSteps.dfy`, `TxnRuns.dfy`, `TxnLaws.dfy` show
that in every run of nested transactions each transaction sees, through its own and its ancestors' lists, exactly the
pages of a plain stack of page maps, and exactly which nested commits break that; `TxnFailures.dfy` has runs that do.
`TxnProgress.dfy` is about how a page gets onto a dirty list.

Some properties one might expect turn out to hold only under a condition. The model keeps the code as it is, states the
condition, and shows an input on the other side of it:

* A split whose point is not searched by size (the test at `liblmdb/mdb.c:7689` is false) can overfill a half, and the
  operation ends in `MDB_PAGE_FULL`. `BTreeRoom.PageFullExactly` says exactly when, for every put and delete, and
  `BTreeRoom.PutCanFail` gives such a put for every page size.
* When the left half is the one that does not fit, the move can follow a pointer that a node has overwritten: exactly when
  some proper prefix of that half takes all of the page (`SplitMove.MoveNodes`). There is no room left then, so that the
  result is `MDB_PAGE_FULL` whatever is read, but a node header may be read outside the page
  (`SplitMove.PointerOverwritten`).
* A nested commit into a top-level transaction takes the length of the joined dirty list from `mt_dirty_room`
  (`liblmdb/mdb.c:2996`). That is too long by the dirty overflow pages that `mdb_ovpage_free` gave back without crediting the
  room, and too short by the pages that the child has spilled although its parent still holds them dirty
  (`TxnLaws.JoinLength`). The assertion at line 3007 holds if and only if the two balance, that is when room and union add
  up to `MDB_IDL_UM_MAX`; otherwise the list has foreign entries or lacks some, or the merge leaves its array
  (`DirtyMerge.JoinDirty`, `DirtyMerge.MergedList`). A nested commit goes well exactly when no page has gone stale that
  way and, in a top-level parent, none was given back (`TxnLaws.JoinExact`). The theorems about runs are about runs whose
  nested commits are of that kind; `TxnFailures` has commits that fail in each of these ways, and what the parent then sees.
* Spilling and unspilling keep a spill list strictly descending (`Spill.SpillPages`, `Spill.UnlistedKeeps`). A nested
  commit may not: a deleted entry can then be there twice, since both transactions can have given the same page up.
  `SpillList.Ordered` is what does hold, and it is enough for every search.

The comment above `mdb_midl_search` says it returns the first position greater than the id. The lists are descending,
and the code returns the first position whose id is not greater; the model follows the code.

Parameters are the page size (4096 to 32768, even), key lengths up to 511, and the page-number range of 64 bits. A key is
its rank in the order of the comparison function together with its length.

## Model

| member | source | states |
|---|---|---|
| MvccInvariant.InitInv | liblmdb/mdb.c:3180-3199 | a new environment, both meta pages describing the empty version 0, satisfies the protocol's invariant |
| MvccInvariant.SlotChangeInv | liblmdb/mdb.c:2285-2307 | a reader that takes a slot, begins, resets or exits, between any two steps of the writer's scan, keeps the invariant |
| MvccWriter.OldestIsOld | liblmdb/mdb.c:1681-1698 | a record older than the scan result is older than every live reader's version and no newer than any version a meta page may name, although readers come and go while the slots are scanned |
| MvccWriter.ReclaimPartition | liblmdb/mdb.c:1799-1849 | reading the next freeDB record moves its pages from the unread records to me_pghead and keeps the partition of all pages |
| MvccWriter.TakePartition | liblmdb/mdb.c:1852-1880 | pages taken from me_pghead or from the end of the file are in no other set, and the partition holds afterwards |
| MvccWriter.TakeFresh | liblmdb/mdb.c:1852-1880 | a page that is allocated is in no snapshot that anyone may still look at |
| MvccWriter.TouchInv | liblmdb/mdb.c:1980-2066 | copying a clean page into a new one, which takes its place in its parent or as a root, keeps the links of the trees, and with them the invariant |
| MvccWriter.ChangeForest | liblmdb/mdb.c:6928-7848 | an operation that keeps the links of the pages it looks at turns trees into trees: every page below just one parent or a root, heights falling, none out of reach |
| MvccWriter.ChangeInv | liblmdb/mdb.c:4931-5003 | any such operation, with new pages from me_pghead or the end of the file, pages freed, and overflow pages of this transaction given back, keeps the invariant |
| TreeChanges.SplitKeeps | liblmdb/mdb.c:7533-7848 | a page split keeps the links |
| TreeChanges.GrowKeeps | liblmdb/mdb.c:7561-7590 | so does a new root above a split one |
| TreeChanges.MoveKeeps | liblmdb/mdb.c:6928-7097 | so does moving a node between neighbours |
| TreeChanges.MergeKeeps | liblmdb/mdb.c:7107-7216 | so does merging a page into its neighbour, which frees it |
| TreeChanges.CollapseKeeps | liblmdb/mdb.c:7301-7338 | so does replacing a root by its only child |
| TreeChanges.AttachKeeps | liblmdb/mdb.c:6460-6470 | so does giving a leaf new overflow pages |
| TreeChanges.DetachKeeps | liblmdb/mdb.c:4931-5003 | so does taking overflow pages from a leaf, to mt_free_pgs or me_pghead |
| TreeChanges.DropKeeps | liblmdb/mdb.c:8224-8298 | so does freeing a whole tree |
| MvccWriter.NestInv | liblmdb/mdb.c:2421-2458 | nested begin, which keeps lists and page state of the parent, commit, which drops what was kept, and abort, which goes back to it, keep the invariant |
| MvccWriter.SavedPartition | liblmdb/mdb.c:2595-2749 | turning mt_free_pgs and me_pghead into records loses and doubles no page |
| MvccWriter.SavedRecordsOk | liblmdb/mdb.c:2595-2749 | every record then only holds pages that no protected version from its key on uses |
| MvccDisk.WritePageGuard | liblmdb/mdb.c:2757-2888 | writing a dirty page to the file changes no page of a protected version |
| MvccDisk.WritePageInv | liblmdb/mdb.c:2757-2888 | spilling or flushing one page keeps the invariant, on disk too |
| MvccDisk.WritePageOuter | liblmdb/mdb.c:1641-1666 | a page that a child spills changes nothing that a suspended ancestor sees, nor its invariant |
| MvccDisk.SyncInv | liblmdb/mdb.c:3076-3077 | after the data sync all pages the new meta page will name are durable |
| MvccDisk.CommittedOk | liblmdb/mdb.c:3076-3078 | when the meta page is written its version is complete, its pages are just those below its roots, and all are durable, which rests on the order flush, sync, meta |
| MvccDisk.WriteMetaInv | liblmdb/mdb.c:3226-3328 | writing the meta page, the older of the two, keeps the invariant |
| MvccDisk.PublishGuard | liblmdb/mdb.c:3330-3342 | when mti_txnid moves on, every record of the new version is safe for the readers still alive |
| MvccDisk.PickedVersion | liblmdb/mdb.c:3349-3352 | whatever mix of old and new meta pages survives, mdb_env_pick_meta picks one that names a durable version |
| MvccDisk.CrashInv | liblmdb/mdb.c:3349-3352 | after a power failure and reopening the invariant holds again |
| MvccSafety.StepKeeps | liblmdb/mdb.c:1681-3342 | every step of readers, writer and power failures keeps the invariant |
| MvccSafety.RunInv | liblmdb/mdb.c:1681-3342 | the invariant holds at every point of every run |
| MvccSafety.SnapshotSafety | liblmdb/mdb.c:1785-1813 | in every run no page write hits a page of a live reader's snapshot, of the last version or, with default flags, of the version of either meta page |
| MvccSafety.ReclaimIsOld | liblmdb/mdb.c:1785-1813 | in every run a record is reclaimed only when it is older than every live reader and older than the last version |
| MvccSafety.TreesReached | liblmdb/mdb.c:4760-4822 | a file that has the pages of trees leads from their roots to all of them and to nothing else |
| MvccSafety.ReaderSeesItsVersion | liblmdb/mdb.c:2304-2336 | in every run what a reader reaches from the roots it copied are the pages of its version, all of them and no others, with the committed contents |
| MvccSafety.HistoryKept | liblmdb/mdb.c:3226-3342 | in every run without a power failure committed versions stay as they are |
| MvccSafety.SnapshotIsolation | liblmdb/mdb.c:2304-2336 | from any point of a reader's life to any later one the same walks exist and read the same pages |
| MvccSafety.CrashRecovery | liblmdb/mdb.c:3076-3078 | after a power failure at any point of any run the picked meta page names a committed version, whose pages are just what its roots lead to on disk, unchanged: the last one, or the one being committed; with NOMETASYNC at most the last one is lost |
| MvccSafety.Conservation | liblmdb/mdb.c:1735-1887 | at every point of a write transaction, and for each suspended ancestor with its kept lists, the pages its roots lead to, freed pages, me_pghead and unread records partition the pages from 2 to mt_next_pgno |
| MvccSafety.ParentUntouched | liblmdb/mdb.c:2541-2547 | in every run what a transaction with a child sees stays as it was, whatever the child does, until it goes on |
| MvccSafety.AuditBalances | liblmdb/mdb.c:1341-1391 | once the free lists are saved, record lengths, the pages its roots lead to and the two meta pages add up to mt_next_pgno |
| MvccLaws.OldestBounds | liblmdb/mdb.c:1681-1698 | in every run, whatever readers do during the scan, its answer is at most the transaction's id - 1 and the mark of every slot that keeps it meanwhile, and is one of id - 1 and the marks there were |
| MvccLaws.OldestIsMinimum | liblmdb/mdb.c:1681-1698 | while no slot changes, the answer is the minimum of id - 1 and all marks |
| MvccLaws.ReclaimExactly | liblmdb/mdb.c:1785-1813 | the next record can then be reclaimed if and only if it is older than the last version and than all marks |
| MvccLaws.SlotTaken | liblmdb/mdb.c:2281-2292 | a new slot holds no record back, one that is taken over only what its old mark says |
| MvccLaws.SlotReleased | liblmdb/mdb.c:2525-2530 | after a reset or a thread's exit the slot holds no record back, and the others as before |
| MvccLaws.TouchView | liblmdb/mdb.c:1980-2046 | after a page has been copied the transaction sees at the new page what it saw at the old one, which is freed; of all other pages and the roots only the link to it changes |
| MvccLaws.ChangeMoves | liblmdb/mdb.c:4931-5003 | after an operation on the trees pages given back are in me_pghead and off the dirty and spill lists, freed ones in mt_free_pgs, new ones in the trees and dirty, all others where they were |
| MvccLaws.ViewKept | liblmdb/mdb.c:1922-1973 | no step but copying, an operation on the trees and a nested abort changes what the transaction sees: not spilling, unspilling, flushing, saving the free lists, syncing |
| MvccLaws.BeginsWithLast | liblmdb/mdb.c:2316-2340 | a write transaction starts with the pages of the last version |
| MvccLaws.CommittedIsView | liblmdb/mdb.c:2595-3328 | in every run the version that a commit records is what the transaction saw when it saved its free lists, and the meta page names it |
| MvccLaws.ReaderBeginsWithLast | liblmdb/mdb.c:2304-2306 | in every run a reader begins with a version that includes each commit published before |
| MvccLaws.WriteMaySurvive | liblmdb/mdb.c:2757-2888 | a page write that has not been synced may or may not survive a power failure |
| MvccLaws.CommitMaySurvive | liblmdb/mdb.c:3226-3328 | a new meta page that has not been synced may or may not, so that recovery can find the new version or the old one |
| MvccLaws.NestCommitPasses | liblmdb/mdb.c:2924-3030 | in every run a nested commit leaves to the parent what the child saw, and the parent's own ancestors as they were |
| MvccLaws.NestAbortRestores | liblmdb/mdb.c:2541-2547 | in every run after a nested abort the parent is what it was at the begin and sees what it saw |
| MvccProgress.ReaderNeverWaits | liblmdb/mdb.c:2264-2306 | from every reachable state a reader can take a slot and begin, with the last version, whatever the writer and other readers do |
| MvccProgress.WriterNeverWaits | liblmdb/mdb.c:2309-2340 | whenever there is no writer one can begin, whatever readers there are |
| MvccProgress.CanTouch | liblmdb/mdb.c:1980-2066 | a clean page can be copied as soon as its parent is dirty, or if it is a root |
| MvccProgress.GivenBackExactly | liblmdb/mdb.c:4931-5003 | overflow pages that leave a leaf can go back to me_pghead if and only if the transaction has no parent, has read freeDB records, and has them dirty or spilled; to mt_free_pgs always |
| MvccProgress.CanCommit | liblmdb/mdb.c:2892-3342 | from every reachable state an active write transaction can be committed, in as many steps as it has dirty pages and five, with no reader moving; what it saw is then the last version |
| SplitPoint.FindSplit | liblmdb/mdb.c:7689-7719 | the search loop, in either direction, finds the first point where the running size exceeds a page, or its last one |
| SplitPoint.SplitMeaning | liblmdb/mdb.c:7674-7719 | the split point is the one that cuts in the middle, the right half not shorter, when it is not searched, or else gives the searched half as many nodes as fit on a page, one beyond the middle at most |
| SplitPoint.CheckedSplitFits | liblmdb/mdb.c:7649-7719 | whenever the point is searched by size both halves fit in a page |
| SplitPoint.UncheckedSplitFits | liblmdb/mdb.c:7674-7689 | without the search the half without the new node fits, and the other one does if and only if the new node is at most the free room plus what moves away |
| SplitPoint.UncheckedSplitCanOverflow | liblmdb/mdb.c:7674-7689 | a page of 4096 bytes whose middle split overfills the left half |
| BTree.BigExactly | liblmdb/mdb.c:6444-6466 | data goes to overflow pages exactly when two nodes of that size would not fit on a page |
| BTree.FlatSorted | liblmdb/mdb.c:4760-4822 | the entries of an ordered tree come out sorted and within its bounds |
| BTreeInsert.ChildIndexOk | liblmdb/mdb.c:4776-4795 | the child that a search follows is the one whose bounds contain the key |
| BTreeInsertProof.PlaceLeafGood | liblmdb/mdb.c:7533-7848 | a leaf with its new node, as it is or split in the middle or for MDB_APPEND, holds exactly these entries, sorted, with left keys below the separator and right keys not below it |
| BTreeInsertProof.CutBranchGood | liblmdb/mdb.c:7533-7848 | a split branch page gives two ordered pages of the same children with at least two nodes each |
| BTreeInsertProof.PutTreeGood | liblmdb/mdb.c:5749-6395 | inserting through search and recursive splits gives exactly the old entries with this one put in, at uniform depth, ordered, every page within its size |
| BTreeDeleteProof.MergeFits | liblmdb/mdb.c:7385-7400 | whenever mdb_rebalance merges rather than moves the merged page fits, with the key restored to a branch page's first node |
| BTreeDeleteProof.ShortExactly | liblmdb/mdb.c:7254-7264 | a page is rebalanced exactly when it fills less than a quarter of a page or has fewer nodes than its minimum |
| BTreeDeleteProof.LendExactly | liblmdb/mdb.c:7385-7391 | a neighbour gives a node away exactly when it fills a quarter of a page and has a node more than its minimum |
| BTreeDeleteProof.MergeGood | liblmdb/mdb.c:7107-7216 | merging two neighbours keeps order and loses no entry |
| BTreeDeleteProof.MoveGood | liblmdb/mdb.c:6928-7097 | moving a node from a neighbour keeps both pages ordered and filled, with the right separator, and loses no entry |
| BTreeDeleteProof.RebalanceGood | liblmdb/mdb.c:7247-7404 | rebalancing a page below the threshold leaves a page whose tree has exactly the entries without the deleted one |
| BTreeDeleteProof.DelTreeGood | liblmdb/mdb.c:7407-7440 | deleting with recursive rebalancing removes exactly that entry, keeps order, separators and uniform depth, and at least two nodes in every branch page |
| BTreeMap.GetIsLookup | liblmdb/mdb.c:5038-5068 | mdb_get is lookup in the map of the tree's entries |
| BTreeMap.PutIsUpdate | liblmdb/mdb.c:5749-6395 | mdb_put gives a well-formed tree, with md_depth its depth, whose map is the old one with the key set; MDB_KEYEXIST when it is refused, and no other outcome then |
| BTreeMap.AppendRefused | liblmdb/mdb.c:5816-5830 | MDB_APPEND is refused if and only if some key is not below the new one |
| BTreeMap.RefusedExactly | liblmdb/mdb.c:5816-5838 | for all flags, MDB_KEYEXIST if and only if MDB_NOOVERWRITE meets the key or MDB_APPEND a key that is not below it |
| BTreeMap.CollapseGood | liblmdb/mdb.c:7267-7338 | dropping an empty root, or a root with one child, keeps the entries and the tree well formed |
| BTreeMap.DelIsRemoval | liblmdb/mdb.c:7247-7440 | mdb_del gives a well-formed tree whose map is the old one without the key, and MDB_NOTFOUND exactly when the key is missing |
| BTreeMap.PutGetDel | liblmdb/mdb.c:5749-6395 | after a successful put with any flags get finds the value, other keys read as before, and deleting a new key again gives the old map |
| BTreeRoom.PageFullNeedsCrowdedPage | liblmdb/mdb.c:7649-7719 | put and delete never end in MDB_PAGE_FULL in a tree whose pages all hold fewer than 20 nodes |
| BTreeRoom.LeafFull | liblmdb/mdb.c:7649-7719 | a node placed on a leaf ends in MDB_PAGE_FULL exactly when the split point is not searched and the half with it is too large |
| BTreeRoom.PageFullExactly | liblmdb/mdb.c:5749-7848 | put and delete end in MDB_PAGE_FULL exactly when some split on the way, of a leaf, or of a branch that takes a separator, is such a one |
| BTreeRoom.PutCanFail | liblmdb/mdb.c:7649-7719 | for every page size a well-formed tree of one leaf and a small new key for which it happens |
| BTreeShape.PlaceLeafPages | liblmdb/mdb.c:7533-7848 | a leaf with its new node stays one page exactly if the nodes fit, else is cut at the split point, or for MDB_APPEND before the new node; the separator is the first key on the right |
| BTreeShape.PlaceBranchPages | liblmdb/mdb.c:7533-7848 | a branch page likewise, the key at the cut moving up and no other key or child changing |
| BTreeShape.PutChangesOneLeaf | liblmdb/mdb.c:5749-6395 | of the leaves of the whole tree, from left to right, a put changes one: data of the same size, or with overflow pages to reuse, is overwritten in place, else the leaf has the node replaced or added, and becomes one page or two |
| BTreeShape.RebalanceRule | liblmdb/mdb.c:7247-7404 | on every level a child that has lost a node stays as it is if it is not short; else a rich left neighbour, or right one of a first child, gives it its nearest node, and with any other it becomes one page and the parent has a child less; all other children are unchanged |
| BTreeShape.LosesOne | liblmdb/mdb.c:7407-7429 | a page that is looked at after a delete has lost exactly one node |
| BTreeShape.RebalanceKeys | liblmdb/mdb.c:6928-7216 | keys of the two pages and their parent: the separator is the first key of the right page, between branch pages no key is lost or added but the restored first one |
| BTreeShape.DelChangesOneLeaf | liblmdb/mdb.c:7247-7440 | of the leaves of the whole tree a delete changes one, which stays if it fills a quarter of a page or is the root, or one and a neighbour, evened by one entry or merged |
| Idl.IdList.Need | liblmdb/midl.c:144-156 | the list has room for that many more ids and the same ids as before, and is the same array exactly if there was room |
| Idl.IdList.Append | liblmdb/midl.c:158-170 | one more id at the end, growing the list by MDB_IDL_UM_MAX when it is full |
| Idl.IdList.AppendList | liblmdb/midl.c:172-184 | the ids of the other list follow, the list growing by their number when they fill it |
| Idl.IdList.AppendRange | liblmdb/midl.c:186-204 | the ids from id + n - 1 down to id follow |
| Idl.IdList.Search | liblmdb/midl.c:33-69 | the position of the id, or of the first smaller one |
| IdlSort.Sort | liblmdb/midl.c:207-266 | a descending permutation of the list, with quicksort's sentinel scans inside the segment, its insertion sort inside it too, and its explicit stack inside its 64 slots |
| IdlSort.StackBound | liblmdb/midl.c:207-266 | for int-sized lists at most 27 segments are ever waiting |
| Id2l.Search | liblmdb/midl.c:268-301 | the position of the id in an ascending list, or of the first larger one |
| Id2l.Insert | liblmdb/midl.c:303-332 | the entry at its place, -1 exactly for an id that is there, -2 only for a full list; otherwise the list is as it was |
| Id2l.InsertKeeps | liblmdb/midl.c:303-332 | the list stays strictly ascending and gives every other page as before |
| Id2l.Append | liblmdb/midl.c:334-343 | the entry at the end, or -2 for a full list |
| PageAlloc.FindRun | liblmdb/mdb.c:1774-1784 | on a strictly descending list the test of two ends finds a block of num contiguous pages if and only if one exists, the lowest one |
| PageAlloc.RunIsAdjacent | liblmdb/mdb.c:1774-1784 | contiguous pages of a descending list stand next to each other |
| PageAlloc.TakeRun | liblmdb/mdb.c:1870-1874 | removes exactly the block that ends at that slot |
| PageAlloc.MergeRecord | liblmdb/mdb.c:1838-1849 | the backward merge in place, with its sentinel in slot 0, gives the merge of the two lists |
| PageAlloc.MergedMultiset | liblmdb/mdb.c:1838-1849 | the merge has the ids of both lists, each as often |
| PageAlloc.MergedDescends | liblmdb/mdb.c:1838-1849 | for lists without a common id it is strictly descending |
| PageAlloc.ReleaseRange | liblmdb/mdb.c:4988-4995 | the pages of a run enter me_pghead in place, between the larger and the smaller ids |
| PageAlloc.ReleasedDescends | liblmdb/mdb.c:4988-4995 | the list stays strictly descending |
| PageAlloc.ReleasedMember | liblmdb/mdb.c:4988-4995 | exactly these pages enter, each once |
| Allocator.Env.Collect | liblmdb/mdb.c:1766-1850 | records above me_pglast and below oldest are read in order, another one only while there is no run, until one is found or none is left |
| Allocator.Env.Alloc | liblmdb/mdb.c:1735-1887 | the pages come from me_pghead with the records read, and what is left is the rest; new pages and MDB_MAP_FULL only when all eligible records together have no run; MDB_TXN_FULL exactly for a full dirty list, before anything changes |
| Allocator.MergeKeeps | liblmdb/mdb.c:1838-1849 | merging a record that shares no page with the list gives a strictly descending list of both |
| DirtyMerge.UnionGet | liblmdb/mdb.c:2999-3008 | the merged dirty list gives the child's page where the child has one, else the parent's |
| DirtyMerge.UnionAsc | liblmdb/mdb.c:2999-3008 | it is strictly ascending |
| DirtyMerge.UnionLen | liblmdb/mdb.c:2981-2994 | the length counted for a parent with a parent is the size of the union |
| DirtyMerge.JoinDirty | liblmdb/mdb.c:2981-3008 | for any length the backward merge stays inside its array exactly when the last slot it writes is one and it never looks at a slot it has written; it ends with i == x exactly when the length is the size of the union, and then the parent's list is the union |
| DirtyMerge.MergedList | liblmdb/mdb.c:2999-3008 | with a shorter length the list is the union without a block of entries, with a longer one the union with a block of what was in those slots |
| SpillList.Squeeze | liblmdb/mdb.c:1614-1623 | removes exactly the entries marked as deleted, from a given slot on |
| SpillList.SquashSpill | liblmdb/mdb.c:2960-2978 | takes the entries of the child's dirty pages out of the parent's list in place |
| SpillList.SquashedLive | liblmdb/mdb.c:2960-2978 | exactly the child's dirty pages stop being spilled in the parent |
| SpillList.SquashedOrdered | liblmdb/mdb.c:2960-2978 | the list stays in order |
| Spill.Flush | liblmdb/mdb.c:2757-2888 | writes the pages behind the first keep entries that have no P_KEEP, leaves the others in order with the flag cleared, and credits the difference |
| Spill.Choose | liblmdb/mdb.c:1641-1666 | puts on the spill list the last need pages with no P_KEEP that no ancestor has spilled, or all if there are fewer, from the tail forward |
| Spill.SpillPages | liblmdb/mdb.c:1584-1679 | exactly these pages move from the dirty list to the spill list and to disk, the others stay, and the room credited is their number; the dirty list stays strictly ascending and the spill list becomes strictly descending |
| Spill.MakeRoom | liblmdb/mdb.c:1604-1640 | nothing happens while there is more room than the operation may take; else the room grows by the larger of that and an eighth of MDB_IDL_UM_MAX, or by all pages that can be spilled if these are fewer |
| Spill.SpillEffect | liblmdb/mdb.c:1584-1679 | the set flushed is the set appended to the spill list and the set that leaves the dirty list |
| Spill.Unlist | liblmdb/mdb.c:1929-1962 | finds the live entry of a page and truncates the list or sets the entry's low bit |
| Spill.UnlistedKeeps | liblmdb/mdb.c:1953-1961 | exactly that page stops being spilled, and the list stays in order |
| TxnPages.PageGet | liblmdb/mdb.c:4704-4754 | looks through spill and dirty list of each transaction from the inside out, then at the map; MDB_PAGE_NOTFOUND exactly for a number on no list that is not below mt_next_pgno |
| TxnSteps.GainsKeeps | liblmdb/mdb.c:1701-1719 | mdb_page_dirty adds that page and no other |
| TxnRuns.JoinKeepsView | liblmdb/mdb.c:2957-3022 | when the dirty lists merge well each page through the parent after the commit of a child is what it was through the child before, even one that has gone stale |
| TxnRuns.JoinApart | liblmdb/mdb.c:2957-3022 | afterwards no page is dirty and spilled at once if and only if the child spilled no page that the parent holds dirty |
| TxnRuns.JoinOrdered | liblmdb/mdb.c:3011-3022 | the joined spill list is in order |
| TxnRuns.SpillInv | liblmdb/mdb.c:1584-1679 | spilling in a child changes nothing that the child or any ancestor sees, even of a page that an ancestor holds dirty |
| TxnRuns.UnspillInv | liblmdb/mdb.c:1922-1973 | nor does unspilling, from its own list or an ancestor's |
| TxnRuns.CopyInv | liblmdb/mdb.c:2014-2046 | nor does copying an ancestor's dirty page into the child |
| TxnRuns.StepRefines | liblmdb/mdb.c:1584-3022 | each step on the lists, a nested commit when it goes well, means to the stack of page maps what it should |
| TxnLaws.RunShows | liblmdb/mdb.c:4704-4754 | in every run whose nested commits go well each transaction of the chain sees exactly the pages of its map: what a child does shows in an ancestor only after it commits, and never if it aborts |
| TxnLaws.RunInv | liblmdb/mdb.c:1584-3022 | at every point of such a run no page is dirty and spilled in one transaction, lists are in order, and mt_dirty_room counts the pages found on dirty lists and those mdb_ovpage_free gave back |
| TxnLaws.JoinLength | liblmdb/mdb.c:2995-3007 | in every run the length a nested commit takes from mt_dirty_room exceeds the size of the union by the pages given back, less those gone stale; it is right, room and union adding up to MDB_IDL_UM_MAX, exactly when these balance |
| TxnLaws.JoinExact | liblmdb/mdb.c:2957-3022 | a nested commit passes the assertion and leaves no page dirty and spilled at once if and only if no page has gone stale and, in a top-level parent, no dirty page was given back |
| TxnLaws.FlushKeepsView | liblmdb/mdb.c:2757-2888 | the final flush writes what the transaction saw if and only if no page is dirty and spilled with other contents |
| TxnLaws.CommitWritesView | liblmdb/mdb.c:3076-3078 | in every run whose nested commits go well it does |
| TxnProgress.OneWayToDirty | liblmdb/mdb.c:1922-2046 | in every run whose nested commits go well, a page that the transaction or an ancestor has allocated is on its dirty list, or can be copied from an ancestor's, or, with room, can be unspilled, and just one of the three |
| TxnFailures.ShortJoin | liblmdb/mdb.c:2995-3008 | with a length that is too short the joined list lacks a block of entries, and through the parent the pages of that block, unless spilled, are found where its ancestors or the map have them, all others as through the child |
| TxnFailures.LongJoin | liblmdb/mdb.c:2995-3008 | with one that is too long it has a block of what was in those slots |
| TxnFailures.LostPage | liblmdb/mdb.c:4969-4984 | a run in which a page given back puts a page on the joined list twice, out of order |
| TxnFailures.CutPage | liblmdb/mdb.c:1646-1665 | a run in which a stale page cuts another one off the list, which is lost |
| TxnFailures.StrayMerge | liblmdb/mdb.c:2999-3006 | lists with two stale pages for which the merge leaves its array |
| TxnFailures.StaleFlush | liblmdb/mdb.c:1646-1665 | a run in which the two balance, so that the assertion holds, and the parent's own commit writes an old page |
| FreelistSave.Txn.DeleteUsed | liblmdb/mdb.c:2629-2642 | all records up to me_pglast are deleted, with those reserved so far |
| FreelistSave.Txn.SaveFree | liblmdb/mdb.c:2643-2676 | the transaction's own record holds all of mt_free_pgs, sorted, although writing it may add to the list |
| FreelistSave.Txn.NewRoom | liblmdb/mdb.c:2694-2703 | the size of the record being written covers what is missing, or with more keys left below takes a share of it, rounded up to whole pages |
| FreelistSave.Txn.ReserveAll | liblmdb/mdb.c:2622-2717 | ends whenever the operations on the freeDB stop changing the lists, and then the reserved records with keys up to me_pglast are empty and have room for me_pghead |
| FreelistSave.Txn.Fill | liblmdb/mdb.c:2718-2748 | the records with keys from 1 to me_pglast hold me_pghead in order, surplus ones are empty, others are untouched |
| FreelistSave.Txn.Save | liblmdb/mdb.c:2596-2749 | all of this for any changes that the puts and deletes make to the lists meanwhile |
| FreelistSave.SavedOnce | liblmdb/mdb.c:2718-2748 | each page of me_pghead is in exactly one record |
| SaveRefines.SaveIsStep | liblmdb/mdb.c:2596-2749 | what the loop leaves in the freeDB is the result of the protocol's save step, with no record for a transaction that freed nothing |
| PageLayout.LayoutAdd | liblmdb/mdb.c:6473-6484 | a node put below the others keeps nodes disjoint and tiling the upper part of the page |
| PageLayout.LayoutDel | liblmdb/mdb.c:6570-6584 | so does moving the nodes below a deleted one up |
| PageLayout.LayoutResize | liblmdb/mdb.c:6888-6910 | so does moving them when a node changes its size |
| SlottedPage.HoldsOne | liblmdb/mdb.c:625-700 | the words of a page determine its nodes |
| SlottedPage.NodeAdd | liblmdb/mdb.c:6407-6526 | on the words, the page's nodes become the old ones with this one at indx, every other word in use unchanged; MDB_PAGE_FULL exactly when node and pointer do not fit, and then nothing changes |
| SlottedPage.NodeDel | liblmdb/mdb.c:6536-6585 | the page's nodes become the old ones without node indx |
| SlottedPage.UpdateKey | liblmdb/mdb.c:6854-6920 | node indx gets the new key, longer or shorter, all others stay; the page is unchanged exactly when a longer key does not fit |
| SlottedPage.AddHolds | liblmdb/mdb.c:6473-6517 | any page that differs from the old one by such an insertion holds the inserted sequence |
| SlottedPage.CutHolds | liblmdb/mdb.c:6570-6584 | any page that differs by such a closed gap holds the sequence without that node |
| SlottedPage.ResizedHolds | liblmdb/mdb.c:6888-6917 | any page that differs by such a shift holds the sequence with that node replaced |
| SplitMove.CopyPtrs | liblmdb/mdb.c:7661-7672 | the temporary page is empty and lists the old pointers with a gap for the new node |
| SplitMove.StillUnread | liblmdb/mdb.c:7781-7828 | adding a node to the page that lists the pointers overwrites no pointer that lies below the node |
| SplitMove.MoveNodes | liblmdb/mdb.c:7780-7836 | when both halves fit, and only then, right and left page hold exactly the old nodes with the new one at newindx, cut at the split point, a branch half's first node without key; otherwise the old page is unchanged; an overwritten pointer is followed exactly when the right half fits and a proper prefix of the left half takes all of a page, the new node not coming next |
| SplitMove.CheckedSplitMoves | liblmdb/mdb.c:7649-7836 | whenever the point is searched by size both halves fit, and the move succeeds |
| SplitMove.PageFor | liblmdb/mdb.c:625-700 | every sequence of nodes that fits is what some page holds |
| SplitMove.PointerOverwritten | liblmdb/mdb.c:7780-7796 | a page of 4096 bytes and a new node for which an overwritten pointer leads outside the page |
| Leaf2.Page.Add | liblmdb/mdb.c:6427-6441 | the key enters at indx |
| Leaf2.Page.Del | liblmdb/mdb.c:6550-6558 | the key at indx goes |
| Leaf2.Page.Split | liblmdb/mdb.c:7607-7646 | the two pages hold the old keys with the new one at newindx, cut behind the middle, and the separator is the first right key |
| Leaf2.RoomLeft | liblmdb/mdb.c:6437-6440 | the two counters leave exactly the room that the keys do not take |
| Cursor.NodeSearch | liblmdb/mdb.c:4556-4645 | the smallest index whose key is not below the key asked for, and whether it is that key |
| Cursor.TreeCursor.SearchRoot | liblmdb/mdb.c:4760-4822 | the stack leads to the leaf that the key belongs on |
| Cursor.TreeCursor.Sibling | liblmdb/mdb.c:5070-5115 | the stack moves to the next page of its level, or stays when there is none |
| Cursor.NextMeaning | liblmdb/mdb.c:5070-5115 | that page continues exactly where the old one ended; without one the tree ended there |
| Cursor.InsideLeaf | liblmdb/mdb.c:5319-5356 | a key between first and last key of the cursor's leaf belongs on that leaf |
| Cursor.BehindLast | liblmdb/mdb.c:5358-5369 | a key above all of a leaf whose ancestors have no right siblings belongs on that leaf |
| Cursor.TreeCursor.Set | liblmdb/mdb.c:5277-5405 | for MDB_SET and MDB_SET_RANGE the positioned cursor's short cut ends with the stack, indexes and answer of a full search from the root |
| Cursor.SetMeaning | liblmdb/mdb.c:5277-5405 | that place is the first entry not below the key; found exactly when the key, or for MDB_SET_RANGE some key not below it, is there |
| Drop.NextMeaning | liblmdb/mdb.c:5070-5115 | sibling steps visit a level's pages from left to right, each once |
| Drop.AllFreed | liblmdb/mdb.c:8224-8298 | what handling all levels and the root frees is every page of the tree once |
| Drop.Drop0 | liblmdb/mdb.c:8224-8298 | the walk ends and puts every branch page, leaf, overflow page and root on the free list exactly once, for any depth, with LEAF2 leaves and with sub-databases |

## Left out

- Reader begin is one step: slot, mti_txnid and the meta page are read together. A reader that is suspended between reading mti_txnid and storing it in its slot can see recycled pages, as `liblmdb/lmdb.h:98-100` warns.
- The table of reader slots is not bounded (MDB_READERS_FULL), and a thread always finds its own slot reset (MDB_BAD_RSLOT).
- The write of a meta page is atomic, and reopening after a power failure starts with empty reader slots.
- In the protocol the freeDB is a map from txnid to pages; that its own records lie in a B+tree shows only in the page sets.
- FreelistSave.Txn.Save: the changes that puts and deletes make to the lists are arbitrary but finite in number; that the real ones stop is not proved.
- BTreeMap.PutIsUpdate: says nothing about the tree after MDB_PAGE_FULL, when the code marks the transaction as failed; exactly when that happens is the subject of BTreeRoom.PageFullExactly.
- In the protocol an operation on the trees is any change that keeps links. TreeChanges shows that of each page operation by itself; the trees of `BTree*.dfy` carry no page numbers, and which pages a whole put or delete copies, adds and frees is not stated about them.
- The B+tree operations of `BTree*.dfy` are functions on trees of values; update in place is proved for one page, in SlottedPage and SplitMove, and the cursor stack that leads to it, and the fix-up of other tracked cursors, are not part of them.
- Keys are ranks with a length; comparison functions, and the bytes of keys in the tree model, do not appear.
- SlottedPage.NodeAdd: the case that first allocates overflow pages for large data is not part of it, nor are sub-pages.
- SlottedPage.UpdateKey: ends where a longer key does not fit; the deletion and split that follow are those of the tree model.
- Cursor.TreeCursor.Set: sorted duplicates (xcursors, MDB_GET_BOTH) are not modelled.
- DUPSORT sub-pages, MDB_MULTIPLE and MDB_RESERVE; LEAF2 pages appear in Leaf2 and Drop only.
- P_KEEP flags on the dirty list are an input of Spill.SpillPages; mdb_pages_xkeep, which sets and clears them for pages of active cursors, is not modelled.
- TxnLaws.RunShows: for runs whose nested commits go well in the sense of TxnSteps.ProperJoin; TxnLaws.JoinExact shows that the condition is exact, and TxnFailures what happens otherwise. What is lost when the merge leaves its array is not modelled.
- In the protocol a nested transaction goes on from its parent's lists, and the parent's are kept as they were for an abort; that the lists of parent and child are separate until commit is the subject of the Txn modules.
- FreelistSave.Txn.Fill: its puts overwrite records that this transaction has reserved, in place, and are modelled without page work; changes to the lists are those of the puts and deletes before.
- Cursor.TreeCursor.Sibling: the step to the right only; the one to the left is its mirror image.
- The writing of several pages at once (pwritev), short writes, failed meta page writes, malloc failure, and errors after which a transaction is only aborted.
- 32-bit overflow of list sizes in mdb_midl_need and of page counts.
- WRITEMAP, NOSYNC, MAPASYNC and NOLOCK, which drop the order or the locking that the protocol rests on.
- Opening, copying and closing environments, reader_list, mdb_stat, lock files, robust mutexes and all Windows code.
- The Node bindings in `src/` and the examples: they call these operations and add no storage logic.
