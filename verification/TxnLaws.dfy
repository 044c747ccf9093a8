/** What holds in every run of nested write transactions, and when a commit writes what the transaction saw. */
module TxnLaws {
  import opened Idl
  import opened Id2l
  import opened SpillList
  import opened Spill
  import opened TxnPages
  import opened TxnSteps
  import opened TxnRuns
  import DirtyMerge

  // ---------------------------------------------------------------- runs

  /** A fresh top-level write transaction, which sees the committed pages. */
  ghost predicate Start(s: State, maps: seq<Pages>) {
    && s.chain == [Level([], [], MDB_IDL_UM_MAX)] && s.lost == 0 && |maps| == 1
    && forall p: Id :: p in maps[0] ==> At(s.disk, p) == Some(maps[0][p])
  }

  ghost predicate Run(states: seq<State>, maps: seq<seq<Pages>>, steps: seq<Step>) {
    && |states| == |maps| == |steps| + 1 && Start(states[0], maps[0])
    && forall i :: 0 <= i < |steps| ==> Linked(states, maps, steps, i)
  }

  ghost predicate Linked(states: seq<State>, maps: seq<seq<Pages>>, steps: seq<Step>, i: nat)
    requires i < |steps| && |states| == |maps| == |steps| + 1
  {
    Next(states[i], states[i + 1], maps[i], steps[i]) && maps[i + 1] == Meaning(maps[i], steps[i])
  }

  /** Every nested commit in the first n steps of the run is one that goes well. */
  ghost predicate Proper(states: seq<State>, steps: seq<Step>, n: nat)
    requires n <= |steps| && |states| == |steps| + 1
  {
    forall i :: 0 <= i < n && steps[i].Join? ==> |states[i].chain| > 1 && ProperJoin(states[i])
  }

  lemma StartInv(s: State, maps: seq<Pages>)
    requires Start(s, maps)
    ensures Inv(s.chain, s.disk, maps) && RoomOk(s.chain, s.lost)
  {
    assert s.chain[1..] == [] && maps[1..] == [] && [s.chain[0]] + [] == s.chain;
    forall p: Id | p in maps[0] ensures View(s.chain, s.disk, p) == Some(maps[0][p]) {
      assert View(s.chain, s.disk, p) == At(s.disk, p);
    }
    assert DirtySet(s.chain) == Mids([]) + DirtySet([]) == {};
  }

  /**
   * At every point of every run whose nested commits go well: lists are in order, no page is dirty and spilled at once,
   * every transaction of the chain sees its pages, and mt_dirty_room is what RoomOk says.
   */
  lemma {:induction false} RunInv(states: seq<State>, maps: seq<seq<Pages>>, steps: seq<Step>, i: nat)
    requires Run(states, maps, steps) && i < |states| && Proper(states, steps, i)
    ensures Inv(states[i].chain, states[i].disk, maps[i]) && RoomOk(states[i].chain, states[i].lost)
  {
    if i == 0 {
      StartInv(states[0], maps[0]);
    } else {
      RunInv(states, maps, steps, i - 1);
      assert Linked(states, maps, steps, i - 1);
      StepOk(states[i - 1], states[i], maps[i - 1], steps[i - 1]);
    }
  }

  lemma StepOk(s: State, t: State, maps: seq<Pages>, step: Step)
    requires Inv(s.chain, s.disk, maps) && RoomOk(s.chain, s.lost) && Next(s, t, maps, step)
    requires step.Join? ==> ProperJoin(s)
    ensures Inv(t.chain, t.disk, Meaning(maps, step)) && RoomOk(t.chain, t.lost)
  {
    if step.Join? { JoinSizes(s, maps); }
    StepRefines(s, t, maps, step);
    StepRoom(s, t, maps, step);
  }

  lemma {:induction false} InvView(chain: seq<Level>, disk: Disk, maps: seq<Pages>, k: nat, p: Id)
    requires Inv(chain, disk, maps) && k < |maps| && p in maps[k]
    ensures View(chain[k..], disk, p) == Some(maps[k][p])
  {
    if k == 0 {
      assert chain[0..] == [chain[0]] + chain[1..];
    } else {
      InvView(chain[1..], disk, maps[1..], k - 1, p);
      assert chain[1..][k - 1..] == chain[k..];
    }
  }

  /**
   * At every moment of every run whose nested commits go well each transaction of the chain, through mdb_page_get, sees
   * exactly the pages that its own writes and committed children gave it; spilling, unspilling and copying never show,
   * and what a child does shows in its ancestors only when it commits.
   */
  lemma RunShows(states: seq<State>, maps: seq<seq<Pages>>, steps: seq<Step>, i: nat, k: nat, p: Id)
    requires Run(states, maps, steps) && i < |states| && Proper(states, steps, i) && k < |maps[i]| && p in maps[i][k]
    ensures |states[i].chain| == |maps[i]| && View(states[i].chain[k..], states[i].disk, p) == Some(maps[i][k][p])
  {
    RunInv(states, maps, steps, i);
    InvView(states[i].chain, states[i].disk, maps[i], k, p);
  }

  // ---------------------------------------------------------------- room in the dirty list

  ghost function Mids(s: seq<ID2>): set<Id> { set k | 0 <= k < |s| :: s[k].mid }

  ghost function DirtySet(chain: seq<Level>): set<Id> {
    if |chain| == 0 then {} else Mids(chain[0].dirty) + DirtySet(chain[1..])
  }

  /** The pages that mdb_page_get finds on a dirty list. */
  ghost function InRoom(chain: seq<Level>): set<Id> { set p | p in DirtySet(chain) && FoundDirty(chain, p) }

  /**
   * mt_dirty_room of each transaction counts the pages that it finds on its own or an ancestor's dirty list, and those
   * dirty pages that mdb_ovpage_free gave back.
   */
  ghost predicate RoomOk(chain: seq<Level>, lost: nat) {
    |chain| > 0 ==>
      chain[0].room + |InRoom(chain)| + lost == MDB_IDL_UM_MAX && chain[0].room >= 0 && RoomOk(chain[1..], lost)
  }

  lemma MidsGet(s: seq<ID2>, p: Id)
    ensures p in Mids(s) <==> Get(s, p).Some?
  {
    GetMeans(s, p);
    if Get(s, p).Some? {
      var k :| 0 <= k < |s| && s[k] == ID2(p, Get(s, p).value);
      assert s[k].mid == p;
    }
  }

  lemma {:induction false} MidsSize(s: seq<ID2>)
    requires Asc(s)
    ensures |Mids(s)| == |s|
  {
    if |s| > 0 {
      var n := |s| - 1;
      MidsSize(s[..n]);
      forall p: Id ensures p in Mids(s) <==> p in Mids(s[..n]) + {s[n].mid} {
        if p in Mids(s[..n]) {
          var k :| 0 <= k < n && s[..n][k].mid == p;
          assert s[k].mid == p;
        }
        if p in Mids(s) {
          var k :| 0 <= k <= n && s[k].mid == p;
          if k < n { assert s[..n][k].mid == p; }
        }
      }
      assert Mids(s) == Mids(s[..n]) + {s[n].mid};
      assert s[n].mid !in Mids(s[..n]);
    }
  }

  lemma {:induction false} FoundIn(chain: seq<Level>, p: Id)
    ensures p in InRoom(chain) <==> FoundDirty(chain, p)
    ensures FoundDirty(chain, p) ==> p in DirtySet(chain) && Mine(chain, p) && !FoundSpilled(chain, p)
  {
    if |chain| > 0 {
      MidsGet(chain[0].dirty, p);
      FoundIn(chain[1..], p);
    }
  }

  /** Two chains in which the same pages are found dirty, but for p, which is found in the second one only. */
  lemma FoundMore(c: seq<Level>, e: seq<Level>, p: Id)
    requires forall q: Id :: FoundDirty(e, q) <==> FoundDirty(c, q) || q == p
    ensures InRoom(e) == InRoom(c) + {p} && (FoundDirty(c, p) <==> InRoom(e) == InRoom(c))
    ensures |InRoom(e)| == |InRoom(c)| + if FoundDirty(c, p) then 0 else 1
  {
    forall q: Id ensures q in InRoom(e) <==> q in InRoom(c) + {p} {
      FoundIn(c, q);
      FoundIn(e, q);
    }
    FoundIn(c, p);
    assert InRoom(e) == InRoom(c) + {p};
  }

  lemma FoundSame(c: seq<Level>, e: seq<Level>)
    requires forall q: Id :: FoundDirty(e, q) <==> FoundDirty(c, q)
    ensures InRoom(e) == InRoom(c)
  {
    forall q: Id ensures q in InRoom(e) <==> q in InRoom(c) {
      FoundIn(c, q);
      FoundIn(e, q);
    }
  }

  lemma GainFound(c: seq<Level>, e: seq<Level>, p: Id, data: Bytes)
    requires |c| == |e| > 0 && c[1..] == e[1..] && Asc(c[0].dirty) && Gains(c[0].dirty, e[0].dirty, p, data)
    requires Get(c[0].dirty, p).None? && forall q: Id :: Live(e[0].spill, q) <==> Live(c[0].spill, q) && q != p
    ensures |InRoom(e)| == |InRoom(c)| + if FoundDirty(c, p) then 0 else 1
  {
    forall q: Id ensures FoundDirty(e, q) <==> FoundDirty(c, q) || q == p {
      GainsKeeps(c[0].dirty, e[0].dirty, p, data, q);
    }
    FoundMore(c, e, p);
  }

  lemma NewRoom(s: State, t: State, maps: seq<Pages>, p: Id, data: Bytes)
    requires Inv(s.chain, s.disk, maps) && RoomOk(s.chain, s.lost) && NewStep(s, t, maps, p, data)
    ensures RoomOk(t.chain, t.lost)
  {
    NotListed(s.chain[0].spill, p);
    GainFound(s.chain, t.chain, p, data);
    FoundIn(s.chain, p);
  }

  lemma CopyRoom(s: State, t: State, maps: seq<Pages>, p: Id)
    requires Inv(s.chain, s.disk, maps) && RoomOk(s.chain, s.lost) && CopyStep(s, t, p)
    ensures RoomOk(t.chain, t.lost)
  {
    NotListed(s.chain[0].spill, p);
    GainFound(s.chain, t.chain, p, View(s.chain, s.disk, p).value);
  }

  lemma UnspillRoom(s: State, t: State, maps: seq<Pages>, p: Id)
    requires Inv(s.chain, s.disk, maps) && RoomOk(s.chain, s.lost) && UnspillStep(s, t, p)
    ensures RoomOk(t.chain, t.lost)
  {
    DropLive(s.chain[0].spill, t.chain[0].spill, p);
    GainFound(s.chain, t.chain, p, s.disk[p]);
    FoundIn(s.chain, p);
  }

  lemma WriteRoom(s: State, t: State, maps: seq<Pages>, p: Id, data: Bytes)
    requires Inv(s.chain, s.disk, maps) && RoomOk(s.chain, s.lost) && WriteStep(s, t, p, data)
    ensures RoomOk(t.chain, t.lost)
  {
    forall q: Id ensures FoundDirty(t.chain, q) <==> FoundDirty(s.chain, q) {
      ReplacedKeeps(s.chain[0].dirty, t.chain[0].dirty, p, data, q);
    }
    FoundSame(s.chain, t.chain);
  }

  /** A page that is spilled is no longer found dirty, another one is where it was. */
  lemma SpillFound(c: seq<Level>, e: seq<Level>, disk: Disk, other: Disk, q: Id)
    requires |c| == |e| > 0 && c[1..] == e[1..] && Apart(c[0].dirty, c[0].spill)
    requires SpillStep(c[0].dirty, e[0].dirty, c[0].spill, e[0].spill, Ups(c[1..]), disk, other)
    ensures FoundDirty(e, q) <==> FoundDirty(c, q) && q !in Mids(c[0].dirty) - Mids(e[0].dirty)
    ensures q in Mids(e[0].dirty) ==> q in Mids(c[0].dirty)
    ensures q in Mids(c[0].dirty) ==> FoundDirty(c, q)
  {
    MidsGet(c[0].dirty, q);
    MidsGet(e[0].dirty, q);
    if !Moved(c[0].dirty, e[0].dirty, c[0].spill, e[0].spill, Ups(c[1..]), other, q) {
      assert Stayed(c[0].dirty, e[0].dirty, c[0].spill, e[0].spill, disk, other, q);
    }
  }

  lemma SetSizes(a: set<Id>, b: set<Id>, d: set<Id>, e: set<Id>)
    requires e <= d <= a && b == a - (d - e)
    ensures |a| - |b| == |d| - |e|
  {
    assert d == e + (d - e);
    assert a == b + (d - e);
  }

  lemma SpillRoom(s: State, t: State)
    requires |s.chain| > 0 && LevelOk(s.chain[0]) && RoomOk(s.chain, s.lost) && SpillsStep(s, t)
    ensures RoomOk(t.chain, t.lost)
  {
    var d, e := s.chain[0].dirty, t.chain[0].dirty;
    var a, b := InRoom(s.chain), InRoom(t.chain);
    forall q: Id ensures (q in b <==> q in a - (Mids(d) - Mids(e))) && (q in Mids(e) ==> q in Mids(d)) && (q in Mids(d) ==> q in a) {
      SpillFound(s.chain, t.chain, s.disk, t.disk, q);
      FoundIn(s.chain, q);
      FoundIn(t.chain, q);
    }
    MidsSize(d);
    MidsSize(e);
    SetSizes(a, b, Mids(d), Mids(e));
  }

  lemma ReleaseRoom(s: State, t: State, maps: seq<Pages>, p: Id)
    requires Inv(s.chain, s.disk, maps) && RoomOk(s.chain, s.lost) && ReleaseStep(s, t, p)
    ensures RoomOk(t.chain, t.lost)
  {
    var d, e := s.chain[0].dirty, t.chain[0].dirty;
    DropLive(s.chain[0].spill, t.chain[0].spill, p);
    if Live(s.chain[0].spill, p) {
      FoundSame(s.chain, t.chain);
    } else {
      forall q: Id ensures FoundDirty(s.chain, q) <==> FoundDirty(t.chain, q) || q == p { RemovedKeeps(d, e, p, q); }
      RemovedKeeps(d, e, p, p);
      FoundMore(t.chain, s.chain, p);
    }
  }

  /** The same pages are found dirty through the parent as through the child before. */
  lemma JoinFound(child: Level, parent: Level, l: Level, rest: seq<Level>, q: Id)
    requires LevelOk(child) && LevelOk(parent) && Joined(child, parent, l)
    ensures FoundDirty([l] + rest, q) <==> FoundDirty([child] + ([parent] + rest), q)
  {
    JoinedLive(child, parent, l, q);
    DoubledGet(child.dirty, q);
    DirtyMerge.UnionGet(parent.dirty, child.dirty, q);
    FoundTop(l, rest, q);
    FoundTop(parent, rest, q);
    FoundTop(child, [parent] + rest, q);
  }

  lemma FoundTop(l: Level, rest: seq<Level>, q: Id)
    ensures FoundDirty([l] + rest, q) <==> !Live(l.spill, q) && (Get(l.dirty, q).Some? || FoundDirty(rest, q))
  {
    assert ([l] + rest)[1..] == rest;
  }

  lemma JoinRoom(s: State, t: State, maps: seq<Pages>)
    requires Inv(s.chain, s.disk, maps) && RoomOk(s.chain, s.lost) && JoinStep(s, t)
    requires Joined(s.chain[0], s.chain[1], t.chain[0])
    ensures RoomOk(t.chain, t.lost)
  {
    var rest := s.chain[2..];
    assert s.chain == [s.chain[0]] + ([s.chain[1]] + rest) && t.chain == [t.chain[0]] + rest;
    assert s.chain[1..][0] == s.chain[1] && s.chain[1..][1..] == rest;
    forall q: Id ensures FoundDirty(t.chain, q) <==> FoundDirty(s.chain, q) {
      JoinFound(s.chain[0], s.chain[1], t.chain[0], rest, q);
    }
    FoundSame(s.chain, t.chain);
  }

  lemma BeginRoom(s: State, t: State)
    requires |s.chain| > 0 && RoomOk(s.chain, s.lost) && BeginStep(s, t)
    ensures RoomOk(t.chain, t.lost)
  {
    assert t.chain[1..] == s.chain;
    forall q: Id ensures FoundDirty(t.chain, q) <==> FoundDirty(s.chain, q) { FoundTop(t.chain[0], s.chain, q); }
    FoundSame(s.chain, t.chain);
  }

  lemma StepRoom(s: State, t: State, maps: seq<Pages>, step: Step)
    requires Inv(s.chain, s.disk, maps) && RoomOk(s.chain, s.lost) && Next(s, t, maps, step)
    requires step.Join? ==> JoinLen(s.chain) == |DirtyMerge.Union(s.chain[1].dirty, s.chain[0].dirty)|
    ensures RoomOk(t.chain, t.lost)
  {
    match step
    case Begin => BeginRoom(s, t);
    case New(p, data) => NewRoom(s, t, maps, p, data);
    case Copy(p) => CopyRoom(s, t, maps, p);
    case Write(p, data) => WriteRoom(s, t, maps, p, data);
    case DoSpill => SpillRoom(s, t);
    case Unspill(p) => UnspillRoom(s, t, maps, p);
    case Drop(p) =>
    case Release(p) => ReleaseRoom(s, t, maps, p);
    case Join =>
      WellJoined(s.chain[0], s.chain[1], t.chain[0]);
      JoinRoom(s, t, maps);
    case Abort =>
  }

  // ---------------------------------------------------------------- the length of a joined list

  lemma UnionMids(d: seq<ID2>, e: seq<ID2>)
    requires Asc(d) && Asc(e)
    ensures Mids(DirtyMerge.Union(d, e)) == Mids(d) + Mids(e) && |DirtyMerge.Union(d, e)| == |Mids(d) + Mids(e)|
  {
    forall q: Id ensures q in Mids(DirtyMerge.Union(d, e)) <==> q in Mids(d) + Mids(e) {
      DirtyMerge.UnionGet(d, e, q);
      MidsGet(d, q);
      MidsGet(e, q);
      MidsGet(DirtyMerge.Union(d, e), q);
    }
    DirtyMerge.UnionAsc(d, e);
    MidsSize(DirtyMerge.Union(d, e));
  }

  ghost function StaleSet(child: Level, parent: Level): set<Id> { set p | p in Mids(parent.dirty) && Stale(child, parent, p) }

  lemma StaleIn(child: Level, parent: Level, p: Id)
    ensures p in StaleSet(child, parent) <==> Stale(child, parent, p)
  {
    MidsGet(parent.dirty, p);
  }

  /** Of the pages in the union those are found dirty through the child that have not gone stale. */
  lemma UnionFound(child: Level, parent: Level, q: Id)
    requires LevelOk(child) && LevelOk(parent)
    ensures q in Mids(parent.dirty) + Mids(child.dirty) <==>
      q in InRoom([child, parent]) + StaleSet(child, parent)
    ensures !(q in InRoom([child, parent]) && q in StaleSet(child, parent))
  {
    assert [child, parent] == [child] + [parent] && [parent] == [parent] + [];
    FoundTop(child, [parent], q);
    FoundTop(parent, [], q);
    FoundIn([child, parent], q);
    StaleIn(child, parent, q);
    MidsGet(parent.dirty, q);
    MidsGet(child.dirty, q);
  }

  /**
   * The length that mdb.c:2996 takes from mt_dirty_room is too large by the dirty pages that mdb_ovpage_free gave back,
   * and too small by the pages that have gone stale.
   */
  lemma JoinSize(child: Level, parent: Level, lost: nat)
    requires LevelOk(child) && LevelOk(parent) && RoomOk([child, parent], lost)
    ensures MDB_IDL_UM_MAX - child.room == |DirtyMerge.Union(parent.dirty, child.dirty)| + lost - |StaleSet(child, parent)|
  {
    UnionMids(parent.dirty, child.dirty);
    var a, b := InRoom([child, parent]), StaleSet(child, parent);
    forall q: Id ensures (q in Mids(parent.dirty) + Mids(child.dirty) <==> q in a + b) && !(q in a && q in b) {
      UnionFound(child, parent, q);
    }
    assert Mids(parent.dirty) + Mids(child.dirty) == a + b && a !! b;
  }

  lemma InvLevels(chain: seq<Level>, disk: Disk, maps: seq<Pages>)
    requires |chain| > 1 && Inv(chain, disk, maps)
    ensures LevelOk(chain[0]) && LevelOk(chain[1])
  {
    assert chain[1..][0] == chain[1];
  }

  /** A commit that goes well has the right length. */
  lemma JoinSizes(s: State, maps: seq<Pages>)
    requires |s.chain| > 1 && Inv(s.chain, s.disk, maps) && RoomOk(s.chain, s.lost) && ProperJoin(s)
    ensures JoinLen(s.chain) == |DirtyMerge.Union(s.chain[1].dirty, s.chain[0].dirty)|
  {
    InvLevels(s.chain, s.disk, maps);
    if |s.chain| == 2 {
      assert s.chain == [s.chain[0], s.chain[1]];
      JoinSize(s.chain[0], s.chain[1], s.lost);
      assert StaleSet(s.chain[0], s.chain[1]) == {};
    }
  }

  /**
   * ProperJoin is exact: what mdb.c:3007 asserts holds and no page is dirty and spilled at once afterwards if and only
   * if no page has gone stale and, in a top-level parent, no dirty page was given back.
   */
  lemma JoinExact(s: State, t: State, maps: seq<Pages>)
    requires Inv(s.chain, s.disk, maps) && RoomOk(s.chain, s.lost) && JoinStep(s, t)
    ensures var u := DirtyMerge.Union(s.chain[1].dirty, s.chain[0].dirty);
      ProperJoin(s) <==> JoinLen(s.chain) == |u| && Apart(t.chain[0].dirty, t.chain[0].spill)
  {
    var child, parent, l := s.chain[0], s.chain[1], t.chain[0];
    InvLevels(s.chain, s.disk, maps);
    if ProperJoin(s) { JoinSizes(s, maps); }
    if JoinLen(s.chain) == |DirtyMerge.Union(parent.dirty, child.dirty)| {
      WellJoined(child, parent, l);
      JoinApart(child, parent, l);
      if |s.chain| == 2 && Apart(l.dirty, l.spill) {
        assert s.chain == [child, parent];
        JoinSize(child, parent, s.lost);
        assert StaleSet(child, parent) == {};
      }
    }
  }

  /**
   * In every run: when a child of a top-level transaction commits, the length that mdb.c:2996 takes from mt_dirty_room
   * is the size of the union exactly when the dirty pages that mdb_ovpage_free gave back balance the pages gone stale.
   */
  lemma JoinLength(states: seq<State>, maps: seq<seq<Pages>>, steps: seq<Step>, i: nat)
    requires Run(states, maps, steps) && i < |states| && Proper(states, steps, i) && |states[i].chain| == 2
    ensures var c := states[i].chain;
      var u, stale := DirtyMerge.Union(c[1].dirty, c[0].dirty), StaleSet(c[0], c[1]);
      && MDB_IDL_UM_MAX - c[0].room == |u| + states[i].lost - |stale|
      && (c[0].room + |u| == MDB_IDL_UM_MAX <==> states[i].lost == |stale|)
  {
    RunInv(states, maps, steps, i);
    var c := states[i].chain;
    InvLevels(c, states[i].disk, maps[i]);
    assert c == [c[0], c[1]];
    JoinSize(c[0], c[1], states[i].lost);
  }

  // ---------------------------------------------------------------- the flush of the last commit

  /**
   * The flush at the end of a top-level commit puts on disk what the transaction saw exactly when no page is both
   * dirty and spilled with other contents.
   */
  lemma FlushKeepsView(l: Level, disk: Disk)
    requires Asc(l.dirty) && forall k :: 0 <= k < |l.dirty| ==> !l.dirty[k].mptr.keep
    ensures (forall p: Id :: At(Written(disk, l.dirty), p) == View([l], disk, p)) <==>
      (forall p: Id :: Get(l.dirty, p).Some? && Live(l.spill, p) ==> At(disk, p) == Data(Get(l.dirty, p)))
  {
    forall p: Id ensures At(Written(disk, l.dirty), p) == View([l], disk, p) <==>
      (Get(l.dirty, p).Some? && Live(l.spill, p) ==> At(disk, p) == Data(Get(l.dirty, p)))
    {
      GetMeans(l.dirty, p);
      WrittenAt(disk, l.dirty, p);
      ViewTop(l, [], disk, p);
      assert [l] + [] == [l];
    }
  }

  /** In every run whose nested commits go well the flush puts on disk what the top-level transaction saw. */
  lemma CommitWritesView(states: seq<State>, maps: seq<seq<Pages>>, steps: seq<Step>, i: nat, p: Id)
    requires Run(states, maps, steps) && i < |states| && Proper(states, steps, i)
    requires |states[i].chain| == |maps[i]| == 1 && p in maps[i][0]
    requires forall k :: 0 <= k < |states[i].chain[0].dirty| ==> !states[i].chain[0].dirty[k].mptr.keep
    ensures At(Written(states[i].disk, states[i].chain[0].dirty), p) == Some(maps[i][0][p])
  {
    RunInv(states, maps, steps, i);
    RunShows(states, maps, steps, i, 0, p);
    var l := states[i].chain[0];
    assert states[i].chain == [l] && states[i].chain[0..] == [l];
    FlushKeepsView(l, states[i].disk);
  }
}
