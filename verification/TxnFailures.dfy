/** Runs in which a nested commit goes wrong: what the parent's list and pages become. */
module TxnFailures {
  import opened Idl
  import opened Id2l
  import opened SpillList
  import opened Spill
  import opened TxnPages
  import opened TxnSteps
  import opened TxnRuns
  import opened TxnLaws
  import DirtyMerge

  // ---------------------------------------------------------------- what a wrong length does to the list and the pages

  lemma CutGet(u: seq<ID2>, a: nat, b: nat, p: Id)
    requires Asc(u) && a <= b <= |u|
    ensures Get(u[..a] + u[b..], p) == if p in Mids(u[a..b]) then None else Get(u, p)
  {
    var x, m, y := u[..a], u[a..b], u[b..];
    assert u == x + m + y;
    GetCat(x, y, p);
    GetCat(x + m, y, p);
    GetCat(x, m, p);
    MidsGet(m, p);
    if p in Mids(m) {
      var k :| 0 <= k < |m| && m[k].mid == p;
      assert u[a + k].mid == p;
      AbsentIn(x, p);
      AbsentIn(y, p);
    }
  }

  /**
   * A length that is too short cuts a block of entries out of the union.  Through the parent a page of that block is
   * found where the parent's own ancestors, or the map, have it, unless it is spilled; every other page is what it was
   * through the child.
   */
  lemma ShortJoin(child: Level, parent: Level, len: nat, l: Level) returns (a: nat, b: nat)
    requires Asc(child.dirty) && Asc(parent.dirty) && Apart(child.dirty, child.spill) && JoinedAs(child, parent, len, l)
    requires len <= |DirtyMerge.Union(parent.dirty, child.dirty)|
    ensures var u := DirtyMerge.Union(parent.dirty, child.dirty);
      a <= b <= |u| && b - a == |u| - len && l.dirty == u[..a] + u[b..] && Asc(l.dirty)
    ensures forall rest: seq<Level>, disk: Disk, p: Id ::
      CutView(child, parent, l, DirtyMerge.Union(parent.dirty, child.dirty)[a..b], rest, disk, p)
  {
    var slots :| MergedIn(slots, parent.dirty, child.dirty, len, l.dirty);
    a, b := DirtyMerge.MergedList(slots, parent.dirty, child.dirty, len, l.dirty);
    var u := DirtyMerge.Union(parent.dirty, child.dirty);
    DirtyMerge.UnionAsc(parent.dirty, child.dirty);
    CutAsc(u, a, b);
    forall rest: seq<Level>, disk: Disk, p: Id ensures CutView(child, parent, l, u[a..b], rest, disk, p) {
      ShortView(child, parent, l, a, b, rest, disk, p);
    }
  }

  lemma CutAsc(u: seq<ID2>, a: nat, b: nat)
    requires Asc(u) && a <= b <= |u|
    ensures Asc(u[..a] + u[b..])
  {
  }

  /** The view of page p through the parent, after a commit that has cut the block out. */
  ghost predicate CutView(child: Level, parent: Level, l: Level, block: seq<ID2>, rest: seq<Level>, disk: Disk, p: Id) {
    View([l] + rest, disk, p) ==
      if p in Mids(block) && !Live(l.spill, p) then View(rest, disk, p) else View([child] + ([parent] + rest), disk, p)
  }

  lemma ShortView(child: Level, parent: Level, l: Level, a: nat, b: nat, rest: seq<Level>, disk: Disk, p: Id)
    requires Asc(child.dirty) && Asc(parent.dirty) && Apart(child.dirty, child.spill) && SpillsJoin(child, parent, l)
    requires var u := DirtyMerge.Union(parent.dirty, child.dirty); a <= b <= |u| && l.dirty == u[..a] + u[b..]
    ensures CutView(child, parent, l, DirtyMerge.Union(parent.dirty, child.dirty)[a..b], rest, disk, p)
  {
    var k := l.(dirty := DirtyMerge.Union(parent.dirty, child.dirty));
    DirtyMerge.UnionAsc(parent.dirty, child.dirty);
    JoinKeepsView(child, parent, k, rest, disk, p);
    CutGet(k.dirty, a, b, p);
    ViewTop(k, rest, disk, p);
    ViewTop(l, rest, disk, p);
  }

  /** A length that is too long puts a block of whatever is in those slots into the union. */
  lemma LongJoin(child: Level, parent: Level, len: nat, l: Level) returns (slots: seq<ID2>, a: nat)
    requires Asc(child.dirty) && Asc(parent.dirty) && JoinedAs(child, parent, len, l)
    requires len >= |DirtyMerge.Union(parent.dirty, child.dirty)|
    ensures var u := DirtyMerge.Union(parent.dirty, child.dirty);
      && parent.dirty <= slots && a == DirtyMerge.Rest(parent.dirty, child.dirty) <= |u| && a + len - |u| <= |slots|
      && l.dirty == u[..a] + slots[a..a + len - |u|] + u[a..]
  {
    slots :| MergedIn(slots, parent.dirty, child.dirty, len, l.dirty);
    var b;
    a, b := DirtyMerge.MergedList(slots, parent.dirty, child.dirty, len, l.dirty);
  }

  // ---------------------------------------------------------------- building runs

  /** Some run leads there. */
  ghost predicate Reached(s: State, maps: seq<Pages>) {
    exists states: seq<State>, all: seq<seq<Pages>>, steps: seq<Step> :: Ends(states, all, steps, s, maps)
  }

  ghost predicate Ends(states: seq<State>, all: seq<seq<Pages>>, steps: seq<Step>, s: State, maps: seq<Pages>) {
    Run(states, all, steps) && states[|steps|] == s && all[|steps|] == maps
  }

  lemma Reach(s: State, maps: seq<Pages>, t: State, step: Step)
    requires Reached(s, maps) && Next(s, t, maps, step)
    ensures Reached(t, Meaning(maps, step))
  {
    var states, all, steps :| Ends(states, all, steps, s, maps);
    forall i | 0 <= i < |steps| + 1 ensures Linked(states + [t], all + [Meaning(maps, step)], steps + [step], i) {
      if i < |steps| { assert Linked(states, all, steps, i); }
    }
    assert Ends(states + [t], all + [Meaning(maps, step)], steps + [step], t, Meaning(maps, step));
  }

  function Entry(p: Id, data: Bytes): ID2 { ID2(p, Page(p, false, data)) }

  /** A top-level transaction. */
  function Top(dirty: seq<ID2>, room: int, lost: nat): State { State([Level(dirty, [], room)], map[], lost) }

  /** It with a child. */
  function Both(dirty: seq<ID2>, spill: seq<Id>, room: int, parent: seq<ID2>, proom: int, disk: Disk, lost: nat): State {
    State([Level(dirty, spill, room), Level(parent, [], proom)], disk, lost)
  }

  lemma AtStart()
    ensures Reached(Top([], MDB_IDL_UM_MAX, 0), [map[]])
  {
    assert Ends([Top([], MDB_IDL_UM_MAX, 0)], [[map[]]], [], Top([], MDB_IDL_UM_MAX, 0), [map[]]);
  }

  /** A page larger than those on the list enters it. */
  lemma GainsLast(d: seq<ID2>, p: Id, data: Bytes)
    requires 0 < p && 2 * p < MAXID && forall k :: 0 <= k < |d| ==> d[k].mid < p
    ensures Gains(d, d + [Entry(p, data)], p, data) && Get(d, p).None?
  {
    assert d[..|d|] == d && d[|d|..] == [];
    assert Inserted(d, d + [Entry(p, data)], ID2(p, Page(p, false, data)), |d| + 1);
    AbsentIn(d, p);
  }

  /** A new page of the top-level transaction. */
  lemma Allocated(dirty: seq<ID2>, room: int, lost: nat, m: Pages, p: Id, data: Bytes)
    requires Reached(Top(dirty, room, lost), [m]) && room > 0 && 0 < p && 2 * p < MAXID && p !in m
    requires forall k :: 0 <= k < |dirty| ==> dirty[k].mid < p
    ensures Reached(Top(dirty + [Entry(p, data)], room - 1, lost), [m[p := data]])
  {
    var s, t := Top(dirty, room, lost), Top(dirty + [Entry(p, data)], room - 1, lost);
    NewTop(s, t, dirty, m, p, data);
    assert [m[p := data]] + [m][1..] == [m[p := data]];
    Reach(s, [m], t, New(p, data));
  }

  lemma NewTop(s: State, t: State, dirty: seq<ID2>, m: Pages, p: Id, data: Bytes)
    requires |s.chain| == 1 && s.chain[0].dirty == dirty && s.chain[0].spill == [] && s.chain[0].room > 0
    requires t == s.(chain := [Level(dirty + [Entry(p, data)], [], s.chain[0].room - 1)])
    requires 0 < p && 2 * p < MAXID && p !in m && forall k :: 0 <= k < |dirty| ==> dirty[k].mid < p
    ensures NewStep(s, t, [m], p, data)
  {
    GainsLast(dirty, p, data);
    assert s.chain[1..] == [] && t.chain[1..] == [];
  }

  /** A dirty overflow page, the last one of the list, goes back to me_pghead. */
  lemma GivenBack(dirty: seq<ID2>, room: int, lost: nat, m: Pages, p: Id, data: Bytes)
    requires Reached(Top(dirty + [Entry(p, data)], room, lost), [m])
    ensures Reached(Top(dirty, room, lost + 1), [m - {p}])
  {
    var d := dirty + [Entry(p, data)];
    var s, t := Top(d, room, lost), Top(dirty, room, lost + 1);
    assert d[|dirty|].mid == p && dirty == d[..|dirty|] + d[|dirty| + 1..];
    assert s.chain[1..] == [] && t.chain[1..] == [];
    assert ReleaseStep(s, t, p);
    assert [m - {p}] + [m][1..] == [m - {p}];
    Reach(s, [m], t, Release(p));
  }

  lemma Begun(dirty: seq<ID2>, room: int, lost: nat, m: Pages)
    requires Reached(Top(dirty, room, lost), [m])
    ensures Reached(Both([], [], room, dirty, room, map[], lost), [m, m])
  {
    var s, t := Top(dirty, room, lost), Both([], [], room, dirty, room, map[], lost);
    assert t.chain == [Level([], [], room)] + s.chain;
    assert [m] + [m] == [m, m];
    Reach(s, [m], t, Begin);
  }

  lemma EmptySpills(child: Level, parent: Level, l: Level)
    requires parent.spill == [] && l.spill == child.spill && Sorted(l.spill) && l.room == child.room
    ensures SpillsJoin(child, parent, l)
  {
    var none: seq<Id> := [];
    assert none[..0] + Kept(none[0..], Doubled(child.dirty)) == none && Squashed(none, none, Doubled(child.dirty));
    assert none + child.spill == child.spill;
  }

  /**
   * Two pages 5 and 7 gone stale under a child that has allocated 8 and 9: the merge reads what it has written, moves it
   * down again and again, and leaves its array.
   */
  lemma StrayMerge(child: Level, parent: Level)
    requires parent.dirty == [Entry(5, [1]), Entry(7, [1])] && child.dirty == [Entry(8, [1]), Entry(9, [1])]
    ensures |DirtyMerge.Union(parent.dirty, child.dirty)| == 4 && !DirtyMerge.Fits(parent.dirty, child.dirty, 2)
  {
    var d, e := parent.dirty, child.dirty;
    assert e[..1][..0] == [] && e[..1] == [Entry(8, [1])];
    assert DirtyMerge.Union(d, e[..1][..0]) == d;
    assert DirtyMerge.Union(d, e[..1]) == d + [Entry(8, [1])];
    assert DirtyMerge.UpTo(d, 8) == 2 && DirtyMerge.Rest(d, e) == 2;
  }

  // ---------------------------------------------------------------- a page given back

  /**
   * A top-level transaction has page 7 and gives page 9 back; its child allocates page 6 and commits.  The length is one
   * too long: what is asserted fails, and without the assertion page 7 is on the list twice, out of order.
   */
  lemma LostPage() returns (s: State, t: State, maps: seq<Pages>)
    ensures Reached(s, maps) && |s.chain| == 2 && s.lost == 1 && Next(s, t, maps, Join)
    ensures JoinLen(s.chain) == 3 && DirtyMerge.Union(s.chain[1].dirty, s.chain[0].dirty) == [Entry(6, [3]), Entry(7, [1])]
    ensures t.chain[0].dirty == [Entry(7, [1]), Entry(6, [3]), Entry(7, [1])] && !Asc(t.chain[0].dirty)
  {
    var m: Pages := map[7 := [1]];
    SevenWithChild(m);
    maps := [m[6 := [3]], m];
    s := Both([Entry(6, [3])], [], MDB_IDL_UM_MAX - 3, [Entry(7, [1])], MDB_IDL_UM_MAX - 2, map[], 1);
    t := Top([Entry(7, [1]), Entry(6, [3]), Entry(7, [1])], MDB_IDL_UM_MAX - 3, 1);
    LongStep(s, t);
    assert t.chain[0].dirty[0].mid == 7 && t.chain[0].dirty[1].mid == 6;
  }

  lemma SevenWithChild(m: Pages)
    requires m == map[7 := [1]]
    ensures var s := Both([Entry(6, [3])], [], MDB_IDL_UM_MAX - 3, [Entry(7, [1])], MDB_IDL_UM_MAX - 2, map[], 1);
      Reached(s, [m[6 := [3]], m])
  {
    Seven(m);
    Begun([Entry(7, [1])], MDB_IDL_UM_MAX - 2, 1, m);
    GetMeans([Entry(7, [1])], 6);
    ChildAllocates([Entry(7, [1])], MDB_IDL_UM_MAX - 2, 1, m, 6, [3]);
  }

  lemma Seven(m: Pages)
    requires m == map[7 := [1]]
    ensures Reached(Top([Entry(7, [1])], MDB_IDL_UM_MAX - 2, 1), [m])
  {
    var none: Pages := map[];
    AtStart();
    assert [] + [Entry(7, [1])] == [Entry(7, [1])] && none[7 := [1]] == m && m[9 := [2]] - {9} == m;
    Allocated([], MDB_IDL_UM_MAX, 0, none, 7, [1]);
    Allocated([Entry(7, [1])], MDB_IDL_UM_MAX - 1, 0, m, 9, [2]);
    GivenBack([Entry(7, [1])], MDB_IDL_UM_MAX - 2, 0, m[9 := [2]], 9, [2]);
  }

  /** A child allocates its first page. */
  lemma ChildAllocates(d: seq<ID2>, room: int, lost: nat, m: Pages, p: Id, data: Bytes)
    requires Reached(Both([], [], room, d, room, map[], lost), [m, m]) && room > 0
    requires 0 < p && 2 * p < MAXID && p !in m && Get(d, p).None?
    ensures Reached(Both([Entry(p, data)], [], room - 1, d, room, map[], lost), [m[p := data], m])
  {
    var s, t := Both([], [], room, d, room, map[], lost), Both([Entry(p, data)], [], room - 1, d, room, map[], lost);
    var l := Level(d, [], room);
    assert s.chain[1..] == [l];
    NotMine(s.chain, l, p);
    var maps := [m, m];
    assert t == s.(chain := [Level([Entry(p, data)], [], room - 1)] + s.chain[1..]);
    ChildNew(s, t, maps, p, data);
    assert [m[p := data]] + maps[1..] == [m[p := data], m];
    Reach(s, maps, t, New(p, data));
  }

  lemma ChildNew(s: State, t: State, maps: seq<Pages>, p: Id, data: Bytes)
    requires |s.chain| > 0 && s.chain[0].dirty == [] && s.chain[0].spill == [] && s.chain[0].room > 0
    requires t == s.(chain := [Level([Entry(p, data)], [], s.chain[0].room - 1)] + s.chain[1..])
    requires 0 < p && 2 * p < MAXID && Absent(maps, p) && !Mine(s.chain, p)
    ensures NewStep(s, t, maps, p, data)
  {
    GainsLast([], p, data);
    assert [] + [Entry(p, data)] == [Entry(p, data)];
  }

  lemma NotMine(chain: seq<Level>, l: Level, p: Id)
    requires |chain| == 2 && chain[0].dirty == [] && chain[0].spill == [] && chain[1..] == [l]
    requires l.spill == [] && Get(l.dirty, p).None?
    ensures !Mine(chain, p)
  {
    assert [l][1..] == [];
    assert !Mine([l], p);
  }

  lemma LongStep(s: State, t: State)
    requires s == Both([Entry(6, [3])], [], MDB_IDL_UM_MAX - 3, [Entry(7, [1])], MDB_IDL_UM_MAX - 2, map[], 1)
    requires t == Top([Entry(7, [1]), Entry(6, [3]), Entry(7, [1])], MDB_IDL_UM_MAX - 3, 1)
    ensures JoinStep(s, t) && JoinLen(s.chain) == 3
    ensures DirtyMerge.Union(s.chain[1].dirty, s.chain[0].dirty) == [Entry(6, [3]), Entry(7, [1])]
  {
    var d, e := [Entry(7, [1])], [Entry(6, [3])];
    var u := [Entry(6, [3]), Entry(7, [1])];
    assert d[..0] == [] && e[..0] == [];
    assert DirtyMerge.Union(d[..0], e[..0]) == [];
    assert DirtyMerge.Union(d[..0], e) == e;
    assert DirtyMerge.Union(d, e) == u;
    assert DirtyMerge.UpTo(d, 6) == 0 && DirtyMerge.Rest(d, e) == 0;
    var slots := seq(MDB_IDL_UM_MAX, i => Entry(7, [1]));
    assert d <= slots && slots[..1] + u[0..] == t.chain[0].dirty;
    assert MergedIn(slots, d, e, 3, t.chain[0].dirty);
    EmptySpills(s.chain[0], s.chain[1], t.chain[0]);
  }

  // ---------------------------------------------------------------- a page gone stale

  /** A child copies page 5 of its parent, changes it to [3] and spills it. */
  lemma ChildSpills(d: seq<ID2>, room: int, lost: nat, m: Pages)
    requires Reached(Top(d, room, lost), [m]) && Get(d, 5) == Some(Entry(5, [1]).mptr)
    ensures Reached(Both([], [10], room + 1, d, room, map[5 := [3]], lost), [m[5 := [3]], m])
  {
    Begun(d, room, lost, m);
    CopyFive(d, room, lost, m);
    WriteFive(d, room, lost, m);
    SpillFive(d, room, lost, [m[5 := [3]], m]);
  }

  lemma CopyFive(d: seq<ID2>, room: int, lost: nat, m: Pages)
    requires Reached(Both([], [], room, d, room, map[], lost), [m, m]) && Get(d, 5) == Some(Entry(5, [1]).mptr)
    ensures Reached(Both([Entry(5, [1])], [], room, d, room, map[], lost), [m, m])
  {
    var s, t := Both([], [], room, d, room, map[], lost), Both([Entry(5, [1])], [], room, d, room, map[], lost);
    var l := Level(d, [], room);
    assert s.chain[1..] == [l];
    FoundBelow(s.chain, l, s.disk, 5, [1]);
    assert t == s.(chain := [Level([Entry(5, [1])], [], room)] + s.chain[1..]);
    ChildCopies(s, t, 5, [1]);
    Reach(s, [m, m], t, Copy(5));
  }

  lemma FoundBelow(chain: seq<Level>, l: Level, disk: Disk, p: Id, data: Bytes)
    requires |chain| == 2 && chain[0].dirty == [] && chain[0].spill == [] && chain[1..] == [l]
    requires l.spill == [] && Get(l.dirty, p) == Some(Entry(p, data).mptr)
    ensures FoundDirty(chain, p) && View(chain, disk, p) == Some(data)
  {
    assert FoundDirty([l], p) && View([l], disk, p) == Some(data);
  }

  lemma ChildCopies(s: State, t: State, p: Id, data: Bytes)
    requires |s.chain| > 0 && s.chain[0].dirty == [] && s.chain[0].spill == [] && 0 < p && 2 * p < MAXID
    requires t == s.(chain := [Level([Entry(p, data)], [], s.chain[0].room)] + s.chain[1..])
    requires FoundDirty(s.chain, p) && View(s.chain, s.disk, p) == Some(data)
    ensures CopyStep(s, t, p)
  {
    GainsLast([], p, data);
    assert [] + [Entry(p, data)] == [Entry(p, data)];
  }

  lemma WriteFive(d: seq<ID2>, room: int, lost: nat, m: Pages)
    requires Reached(Both([Entry(5, [1])], [], room, d, room, map[], lost), [m, m])
    ensures Reached(Both([Entry(5, [3])], [], room, d, room, map[], lost), [m[5 := [3]], m])
  {
    var s, t := Both([Entry(5, [1])], [], room, d, room, map[], lost), Both([Entry(5, [3])], [], room, d, room, map[], lost);
    var c := [Entry(5, [1])];
    assert s.chain[1..] == t.chain[1..] == [Level(d, [], room)];
    assert c[0].mid == 5 && [Entry(5, [3])] == c[0 := ID2(5, c[0].mptr.(data := [3]))];
    assert WriteStep(s, t, 5, [3]);
    assert [m[5 := [3]]] + [m, m][1..] == [m[5 := [3]], m];
    Reach(s, [m, m], t, Write(5, [3]));
  }

  lemma SpillFive(d: seq<ID2>, room: int, lost: nat, maps: seq<Pages>)
    requires Reached(Both([Entry(5, [3])], [], room, d, room, map[], lost), maps) && |maps| == 2
    ensures Reached(Both([], [10], room + 1, d, room, map[5 := [3]], lost), maps)
  {
    var s, t := Both([Entry(5, [3])], [], room, d, room, map[], lost), Both([], [10], room + 1, d, room, map[5 := [3]], lost);
    var p: Level := Level(d, [], room);
    assert s.chain[1..] == t.chain[1..] == [p] && [p][1..] == [] && Ups([p]) == [[]];
    forall q: Id ensures Moved([Entry(5, [3])], [], [], [10], [[]], map[5 := [3]], q) ||
      Stayed([Entry(5, [3])], [], [], [10], map[], map[5 := [3]], q)
    {
      GetMeans([Entry(5, [3])], q);
    }
    assert SpillsStep(s, t);
    Reach(s, maps, t, DoSpill);
  }

  lemma ShortStep(d: seq<ID2>, proom: int, lost: nat)
    requires 0 < |d| <= 2 && d[0] == Entry(5, [1])
    ensures var s := Both([], [10], MDB_IDL_UM_MAX - 1, d, proom, map[5 := [3]], lost);
      var t := State([Level([Entry(5, [1])], [10], MDB_IDL_UM_MAX - 1)], map[5 := [3]], lost);
      JoinStep(s, t)
  {
    var s := Both([], [10], MDB_IDL_UM_MAX - 1, d, proom, map[5 := [3]], lost);
    var t := State([Level([Entry(5, [1])], [10], MDB_IDL_UM_MAX - 1)], map[5 := [3]], lost);
    CutSlots(d);
    assert t.chain[1..] == [] && s.chain[2..] == [];
    EmptySpills(s.chain[0], s.chain[1], t.chain[0]);
  }

  lemma CutSlots(d: seq<ID2>)
    requires 0 < |d| <= 2
    ensures exists slots :: MergedIn(slots, d, [], 1, [d[0]])
  {
    var slots := d + seq(MDB_IDL_UM_MAX - |d|, i => d[0]);
    assert slots[..1] == [d[0]] && d[|d|..] == [];
    assert MergedIn(slots, d, [], 1, [d[0]]);
  }

  /**
   * With a page 7 in the parent the length is one too short: what is asserted fails, and without the assertion page 7 is
   * cut off the list and lost.
   */
  lemma CutPage() returns (s: State, t: State, maps: seq<Pages>)
    ensures Reached(s, maps) && |s.chain| == 2 && s.lost == 0 && Next(s, t, maps, Join)
    ensures JoinLen(s.chain) == 1 && |DirtyMerge.Union(s.chain[1].dirty, s.chain[0].dirty)| == 2
    ensures Meaning(maps, Join) == [map[5 := [3], 7 := [2]]] && t.chain[0].dirty == [Entry(5, [1])]
    ensures View(t.chain, t.disk, 7) == None && At(Written(t.disk, t.chain[0].dirty), 7) == None
  {
    var d := [Entry(5, [1]), Entry(7, [2])];
    var m: Pages := map[5 := [1], 7 := [2]];
    FiveAndSeven(d, m);
    ChildSpills(d, MDB_IDL_UM_MAX - 2, 0, m);
    maps := [m[5 := [3]], m];
    s := Both([], [10], MDB_IDL_UM_MAX - 1, d, MDB_IDL_UM_MAX - 2, map[5 := [3]], 0);
    t := State([Level([Entry(5, [1])], [10], MDB_IDL_UM_MAX - 1)], map[5 := [3]], 0);
    ShortStep(d, MDB_IDL_UM_MAX - 2, 0);
    assert [maps[0]] + maps[2..] == [maps[0]] && maps[0] == map[5 := [3], 7 := [2]];
    assert DirtyMerge.Union(s.chain[1].dirty, s.chain[0].dirty) == d;
    NotSeven(t);
  }

  lemma FiveAndSeven(d: seq<ID2>, m: Pages)
    requires d == [Entry(5, [1]), Entry(7, [2])] && m == map[5 := [1], 7 := [2]]
    ensures Reached(Top(d, MDB_IDL_UM_MAX - 2, 0), [m]) && Get(d, 5) == Some(Entry(5, [1]).mptr)
  {
    AtStart();
    Allocated([], MDB_IDL_UM_MAX, 0, map[], 5, [1]);
    assert [] + [Entry(5, [1])] == [Entry(5, [1])] && [Entry(5, [1])] + [Entry(7, [2])] == d;
    var m5: Pages := map[5 := [1]];
    assert m5[7 := [2]] == m;
    Allocated([Entry(5, [1])], MDB_IDL_UM_MAX - 1, 0, m5, 7, [2]);
    assert d[..1] == [Entry(5, [1])] && Get([Entry(5, [1])], 5) == Some(Entry(5, [1]).mptr);
  }

  lemma NotSeven(t: State)
    requires t == State([Level([Entry(5, [1])], [10], MDB_IDL_UM_MAX - 1)], map[5 := [3]], 0)
    ensures View(t.chain, t.disk, 7) == None && At(Written(t.disk, t.chain[0].dirty), 7) == None
  {
    WrittenAt(t.disk, t.chain[0].dirty, 7);
    GetMeans([Entry(5, [1])], 7);
    assert t.chain[1..] == [];
  }

  /**
   * When a page given back makes up for the stale one, what is asserted holds.  The parent then sees the child's page 5,
   * but has the old one on its dirty list, and its own commit writes that.
   */
  lemma StaleFlush() returns (s: State, t: State, maps: seq<Pages>)
    ensures Reached(s, maps) && |s.chain| == 2 && Next(s, t, maps, Join)
    ensures JoinLen(s.chain) == |DirtyMerge.Union(s.chain[1].dirty, s.chain[0].dirty)|
    ensures Meaning(maps, Join) == [map[5 := [3]]] && View(t.chain, t.disk, 5) == Some([3])
    ensures At(Written(t.disk, t.chain[0].dirty), 5) == Some([1])
  {
    var d := [Entry(5, [1])];
    var m: Pages := map[5 := [1]];
    NineForFive(d, m);
    ChildSpills(d, MDB_IDL_UM_MAX - 2, 1, m);
    maps := [m[5 := [3]], m];
    s := Both([], [10], MDB_IDL_UM_MAX - 1, d, MDB_IDL_UM_MAX - 2, map[5 := [3]], 1);
    t := State([Level(d, [10], MDB_IDL_UM_MAX - 1)], map[5 := [3]], 1);
    ShortStep(d, MDB_IDL_UM_MAX - 2, 1);
    assert [maps[0]] + maps[2..] == [maps[0]] && maps[0] == map[5 := [3]];
    assert DirtyMerge.Union(s.chain[1].dirty, s.chain[0].dirty) == d;
    assert t.chain[1..] == [];
    WrittenAt(t.disk, d, 5);
  }

  lemma NineForFive(d: seq<ID2>, m: Pages)
    requires d == [Entry(5, [1])] && m == map[5 := [1]]
    ensures Reached(Top(d, MDB_IDL_UM_MAX - 2, 1), [m]) && Get(d, 5) == Some(Entry(5, [1]).mptr)
  {
    var none: Pages := map[];
    AtStart();
    Allocated([], MDB_IDL_UM_MAX, 0, none, 9, [2]);
    GivenBack([], MDB_IDL_UM_MAX - 1, 0, none[9 := [2]], 9, [2]);
    assert none[9 := [2]] - {9} == none && none[5 := [1]] == m && [] + d == d;
    Allocated([], MDB_IDL_UM_MAX - 1, 1, none, 5, [1]);
  }
}
