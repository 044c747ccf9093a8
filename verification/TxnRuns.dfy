/** Every run of the list operations shows each transaction of the chain the pages it should see. */
module TxnRuns {
  import opened Idl
  import opened Id2l
  import opened SpillList
  import opened Spill
  import opened TxnPages
  import opened TxnSteps
  import DirtyMerge

  // ---------------------------------------------------------------- a page enters the dirty list

  /** The page map m2 says what m says, and data for page p. */
  ghost predicate Says(m: Pages, m2: Pages, p: Id, data: Bytes) {
    forall q: Id :: q in m2 ==> if q == p then m2[q] == data else q in m && m2[q] == m[q]
  }

  lemma GainOk(l: Level, k: Level, rest: seq<Level>, disk: Disk, m: Pages, m2: Pages, maps: seq<Pages>, p: Id, data: Bytes)
    requires |maps| == |rest| && TopOk(l, rest, disk, m, maps) && Gains(l.dirty, k.dirty, p, data) && Get(l.dirty, p).None?
    requires Ordered(k.spill) && forall q: Id :: Live(k.spill, q) <==> Live(l.spill, q) && q != p
    requires Covered(rest, maps, p) && Says(m, m2, p, data)
    ensures TopOk(k, rest, disk, m2, maps)
  {
    GainsTidy(l.dirty, k.dirty, p, data);
    forall q: Id ensures Data(Get(k.dirty, q)) == if q == p then Some(data) else Data(Get(l.dirty, q)) {
      GainsKeeps(l.dirty, k.dirty, p, data, q);
    }
    GainsKeeps(l.dirty, k.dirty, p, data, p);
    forall q: Id | q in m2 ensures View([k] + rest, disk, q) == Some(m2[q]) {
      ViewTop(k, rest, disk, q);
      ViewTop(l, rest, disk, q);
      assert q != p ==> View([l] + rest, disk, q) == Some(m[q]);
    }
  }

  lemma ConsTail(m: Pages, maps: seq<Pages>)
    ensures ([m] + maps)[1..] == maps
  {
  }

  lemma NewInv(s: State, t: State, maps: seq<Pages>, p: Id, data: Bytes)
    requires Inv(s.chain, s.disk, maps) && NewStep(s, t, maps, p, data)
    ensures Inv(t.chain, t.disk, [maps[0][p := data]] + maps[1..])
  {
    assert forall k :: 0 <= k < |maps[1..]| ==> maps[1..][k] == maps[k + 1];
    AbsentCovered(s.chain[1..], maps[1..], p);
    NotListed(s.chain[0].spill, p);
    GainOk(s.chain[0], t.chain[0], s.chain[1..], s.disk, maps[0], maps[0][p := data], maps[1..], p, data);
    ConsTail(maps[0][p := data], maps[1..]);
  }

  lemma NotListed(sp: seq<Id>, p: Id)
    requires !Live(sp, p)
    ensures forall q: Id :: Live(sp, q) <==> Live(sp, q) && q != p
  {
  }

  lemma CopyInv(s: State, t: State, maps: seq<Pages>, p: Id)
    requires Inv(s.chain, s.disk, maps) && CopyStep(s, t, p)
    ensures Inv(t.chain, t.disk, maps)
  {
    FoundCovered(s.chain, s.disk, maps, p);
    NotListed(s.chain[0].spill, p);
    assert [s.chain[0]] + s.chain[1..] == s.chain;
    var data := View(s.chain, s.disk, p).value;
    GainOk(s.chain[0], t.chain[0], s.chain[1..], s.disk, maps[0], maps[0], maps[1..], p, data);
  }

  lemma UnspillInv(s: State, t: State, maps: seq<Pages>, p: Id)
    requires Inv(s.chain, s.disk, maps) && UnspillStep(s, t, p)
    ensures Inv(t.chain, t.disk, maps)
  {
    UnspillFound(s.chain, s.disk, maps, p);
    UnspillTop(s.chain[0], t.chain[0], s.chain[1..], s.disk, maps[0], maps[1..], p);
    NewTop(s.chain, t.chain, s.disk, maps);
  }

  lemma UnspillFound(chain: seq<Level>, disk: Disk, maps: seq<Pages>, p: Id)
    requires Inv(chain, disk, maps) && FoundSpilled(chain, p) && p in disk
    ensures Covered(chain[1..], maps[1..], p) && View([chain[0]] + chain[1..], disk, p) == Some(disk[p])
  {
    FoundCovered(chain, disk, maps, p);
    FoundOnDisk(chain, disk, p);
    assert [chain[0]] + chain[1..] == chain;
  }

  lemma NewTop(chain: seq<Level>, next: seq<Level>, disk: Disk, maps: seq<Pages>)
    requires Inv(chain, disk, maps) && |next| == |chain| > 0 && next[1..] == chain[1..]
    requires TopOk(next[0], chain[1..], disk, maps[0], maps[1..])
    ensures Inv(next, disk, maps)
  {
  }

  lemma UnspillTop(l: Level, k: Level, rest: seq<Level>, disk: Disk, m: Pages, maps: seq<Pages>, p: Id)
    requires |maps| == |rest| && TopOk(l, rest, disk, m, maps) && Get(l.dirty, p).None? && Covered(rest, maps, p)
    requires p in disk && View([l] + rest, disk, p) == Some(disk[p])
    requires Gains(l.dirty, k.dirty, p, disk[p]) && SpillDrop(l.spill, k.spill, p)
    ensures TopOk(k, rest, disk, m, maps)
  {
    DropLive(l.spill, k.spill, p);
    assert p in m ==> View([l] + rest, disk, p) == Some(m[p]);
    GainOk(l, k, rest, disk, m, m, maps, p, disk[p]);
  }

  lemma DropLive(sp: seq<Id>, sq: seq<Id>, p: Id)
    requires Ordered(sp) && SpillDrop(sp, sq, p)
    ensures Ordered(sq) && forall q: Id :: Live(sq, q) <==> Live(sp, q) && q != p
  {
    if Live(sp, p) {
      forall q: Id ensures Live(sq, q) <==> Live(sp, q) && q != p {
        UnlistedKeeps(sp, sq, 2 * p, q);
      }
      UnlistedKeeps(sp, sq, 2 * p, p);
    }
  }

  // ---------------------------------------------------------------- a dirty page changes or goes

  lemma WriteInv(s: State, t: State, maps: seq<Pages>, p: Id, data: Bytes)
    requires Inv(s.chain, s.disk, maps) && WriteStep(s, t, p, data)
    ensures Inv(t.chain, t.disk, [maps[0][p := data]] + maps[1..])
  {
    var l, k, rest := s.chain[0], t.chain[0], s.chain[1..];
    var m: Pages, m2: Pages := maps[0], maps[0][p := data];
    forall q: Id ensures Data(Get(k.dirty, q)) == if q == p then Some(data) else Data(Get(l.dirty, q)) {
      ReplacedKeeps(l.dirty, k.dirty, p, data, q);
    }
    ReplacedKeeps(l.dirty, k.dirty, p, data, p);
    forall q: Id | q in m2 ensures View([k] + rest, s.disk, q) == Some(m2[q]) {
      ViewTop(k, rest, s.disk, q);
      ViewTop(l, rest, s.disk, q);
      assert q != p ==> View([l] + rest, s.disk, q) == Some(m[q]);
    }
    ConsTail(m2, maps[1..]);
  }

  lemma ReleaseInv(s: State, t: State, maps: seq<Pages>, p: Id)
    requires Inv(s.chain, s.disk, maps) && ReleaseStep(s, t, p)
    ensures Inv(t.chain, t.disk, [maps[0] - {p}] + maps[1..])
  {
    var l, k, rest := s.chain[0], t.chain[0], s.chain[1..];
    var m: Pages, m2: Pages := maps[0], maps[0] - {p};
    DropLive(l.spill, k.spill, p);
    if !Live(l.spill, p) {
      forall q: Id ensures Get(k.dirty, q) == if q == p then None else Get(l.dirty, q) {
        RemovedKeeps(l.dirty, k.dirty, p, q);
      }
      RemovedKeeps(l.dirty, k.dirty, p, p);
    }
    forall q: Id | q in m2 ensures View([k] + rest, s.disk, q) == Some(m2[q]) {
      ViewTop(k, rest, s.disk, q);
      ViewTop(l, rest, s.disk, q);
      assert View([l] + rest, s.disk, q) == Some(m[q]);
    }
    ConsTail(m2, maps[1..]);
  }

  lemma DropInv(s: State, maps: seq<Pages>, p: Id)
    requires |maps| > 0 && Inv(s.chain, s.disk, maps)
    ensures Inv(s.chain, s.disk, [maps[0] - {p}] + maps[1..])
  {
    ConsTail(maps[0] - {p}, maps[1..]);
  }

  // ---------------------------------------------------------------- spilling

  lemma {:induction false} NotAbove(rest: seq<Level>, p: Id)
    requires !SpilledAbove(Ups(rest), p)
    ensures !SpilledIn(rest, p)
  {
    if |rest| > 0 {
      assert Ups(rest)[0] == rest[0].spill;
      forall k | 0 <= k < |Ups(rest[1..])| ensures !Live(Ups(rest[1..])[k], p) {
        assert Ups(rest)[k + 1] == Ups(rest[1..])[k];
      }
      NotAbove(rest[1..], p);
    }
  }

  lemma SpillTop(l: Level, k: Level, rest: seq<Level>, disk: Disk, other: Disk, m: Pages, maps: seq<Pages>)
    requires |maps| == |rest| && TopOk(l, rest, disk, m, maps)
    requires SpillStep(l.dirty, k.dirty, l.spill, k.spill, Ups(rest), disk, other)
    requires Asc(k.dirty) && Tidy(k.dirty) && Small(k.dirty) && Ordered(k.spill)
    ensures TopOk(k, rest, other, m, maps)
  {
    forall q: Id ensures
      && (Get(k.dirty, q).Some? ==> !Live(k.spill, q)) && (Live(k.spill, q) ==> !SpilledIn(rest, q))
      && (Live(k.spill, q) || Get(k.dirty, q).Some? ==> Covered(rest, maps, q))
    {
      if Moved(l.dirty, k.dirty, l.spill, k.spill, Ups(rest), other, q) {
        NotAbove(rest, q);
      } else {
        assert Stayed(l.dirty, k.dirty, l.spill, k.spill, disk, other, q);
      }
    }
    forall q: Id | q in m ensures View([k] + rest, other, q) == Some(m[q]) {
      ViewTop(k, rest, other, q);
      ViewTop(l, rest, disk, q);
      assert View([l] + rest, disk, q) == Some(m[q]);
      if Stayed(l.dirty, k.dirty, l.spill, k.spill, disk, other, q) { SameView(rest, disk, other, q); }
    }
  }

  lemma SpillInv(s: State, t: State, maps: seq<Pages>)
    requires Inv(s.chain, s.disk, maps) && SpillsStep(s, t)
    ensures Inv(t.chain, t.disk, maps)
  {
    var l, k, rest := s.chain[0], t.chain[0], s.chain[1..];
    SpillTop(l, k, rest, s.disk, t.disk, maps[0], maps[1..]);
    forall p: Id ensures At(t.disk, p) == At(s.disk, p) || Safe(rest, maps[1..], p) {
      if Moved(l.dirty, k.dirty, l.spill, k.spill, Ups(rest), t.disk, p) {
        NotAbove(rest, p);
        CoveredSafe(rest, maps[1..], p);
      }
    }
    DiskFrame(rest, s.disk, t.disk, maps[1..]);
  }

  // ---------------------------------------------------------------- nested begin, commit and abort

  lemma BeginInv(s: State, t: State, maps: seq<Pages>)
    requires |s.chain| > 0 && Inv(s.chain, s.disk, maps) && BeginStep(s, t)
    ensures Inv(t.chain, t.disk, [maps[0]] + maps)
  {
    var l := t.chain[0];
    assert t.chain[1..] == s.chain && ([maps[0]] + maps)[1..] == maps && [s.chain[0]] + s.chain[1..] == s.chain;
    forall p: Id | p in maps[0] ensures View([l] + s.chain, s.disk, p) == Some(maps[0][p]) {
      ViewTop(l, s.chain, s.disk, p);
    }
  }

  /** Each page of the joined spill list was live in the child, or in the parent and not dirty in the child. */
  lemma JoinedLive(child: Level, parent: Level, l: Level, p: Id)
    requires Joined(child, parent, l)
    ensures Live(l.spill, p) <==> Live(child.spill, p) || (Live(parent.spill, p) && 2 * p !in Doubled(child.dirty))
  {
    var sq :| Squashed(parent.spill, sq, Doubled(child.dirty)) && multiset(l.spill) == multiset(sq + child.spill);
    SquashedLive(parent.spill, sq, Doubled(child.dirty), p);
    if 2 * p <= MAXID { InBoth(l.spill, sq, child.spill, 2 * p); }
  }

  lemma DoubledGet(s: seq<ID2>, p: Id)
    ensures 2 * p in Doubled(s) <==> Get(s, p).Some?
  {
    GetMeans(s, p);
    if Get(s, p).Some? {
      var k :| 0 <= k < |s| && s[k] == ID2(p, Get(s, p).value);
      assert s[k].mid * 2 == 2 * p;
    }
  }

  /** With the length of the union the dirty lists merge well. */
  lemma WellJoined(child: Level, parent: Level, l: Level)
    requires Asc(parent.dirty) && Asc(child.dirty)
    requires JoinedAs(child, parent, |DirtyMerge.Union(parent.dirty, child.dirty)|, l)
    ensures Joined(child, parent, l)
  {
    var slots :| MergedIn(slots, parent.dirty, child.dirty, |DirtyMerge.Union(parent.dirty, child.dirty)|, l.dirty);
    DirtyMerge.MergedWell(slots, parent.dirty, child.dirty, l.dirty);
  }

  /**
   * Committing a child changes no page the parent's user can see, when the dirty lists merge well: through the parent
   * each page is what it was through the child, even one that has gone stale.
   */
  lemma JoinKeepsView(child: Level, parent: Level, l: Level, rest: seq<Level>, disk: Disk, p: Id)
    requires Asc(child.dirty) && Asc(parent.dirty) && Apart(child.dirty, child.spill) && Joined(child, parent, l)
    ensures View([l] + rest, disk, p) == View([child] + ([parent] + rest), disk, p)
  {
    JoinedLive(child, parent, l, p);
    DoubledGet(child.dirty, p);
    DirtyMerge.UnionGet(parent.dirty, child.dirty, p);
    ViewTop(l, rest, disk, p);
    ViewTop(parent, rest, disk, p);
    ViewTop(child, [parent] + rest, disk, p);
  }

  /**
   * In the parent no page is dirty and spilled at once afterwards exactly when the child has spilled no page
   * that its parent holds dirty.
   */
  lemma JoinApart(child: Level, parent: Level, l: Level)
    requires Asc(child.dirty) && Asc(parent.dirty) && Apart(child.dirty, child.spill) && Apart(parent.dirty, parent.spill)
    requires Joined(child, parent, l)
    ensures Apart(l.dirty, l.spill) <==> forall p: Id :: !Stale(child, parent, p)
  {
    forall p: Id ensures Get(l.dirty, p).Some? && Live(l.spill, p) <==> Stale(child, parent, p) {
      JoinedLive(child, parent, l, p);
      DoubledGet(child.dirty, p);
      DirtyMerge.UnionGet(parent.dirty, child.dirty, p);
    }
  }

  /** The joined spill list is in order when the child has spilled nothing that the parent has spilled. */
  lemma JoinOrdered(child: Level, parent: Level, l: Level)
    requires Joined(child, parent, l) && Ordered(child.spill) && Ordered(parent.spill)
    requires forall p: Id :: Live(child.spill, p) ==> !Live(parent.spill, p)
    ensures Ordered(l.spill)
  {
    var sq :| Squashed(parent.spill, sq, Doubled(child.dirty)) && multiset(l.spill) == multiset(sq + child.spill);
    SquashedOrdered(parent.spill, sq, Doubled(child.dirty));
    forall x: Id | x % 2 == 0 ensures multiset(l.spill)[x] <= 1 {
      EvenOnce(sq, x);
      EvenOnce(child.spill, x);
      NotBoth(parent.spill, child.spill, sq, Doubled(child.dirty), x);
      OnceInBoth(sq, child.spill, x);
    }
    EvensOnce(l.spill);
  }

  lemma NotBoth(sp: seq<Id>, cs: seq<Id>, sq: seq<Id>, gone: set<nat>, x: Id)
    requires Squashed(sp, sq, gone) && x % 2 == 0 && forall p: Id :: Live(cs, p) ==> !Live(sp, p)
    ensures x in sq ==> x !in cs
  {
    SquashedLive(sp, sq, gone, x / 2);
    assert Live(cs, x / 2) <==> x in cs;
  }

  lemma {:induction false} EvenOnce(s: seq<Id>, x: Id)
    requires Ordered(s) && x % 2 == 0
    ensures multiset(s)[x] <= 1
  {
    if |s| > 0 {
      var n := |s| - 1;
      EvenOnce(s[..n], x);
      assert s == s[..n] + [s[n]];
      assert x == s[n] ==> x !in s[..n];
    }
  }

  lemma EvensOnce(r: seq<Id>)
    requires Sorted(r) && forall x: Id :: x % 2 == 0 ==> multiset(r)[x] <= 1
    ensures Ordered(r)
  {
    forall i, j | 0 <= i < j < |r| && r[i] == r[j] ensures r[i] % 2 != 0 {
      var a, b := r[..j], r[j..];
      assert r == a + b && a[i] == r[i] && b[0] == r[j];
      assert multiset(r)[r[j]] == multiset(a)[r[j]] + multiset(b)[r[j]];
    }
  }

  lemma JoinInv(s: State, t: State, maps: seq<Pages>)
    requires Inv(s.chain, s.disk, maps) && |s.chain| > 1 && |t.chain| == |s.chain| - 1 && t.chain[1..] == s.chain[2..]
    requires t.disk == s.disk && Joined(s.chain[0], s.chain[1], t.chain[0])
    requires forall p: Id :: !Stale(s.chain[0], s.chain[1], p)
    ensures Inv(t.chain, t.disk, [maps[0]] + maps[2..])
  {
    var child, parent, l, rest := s.chain[0], s.chain[1], t.chain[0], s.chain[2..];
    assert s.chain[1..][1..] == rest && maps[1..][1..] == maps[2..] && s.chain[1..][0] == parent;
    ConsTail(maps[0], maps[2..]);
    assert s.chain[1..] == [parent] + rest && maps[1..] == [maps[1]] + maps[2..];
    JoinTop(child, parent, l, rest, s.disk, maps[0], maps[1], maps[2..]);
  }

  lemma JoinTop(child: Level, parent: Level, l: Level, rest: seq<Level>, disk: Disk, m0: Pages, m1: Pages, maps: seq<Pages>)
    requires |maps| == |rest| && Joined(child, parent, l) && forall p: Id :: !Stale(child, parent, p)
    requires TopOk(child, [parent] + rest, disk, m0, [m1] + maps) && TopOk(parent, rest, disk, m1, maps)
    ensures TopOk(l, rest, disk, m0, maps)
  {
    ParentClear(child, parent, rest, disk, m0, [m1] + maps);
    JoinLevel(child, parent, l);
    forall p: Id ensures JoinedPage(l, rest, disk, m0, maps, p) {
      PageOf(child, [parent] + rest, disk, m0, [m1] + maps, p);
      PageOf(parent, rest, disk, m1, maps, p);
      JoinPage(child, parent, l, rest, disk, m0, m1, maps, p);
    }
    FromPages(l, rest, disk, m0, maps);
  }

  lemma ParentClear(child: Level, parent: Level, rest: seq<Level>, disk: Disk, m: Pages, maps: seq<Pages>)
    requires |maps| == |rest| + 1 && TopOk(child, [parent] + rest, disk, m, maps)
    ensures forall p: Id :: Live(child.spill, p) ==> !Live(parent.spill, p)
  {
    forall p: Id | Live(child.spill, p) ensures !Live(parent.spill, p) {
      assert !SpilledIn([parent] + rest, p);
    }
  }

  lemma PageOf(l: Level, rest: seq<Level>, disk: Disk, m: Pages, maps: seq<Pages>, p: Id)
    requires |maps| == |rest| && TopOk(l, rest, disk, m, maps)
    ensures JoinedPage(l, rest, disk, m, maps, p)
  {
  }

  lemma FromPages(l: Level, rest: seq<Level>, disk: Disk, m: Pages, maps: seq<Pages>)
    requires |maps| == |rest| && LevelOk(l) && forall p: Id :: JoinedPage(l, rest, disk, m, maps, p)
    ensures TopOk(l, rest, disk, m, maps)
  {
    forall p: Id ensures
      && (Live(l.spill, p) ==> !SpilledIn(rest, p)) && (Live(l.spill, p) || Get(l.dirty, p).Some? ==> Covered(rest, maps, p))
      && (p in m ==> View([l] + rest, disk, p) == Some(m[p]))
    {
      assert JoinedPage(l, rest, disk, m, maps, p);
    }
  }

  lemma JoinLevel(child: Level, parent: Level, l: Level)
    requires Joined(child, parent, l) && LevelOk(child) && LevelOk(parent)
    requires forall p: Id :: Live(child.spill, p) ==> !Live(parent.spill, p) && !Stale(child, parent, p)
    ensures LevelOk(l)
  {
    JoinOrdered(child, parent, l);
    DirtyMerge.UnionAsc(parent.dirty, child.dirty);
    JoinTidy(parent.dirty, child.dirty);
    JoinApart(child, parent, l);
  }

  ghost predicate JoinedPage(l: Level, rest: seq<Level>, disk: Disk, m: Pages, maps: seq<Pages>, p: Id)
    requires |maps| == |rest|
  {
    && (Live(l.spill, p) ==> !SpilledIn(rest, p)) && (Live(l.spill, p) || Get(l.dirty, p).Some? ==> Covered(rest, maps, p))
    && (p in m ==> View([l] + rest, disk, p) == Some(m[p]))
  }

  lemma JoinFacts(child: Level, parent: Level, l: Level, p: Id)
    requires Joined(child, parent, l) && Asc(child.dirty) && Asc(parent.dirty)
    ensures Live(l.spill, p) ==> Live(child.spill, p) || Live(parent.spill, p)
    ensures Get(l.dirty, p).Some? ==> Get(child.dirty, p).Some? || Get(parent.dirty, p).Some?
  {
    JoinedLive(child, parent, l, p);
    DirtyMerge.UnionGet(parent.dirty, child.dirty, p);
  }

  lemma UpFacts(parent: Level, rest: seq<Level>, m1: Pages, maps: seq<Pages>, p: Id)
    requires |maps| == |rest|
    ensures !SpilledIn([parent] + rest, p) ==> !SpilledIn(rest, p)
    ensures Covered([parent] + rest, [m1] + maps, p) ==> Covered(rest, maps, p)
  {
    assert ([parent] + rest)[1..] == rest && ([m1] + maps)[1..] == maps;
  }

  lemma JoinPage(child: Level, parent: Level, l: Level, rest: seq<Level>, disk: Disk, m0: Pages, m1: Pages, maps: seq<Pages>, p: Id)
    requires |maps| == |rest| && Joined(child, parent, l) && LevelOk(child) && LevelOk(parent)
    requires JoinedPage(child, [parent] + rest, disk, m0, [m1] + maps, p) && JoinedPage(parent, rest, disk, m1, maps, p)
    ensures JoinedPage(l, rest, disk, m0, maps, p)
  {
    JoinFacts(child, parent, l, p);
    JoinKeepsView(child, parent, l, rest, disk, p);
    UpFacts(parent, rest, m1, maps, p);
  }

  lemma {:induction false} JoinTidy(d: seq<ID2>, e: seq<ID2>)
    requires Tidy(d) && Tidy(e) && Small(d) && Small(e)
    ensures Tidy(DirtyMerge.Union(d, e)) && Small(DirtyMerge.Union(d, e))
    decreases |d| + |e|
  {
    if |e| == 0 {
    } else if |d| > 0 && e[|e| - 1].mid < d[|d| - 1].mid {
      JoinTidy(d[..|d| - 1], e);
    } else if |d| > 0 && e[|e| - 1].mid == d[|d| - 1].mid {
      JoinTidy(d[..|d| - 1], e[..|e| - 1]);
    } else {
      JoinTidy(d, e[..|e| - 1]);
    }
  }

  // ---------------------------------------------------------------- runs

  /** One step: the lists keep showing every transaction of the chain what the step means. */
  lemma StepRefines(s: State, t: State, maps: seq<Pages>, step: Step)
    requires Inv(s.chain, s.disk, maps) && Next(s, t, maps, step)
    requires step.Join? ==> ProperJoin(s) && JoinLen(s.chain) == |DirtyMerge.Union(s.chain[1].dirty, s.chain[0].dirty)|
    ensures Inv(t.chain, t.disk, Meaning(maps, step))
  {
    match step
    case Begin => BeginInv(s, t, maps);
    case New(p, data) => NewInv(s, t, maps, p, data);
    case Copy(p) => CopyInv(s, t, maps, p);
    case Write(p, data) => WriteInv(s, t, maps, p, data);
    case DoSpill => SpillInv(s, t, maps);
    case Unspill(p) => UnspillInv(s, t, maps, p);
    case Drop(p) => DropInv(s, maps, p);
    case Release(p) => ReleaseInv(s, t, maps, p);
    case Join =>
      WellJoined(s.chain[0], s.chain[1], t.chain[0]);
      JoinInv(s, t, maps);
    case Abort =>
  }
}
