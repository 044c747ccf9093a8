/** A transaction can always get a page of its own, or of an ancestor, into its dirty list, and in one way only. */
module TxnProgress {
  import opened Idl
  import opened Id2l
  import opened SpillList
  import opened Spill
  import opened TxnPages
  import opened TxnSteps
  import opened TxnRuns
  import opened TxnLaws

  lemma SlotExists(s: seq<ID2>, p: Id) returns (x: nat)
    requires Asc(s) && Get(s, p).None?
    ensures SlotFor(s, p, x)
  {
    GetMeans(s, p);
    x := |s| + 1;
    while x > 1 && s[x - 2].mid > p
      invariant 1 <= x <= |s| + 1 && forall k :: x - 1 <= k < |s| ==> s[k].mid > p
    {
      x := x - 1;
    }
  }

  lemma CanGain(d: seq<ID2>, p: Id, data: Bytes) returns (e: seq<ID2>)
    requires Asc(d) && Get(d, p).None? && p > 0 && 2 * p < MAXID
    ensures Gains(d, e, p, data)
  {
    var x := SlotExists(d, p);
    e := d[..x - 1] + [ID2(p, Page(p, false, data))] + d[x - 1..];
    assert Inserted(d, e, ID2(p, Page(p, false, data)), x);
  }

  lemma CanDrop(sp: seq<Id>, p: Id) returns (sq: seq<Id>)
    requires 2 * p < MAXID
    ensures SpillDrop(sp, sq, p)
  {
    if Live(sp, p) {
      var x: nat :| x < |sp| && sp[x] == 2 * p;
      sq := sp[x := 2 * p + 1];
    } else {
      sq := sp;
    }
  }

  /** Where a page that is on some list of the chain is found first: on a dirty list or on a spill list, never both. */
  lemma {:induction false} FoundOnce(chain: seq<Level>, p: Id)
    requires Mine(chain, p) && forall k :: 0 <= k < |chain| ==> Apart(chain[k].dirty, chain[k].spill)
    ensures FoundDirty(chain, p) <==> !FoundSpilled(chain, p)
  {
    if !Live(chain[0].spill, p) && Get(chain[0].dirty, p).None? { FoundOnce(chain[1..], p); }
  }

  lemma {:induction false} AllApart(chain: seq<Level>, disk: Disk, maps: seq<Pages>)
    requires Inv(chain, disk, maps)
    ensures forall k :: 0 <= k < |chain| ==> LevelOk(chain[k])
  {
    if |chain| > 0 {
      AllApart(chain[1..], disk, maps[1..]);
      assert forall k :: 1 <= k < |chain| ==> chain[k] == chain[1..][k - 1];
    }
  }

  lemma {:induction false} FoundHere(chain: seq<Level>, disk: Disk, p: Id)
    requires FoundDirty(chain, p)
    ensures View(chain, disk, p).Some?
  {
    if Get(chain[0].dirty, p).None? { FoundHere(chain[1..], disk, p); }
  }

  lemma CopyExactly(s: State, p: Id)
    requires |s.chain| > 0 && LevelOk(s.chain[0]) && p > 0 && 2 * p < MAXID
    ensures (exists t :: CopyStep(s, t, p)) <==> FoundDirty(s.chain, p) && Get(s.chain[0].dirty, p).None?
  {
    if FoundDirty(s.chain, p) && Get(s.chain[0].dirty, p).None? {
      FoundHere(s.chain, s.disk, p);
      var e := CanGain(s.chain[0].dirty, p, View(s.chain, s.disk, p).value);
      assert CopyStep(s, s.(chain := [s.chain[0].(dirty := e)] + s.chain[1..]), p);
    }
  }

  lemma UnspillExactly(s: State, p: Id)
    requires |s.chain| > 0 && LevelOk(s.chain[0]) && p > 0 && 2 * p < MAXID && p in s.disk
    ensures (exists t :: UnspillStep(s, t, p)) <==>
      FoundSpilled(s.chain, p) && Get(s.chain[0].dirty, p).None? && s.chain[0].room > 0
  {
    var l := s.chain[0];
    if FoundSpilled(s.chain, p) && Get(l.dirty, p).None? && l.room > 0 {
      var e := CanGain(l.dirty, p, s.disk[p]);
      var sq := CanDrop(l.spill, p);
      assert UnspillStep(s, s.(chain := [l.(dirty := e, spill := sq, room := l.room - 1)] + s.chain[1..]), p);
    }
  }

  /**
   * In every run whose nested commits go well: a page that the transaction, or an ancestor, has allocated is on its dirty list,
   * or can be copied from an ancestor's, or can be unspilled if there is room; just one of the three.
   */
  lemma OneWayToDirty(states: seq<State>, maps: seq<seq<Pages>>, steps: seq<Step>, i: nat, p: Id)
    requires Run(states, maps, steps) && i < |states| && Proper(states, steps, i)
    requires |maps[i]| > 0 && p in maps[i][0] && Mine(states[i].chain, p) && p > 0 && 2 * p < MAXID
    ensures |states[i].chain| > 0
    ensures var s := states[i];
      var here, copy, back := Get(s.chain[0].dirty, p).Some?, exists t :: CopyStep(s, t, p), exists t :: UnspillStep(s, t, p);
      (here || copy || back || s.chain[0].room <= 0) && !(here && copy) && !(here && back) && !(copy && back)
  {
    RunInv(states, maps, steps, i);
    OneWay(states[i], maps[i], p);
  }

  lemma OneWay(s: State, maps: seq<Pages>, p: Id)
    requires Inv(s.chain, s.disk, maps) && Mine(s.chain, p) && p in maps[0] && p > 0 && 2 * p < MAXID
    ensures var here, copy, back := Get(s.chain[0].dirty, p).Some?, exists t :: CopyStep(s, t, p), exists t :: UnspillStep(s, t, p);
      (here || copy || back || s.chain[0].room <= 0) && !(here && copy) && !(here && back) && !(copy && back)
  {
    AllApart(s.chain, s.disk, maps);
    FoundOnce(s.chain, p);
    CopyExactly(s, p);
    assert [s.chain[0]] + s.chain[1..] == s.chain;
    if FoundSpilled(s.chain, p) {
      FoundOnDisk(s.chain, s.disk, p);
      assert View(s.chain, s.disk, p) == Some(maps[0][p]);
      UnspillExactly(s, p);
    }
  }
}
