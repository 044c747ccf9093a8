/** Spilling: part of the dirty list goes to disk before commit (mdb_page_spill, mdb_page_flush, mdb_page_unspill). */
module Spill {
  import opened Idl
  import opened Id2l
  import opened SpillList
  import IdlSort

  /** Pages on disk, as the map shows them. */
  type Disk = map<Id, Bytes>

  /** A dirty list entry names its own page, which is not a meta page. */
  ghost predicate Tidy(s: seq<ID2>) { forall k :: 0 <= k < |s| ==> s[k].mid == s[k].mptr.pgno > 0 }

  function Clear(e: ID2): ID2 { ID2(e.mid, e.mptr.(keep := false)) }

  /** The entries with P_KEEP, with the flag taken away. */
  function Held(s: seq<ID2>): (r: seq<ID2>)
    ensures |r| <= |s|
  {
    if |s| == 0 then [] else Held(s[..|s| - 1]) + if s[|s| - 1].mptr.keep then [Clear(s[|s| - 1])] else []
  }

  /** Writing the entries without P_KEEP. */
  function Written(disk: Disk, s: seq<ID2>): Disk {
    if |s| == 0 then disk else
      var e := s[|s| - 1];
      var d := Written(disk, s[..|s| - 1]);
      if e.mptr.keep then d else d[e.mid := e.mptr.data]
  }

  /** The spill list entries for the pages without P_KEEP, from the tail forward. */
  ghost function TailEntries(s: seq<ID2>): seq<Id>
    requires Small(s)
  {
    if |s| == 0 then [] else TailEntries(s[1..]) + if s[0].mptr.keep then [] else [2 * s[0].mid]
  }

  // ---------------------------------------------------------------- flushing

  /** The first pass of mdb_page_flush: entries from keep + 1 to i - 1 are written, or marked with page number 0. */
  ghost predicate Marking(t: seq<ID2>, s: seq<ID2>, keep: nat, i: nat) {
    && keep < i <= |s| == |t| && t[..keep + 1] == s[..keep + 1] && t[i..] == s[i..]
    && forall k :: keep < k < i ==> t[k] == if s[k].mptr.keep then ID2(0, s[k].mptr.(keep := false)) else s[k]
  }

  method WritePass(dl: array<ID2>, keep: nat, disk0: Disk) returns (disk: Disk)
    requires List(dl) && keep <= dl[0].mid
    modifies dl
    ensures Marking(dl[..], old(dl[..]), keep, old(dl[0].mid) + 1)
    ensures disk == Written(disk0, old(dl[keep + 1..dl[0].mid + 1]))
  {
    ghost var s := dl[..];
    var n: nat, i: nat := dl[0].mid, keep + 1;
    disk := disk0;
    assert s[keep + 1..keep + 1] == [];
    while i <= n
      invariant i <= n + 1 && Marking(dl[..], s, keep, i) && dl[0] == s[0]
      invariant disk == Written(disk0, s[keep + 1..i])
    {
      assert dl[i] == dl[..][i..][0] == s[i..][0];
      assert s[keep + 1..i + 1][..i - keep - 1] == s[keep + 1..i];
      MarkNext(dl[..], s, keep, i);
      if dl[i].mptr.keep {
        ghost var t := dl[..];
        dl[i] := ID2(0, dl[i].mptr.(keep := false));
        assert dl[..] == t[i := ID2(0, s[i].mptr.(keep := false))];
      } else {
        disk := disk[dl[i].mid := dl[i].mptr.data];
      }
      i := i + 1;
    }
  }

  lemma MarkNext(t: seq<ID2>, s: seq<ID2>, keep: nat, i: nat)
    requires Marking(t, s, keep, i) && i < |s|
    ensures s[i].mptr.keep ==> Marking(t[i := ID2(0, s[i].mptr.(keep := false))], s, keep, i + 1)
    ensures !s[i].mptr.keep ==> Marking(t, s, keep, i + 1)
  {
    assert t[i..][1..] == t[i + 1..] && s[i..][1..] == s[i + 1..] && t[i] == t[i..][0] == s[i..][0];
    var u := t[i := ID2(0, s[i].mptr.(keep := false))];
    assert u[..keep + 1] == t[..keep + 1] && u[i + 1..] == t[i + 1..];
  }

  /** The second pass: entries up to i - 1 are done, the skipped ones lie compact up to slot j. */
  ghost predicate Packing(t: seq<ID2>, s: seq<ID2>, u: seq<ID2>, keep: nat, i: nat, j: nat) {
    && keep <= j < i <= |s| == |t| == |u| && t[..keep + 1] == s[..keep + 1] && t[i..] == u[i..]
    && t[keep + 1..j + 1] == Held(s[keep + 1..i])
  }

  lemma PackNext(t: seq<ID2>, s: seq<ID2>, u: seq<ID2>, keep: nat, i: nat, j: nat)
    requires Packing(t, s, u, keep, i, j) && i < |s|
    ensures s[i].mptr.keep ==> Packing(t[j + 1 := Clear(s[i])], s, u, keep, i + 1, j + 1)
    ensures !s[i].mptr.keep ==> Packing(t, s, u, keep, i + 1, j)
  {
    assert s[keep + 1..i + 1][..i - keep - 1] == s[keep + 1..i];
    assert t[i..][1..] == t[i + 1..] && u[i..][1..] == u[i + 1..];
    var v := t[j + 1 := Clear(s[i])];
    assert v[keep + 1..j + 2] == t[keep + 1..j + 1] + [Clear(s[i])];
    assert v[..keep + 1] == t[..keep + 1] && v[i + 1..] == t[i + 1..];
  }

  method PackPass(dl: array<ID2>, keep: nat, n: nat, ghost s: seq<ID2>) returns (j: nat)
    requires keep <= n < dl.Length && Marking(dl[..], s, keep, n + 1) && Tidy(s[1..n + 1])
    modifies dl
    ensures keep <= j <= n && Packing(dl[..], s, old(dl[..]), keep, n + 1, j)
  {
    ghost var u := dl[..];
    var i := keep + 1;
    j := keep;
    while i <= n
      invariant i <= n + 1 && Packing(dl[..], s, u, keep, i, j)
    {
      assert dl[i] == dl[..][i..][0] == u[i..][0] == u[i];
      assert s[1..n + 1][i - 1] == s[i];
      PackNext(dl[..], s, u, keep, i, j);
      ghost var t := dl[..];
      if dl[i].mid == 0 {
        j := j + 1;
        dl[j] := ID2(dl[i].mptr.pgno, dl[i].mptr);
        assert dl[..] == t[j := Clear(s[i])];
      }
      i := i + 1;
    }
  }

  /** mdb_page_flush: the first keep entries stay, of the others those with P_KEEP; the rest is written. */
  method Flush(dl: array<ID2>, keep: nat, disk0: Disk) returns (disk: Disk, credit: nat)
    requires List(dl) && keep <= dl[0].mid && Tidy(Entries(dl))
    modifies dl
    ensures List(dl) && Entries(dl) == old(Entries(dl))[..keep] + Held(old(Entries(dl))[keep..])
    ensures disk == Written(disk0, old(Entries(dl))[keep..]) && credit == |old(Entries(dl))| - |Entries(dl)|
  {
    ghost var s := dl[..];
    var n := dl[0].mid;
    disk := WritePass(dl, keep, disk0);
    var j := PackPass(dl, keep, n, s);
    credit := n - j;
    Packed(dl[..], s, keep, n, j);
    ghost var r := dl[1..j + 1];
    dl[0] := dl[0].(mid := j);
    assert dl[1..j + 1] == r;
  }

  lemma Packed(t: seq<ID2>, s: seq<ID2>, keep: nat, n: nat, j: nat)
    requires keep <= j <= n < |s| == |t| && t[..keep + 1] == s[..keep + 1] && t[keep + 1..j + 1] == Held(s[keep + 1..n + 1])
    ensures t[1..j + 1] == s[1..n + 1][..keep] + Held(s[1..n + 1][keep..]) && s[keep + 1..n + 1] == s[1..n + 1][keep..]
  {
    assert t[1..j + 1] == t[..keep + 1][1..] + t[keep + 1..j + 1];
    assert s[..keep + 1][1..] == s[1..n + 1][..keep];
  }

  // ---------------------------------------------------------------- choosing what to spill

  /** The page is on the spill list of some ancestor. */
  ghost predicate SpilledAbove(up: seq<seq<Id>>, pgno: Id) { exists k :: 0 <= k < |up| && Live(up[k], pgno) }

  method InParents(up: seq<seq<Id>>, pgno: Id) returns (r: bool)
    ensures r == SpilledAbove(up, pgno)
  {
    r := false;
    for k := 0 to |up|
      invariant r <==> exists j :: 0 <= j < k && Live(up[j], pgno)
    {
      if Live(up[k], pgno) { r := true; }
    }
  }

  /** P_KEEP is set as well on the pages that an ancestor has spilled; those stay in memory. */
  ghost predicate Guarded(s: seq<ID2>, t: seq<ID2>, up: seq<seq<Id>>, from: nat) {
    && |t| == |s| && from <= |s| && t[..from] == s[..from]
    && forall k :: from <= k < |s| ==>
      t[k] == ID2(s[k].mid, s[k].mptr.(keep := s[k].mptr.keep || SpilledAbove(up, s[k].mid)))
  }

  /** The choice has gone down to slot i: the entries behind it with no P_KEEP now are the ones put on the spill list. */
  ghost predicate Choosing(s: seq<ID2>, t: seq<ID2>, up: seq<seq<Id>>, i: nat, base: seq<Id>, spill: seq<Id>) {
    Guarded(s, t, up, i) && Small(t) && spill == base + TailEntries(t[i..])
  }

  /** The spill list entries for the pages that can be spilled, from the tail forward: no P_KEEP, spilled by no ancestor. */
  ghost function Choosable(s: seq<ID2>, up: seq<seq<Id>>): (r: seq<Id>)
    requires Small(s)
  {
    if |s| == 0 then [] else
      Choosable(s[1..], up) + if s[0].mptr.keep || SpilledAbove(up, s[0].mid) then [] else [2 * s[0].mid]
  }

  /** The first n of them, or all. */
  ghost function Chosen(s: seq<ID2>, up: seq<seq<Id>>, n: nat): (r: seq<Id>)
    requires Small(s)
    ensures |r| == if n < |Choosable(s, up)| then n else |Choosable(s, up)|
  {
    if n < |Choosable(s, up)| then Choosable(s, up)[..n] else Choosable(s, up)
  }

  lemma {:induction false} ChoosableCat(a: seq<ID2>, b: seq<ID2>, up: seq<seq<Id>>)
    requires Small(a) && Small(b)
    ensures Small(a + b) && Choosable(a + b, up) == Choosable(b, up) + Choosable(a, up)
  {
    if |a| == 0 {
      assert a + b == b;
    } else {
      ChoosableCat(a[1..], b, up);
      assert (a + b)[1..] == a[1..] + b && (a + b)[0] == a[0];
    }
  }

  lemma {:induction false} ChoosableTail(s: seq<ID2>, t: seq<ID2>, up: seq<seq<Id>>)
    requires Guarded(s, t, up, 0) && Small(s) && Small(t)
    ensures TailEntries(t) == Choosable(s, up)
  {
    if |s| > 0 {
      assert Guarded(s[1..], t[1..], up, 0);
      ChoosableTail(s[1..], t[1..], up);
    }
  }

  /** When the loop ends the chosen ones are the first, as many as were needed. */
  lemma ChoiceMade(s: seq<ID2>, t: seq<ID2>, up: seq<seq<Id>>, i: nat, base: seq<Id>, spill: seq<Id>, need: nat)
    requires Choosing(s, t, up, i, base, spill) && Small(s) && (i == 0 || |spill| - |base| == need) && |spill| - |base| <= need
    ensures TailEntries(t[i..]) == Chosen(s, up, need) && spill == base + Chosen(s, up, need)
  {
    assert s == s[..i] + s[i..];
    ChoosableCat(s[..i], s[i..], up);
    assert Guarded(s[i..], t[i..], up, 0);
    ChoosableTail(s[i..], t[i..], up);
    if i == 0 { assert s[..0] == []; }
  }

  lemma Chose(s: seq<ID2>, t: seq<ID2>, up: seq<seq<Id>>, i: nat, base: seq<Id>, spill: seq<Id>, e: ID2, more: seq<Id>)
    requires 0 < i <= |s| && Choosing(s, t, up, i, base, spill)
    requires e == ID2(s[i - 1].mid, s[i - 1].mptr.(keep := s[i - 1].mptr.keep || SpilledAbove(up, s[i - 1].mid)))
    requires more == if e.mptr.keep then spill else spill + [2 * e.mid]
    ensures Choosing(s, t[i - 1 := e], up, i - 1, base, more)
  {
    var u := t[i - 1 := e];
    assert u[i - 1..][1..] == t[i..] && u[i - 1..][0] == e;
    assert u[..i - 1] == t[..i][..i - 1] == s[..i - 1];
  }

  /** One entry of the list: kept, kept because of an ancestor, or put on the spill list. */
  method ChooseOne(dl: array<ID2>, i: nat, up: seq<seq<Id>>) returns (take: bool)
    requires 0 < i < dl.Length && List(dl)
    modifies dl
    ensures var e := old(dl[i]);
      dl[..] == old(dl[..])[i := ID2(e.mid, e.mptr.(keep := e.mptr.keep || SpilledAbove(up, e.mid)))]
    ensures take <==> !dl[i].mptr.keep
  {
    take := false;
    if !dl[i].mptr.keep {
      var above := InParents(up, dl[i].mid);
      if above {
        dl[i] := ID2(dl[i].mid, dl[i].mptr.(keep := true));
      } else {
        take := true;
      }
    }
  }

  /** The loop at mdb.c:1641-1666. */
  method Choose(dl: array<ID2>, spill0: seq<Id>, up: seq<seq<Id>>, need0: nat) returns (i: nat, spill: seq<Id>)
    requires List(dl) && Small(Entries(dl))
    modifies dl
    ensures List(dl) && Choosing(old(Entries(dl)), Entries(dl), up, i, spill0, spill)
    ensures spill == spill0 + Chosen(old(Entries(dl)), up, need0) && TailEntries(Entries(dl)[i..]) == Chosen(old(Entries(dl)), up, need0)
  {
    ghost var s := Entries(dl);
    var need: nat := need0;
    i, spill := dl[0].mid, spill0;
    assert TailEntries(s[i..]) == [];
    while i > 0 && need > 0
      invariant i <= |s| && List(dl) && dl[0] == old(dl[0]) && Choosing(s, Entries(dl), up, i, spill0, spill)
      invariant need + |spill| == need0 + |spill0|
    {
      ghost var t := Entries(dl);
      assert dl[i] == t[i - 1] == s[i - 1] by { assert t[..i] == s[..i]; }
      var take := ChooseOne(dl, i, up);
      assert Entries(dl) == t[i - 1 := dl[i]];
      if take {
        assert 2 * s[i - 1].mid < MAXID;
        Chose(s, t, up, i, spill0, spill, dl[i], spill + [2 * dl[i].mid]);
        spill, need := spill + [2 * dl[i].mid], need - 1;
      } else {
        Chose(s, t, up, i, spill0, spill, dl[i], spill);
      }
      i := i - 1;
    }
    ChoiceMade(s, Entries(dl), up, i, spill0, spill, need0);
  }

  ghost predicate Small(s: seq<ID2>) { forall k :: 0 <= k < |s| ==> 2 * s[k].mid < MAXID }

  // ---------------------------------------------------------------- what the pieces mean page by page

  lemma {:induction false} HeldGet(s: seq<ID2>, p: Id)
    requires Asc(s)
    ensures Get(Held(s), p) == match Get(s, p)
      case None => None
      case Some(page) => if page.keep then Some(page.(keep := false)) else None
  {
    if |s| > 0 {
      var n := |s| - 1;
      HeldGet(s[..n], p);
      if s[n].mid == p { AbsentBelow(s[..n], p); }
      if s[n].mptr.keep {
        assert Held(s)[..|Held(s)| - 1] == Held(s[..n]);
      } else {
        assert Held(s) == Held(s[..n]);
      }
    }
  }

  lemma AbsentBelow(s: seq<ID2>, p: Id)
    requires forall k :: 0 <= k < |s| ==> s[k].mid < p
    ensures Get(s, p).None?
  {
    GetMeans(s, p);
  }

  lemma {:induction false} HeldAsc(s: seq<ID2>)
    requires Asc(s)
    ensures Asc(Held(s)) && (Tidy(s) ==> Tidy(Held(s)))
    ensures forall k :: 0 <= k < |Held(s)| ==> |s| > 0 && s[0].mid <= Held(s)[k].mid <= s[|s| - 1].mid
  {
    if |s| > 1 { HeldAsc(s[..|s| - 1]); }
  }

  lemma {:induction false} WrittenAt(disk: Disk, s: seq<ID2>, p: Id)
    ensures var r := Get(s, p);
      Asc(s) && r.Some? && !r.value.keep ==> p in Written(disk, s) && Written(disk, s)[p] == r.value.data
    ensures (Asc(s) && (Get(s, p).Some? ==> Get(s, p).value.keep)) || Get(s, p).None? ==>
      (p in Written(disk, s) <==> p in disk) && (p in disk ==> Written(disk, s)[p] == disk[p])
  {
    if |s| > 0 {
      WrittenAt(disk, s[..|s| - 1], p);
      if Asc(s) && s[|s| - 1].mid == p { AbsentBelow(s[..|s| - 1], p); }
    }
  }

  lemma {:induction false} TailEntry(s: seq<ID2>, p: Id)
    requires Asc(s) && Small(s)
    ensures Live(TailEntries(s), p) <==> Get(s, p).Some? && !Get(s, p).value.keep
  {
    if |s| > 0 {
      TailEntry(s[1..], p);
      assert s == [s[0]] + s[1..];
      GetCat([s[0]], s[1..], p);
      if s[0].mid == p { AbsentAbove(s[1..], p); }
    }
  }

  lemma AbsentAbove(s: seq<ID2>, p: Id)
    requires forall k :: 0 <= k < |s| ==> s[k].mid > p
    ensures Get(s, p).None?
  {
    GetMeans(s, p);
  }

  lemma {:induction false} TailOnce(s: seq<ID2>, e: Id)
    requires Asc(s) && Small(s)
    ensures multiset(TailEntries(s))[e] <= 1
    ensures |s| > 0 && e < 2 * s[0].mid ==> e !in TailEntries(s)
  {
    if |s| > 0 {
      TailOnce(s[1..], e);
      if |s| > 1 { assert s[0].mid < s[1].mid; }
    }
  }

  // ---------------------------------------------------------------- the whole spill

  /** mdb_midl_sort on a list value. */
  method SortList(s: seq<Id>) returns (r: seq<Id>)
    requires |s| <= IdlSort.INT_MAX
    ensures Sorted(r) && multiset(r) == multiset(s)
  {
    var a := new Id[|s| + 1](i requires 0 <= i <= |s| => if i == 0 then |s| else s[i - 1]);
    assert a[1..|s| + 1] == s;
    IdlSort.Sort(a);
    r := a[1..a[0] + 1];
  }

  /** Without a repeated element, sorted means strictly descending. */
  lemma SortedOnce(r: seq<Id>)
    requires Sorted(r) && forall x: Id :: multiset(r)[x] <= 1
    ensures Descending(r)
  {
    forall i, j | 0 <= i < j < |r| ensures r[i] > r[j] {
      var a, b := r[..j], r[j..];
      assert r == a + b && a[i] == r[i] && b[0] == r[j];
      assert multiset(r)[r[j]] == multiset(a)[r[j]] + multiset(b)[r[j]];
    }
  }

  lemma {:induction false} DescendingOnce(s: seq<Id>, x: Id)
    requires Descending(s)
    ensures multiset(s)[x] <= 1
  {
    if |s| > 0 {
      var n := |s| - 1;
      DescendingOnce(s[..n], x);
      assert s == s[..n] + [s[n]];
      assert x == s[n] ==> x !in s[..n];
    }
  }

  function Data(o: Option<Page>): Option<Bytes> { if o.Some? then Some(o.value.data) else None }

  function At(disk: Disk, p: Id): Option<Bytes> { if p in disk then Some(disk[p]) else None }

  /** No page is dirty and spilled in one transaction. */
  ghost predicate Apart(d: seq<ID2>, spill: seq<Id>) { forall p: Id :: Get(d, p).Some? ==> !Live(spill, p) }

  /** Page p moved from the dirty list to the spill list and to disk, which no ancestor had it spilled. */
  ghost predicate Moved(d: seq<ID2>, e: seq<ID2>, sp: seq<Id>, sq: seq<Id>, up: seq<seq<Id>>, disk: Disk, p: Id) {
    && Get(d, p).Some? && Get(e, p).None? && !Live(sp, p) && Live(sq, p)
    && !SpilledAbove(up, p) && At(disk, p) == Some(Get(d, p).value.data)
  }

  /** Page p is where it was. */
  ghost predicate Stayed(d: seq<ID2>, e: seq<ID2>, sp: seq<Id>, sq: seq<Id>, disk0: Disk, disk: Disk, p: Id) {
    Data(Get(e, p)) == Data(Get(d, p)) && Live(sq, p) == Live(sp, p) && At(disk, p) == At(disk0, p)
  }

  /** The pages that leave the dirty list are those that enter the spill list, and those that are written. */
  ghost predicate SpillStep(d: seq<ID2>, e: seq<ID2>, sp: seq<Id>, sq: seq<Id>, up: seq<seq<Id>>, disk0: Disk, disk: Disk) {
    forall p: Id :: Moved(d, e, sp, sq, up, disk, p) || Stayed(d, e, sp, sq, disk0, disk, p)
  }

  lemma {:induction false} GuardGet(s: seq<ID2>, t: seq<ID2>, up: seq<seq<Id>>, p: Id)
    requires Guarded(s, t, up, 0)
    ensures Get(t, p) == match Get(s, p)
      case None => None
      case Some(page) => Some(page.(keep := page.keep || SpilledAbove(up, p)))
  {
    if |s| > 0 {
      var n := |s| - 1;
      assert t[n] == ID2(s[n].mid, s[n].mptr.(keep := s[n].mptr.keep || SpilledAbove(up, s[n].mid)));
      assert Guarded(s[..n], t[..n], up, 0);
      GuardGet(s[..n], t[..n], up, p);
    }
  }

  /** The tail of the list: a page without P_KEEP there leaves the list and is written; nothing else changes. */
  lemma TailEffect(s: seq<ID2>, t: seq<ID2>, up: seq<seq<Id>>, disk: Disk, p: Id)
    requires Guarded(s, t, up, 0) && Asc(t) && Small(t)
    ensures if Live(TailEntries(t), p) then
        && Get(s, p).Some? && Get(Held(t), p).None? && !SpilledAbove(up, p)
        && At(Written(disk, t), p) == Some(Get(s, p).value.data)
      else
        Data(Get(Held(t), p)) == Data(Get(s, p)) && At(Written(disk, t), p) == At(disk, p)
  {
    GuardGet(s, t, up, p);
    TailEntry(t, p);
    HeldGet(t, p);
    WrittenAt(disk, t, p);
  }

  /** Purged, extended and sorted, the spill list has the pages it had and the chosen ones. */
  lemma SpillListEffect(sp: seq<Id>, t: seq<ID2>, sq: seq<Id>, p: Id)
    requires Small(t) && multiset(sq) == multiset(Kept(sp, {}) + TailEntries(t))
    ensures Live(sq, p) <==> Live(sp, p) || Live(TailEntries(t), p)
  {
    if 2 * p <= MAXID {
      KeptMember(sp, {}, 2 * p);
      InBoth(sq, Kept(sp, {}), TailEntries(t), 2 * p);
    }
  }

  lemma InBoth(r: seq<Id>, a: seq<Id>, b: seq<Id>, e: Id)
    requires multiset(r) == multiset(a + b)
    ensures e in r <==> e in a || e in b
  {
    assert e in r <==> e in multiset(r);
    assert e in a + b <==> e in multiset(a + b);
  }

  /** Purging the deleted entries of a spill list value (mdb.c:1613-1623). */
  method Purge(spill: seq<Id>) returns (r: seq<Id>)
    requires |spill| <= MAXID
    ensures r == Kept(spill, {})
  {
    var a := new Id[|spill| + 1](i requires 0 <= i <= |spill| => if i == 0 then |spill| else spill[i - 1]);
    assert a[1..1] == [] && a[1..|spill| + 1] == spill;
    Squeeze(a, 0);
    r := a[1..a[0] + 1];
  }

  /**
   * mdb_page_spill for a transaction that has to spill.  The P_KEEP flags in the dirty list are those that
   * mdb_pages_xkeep set for the pages of active cursors; up holds the spill lists of the ancestors.
   */
  method SpillPages(dl: array<ID2>, spill0: seq<Id>, up: seq<seq<Id>>, need: nat, disk0: Disk)
    returns (spill: seq<Id>, disk: Disk, credit: nat)
    requires List(dl) && Asc(Entries(dl)) && Tidy(Entries(dl)) && Small(Entries(dl)) && Ordered(spill0)
    requires Apart(Entries(dl), spill0) && |spill0| + |Entries(dl)| <= IdlSort.INT_MAX
    modifies dl
    ensures List(dl) && Asc(Entries(dl)) && Descending(spill)
    ensures SpillStep(old(Entries(dl)), Entries(dl), spill0, spill, up, disk0, disk)
    ensures forall p: Id ::
      Moved(old(Entries(dl)), Entries(dl), spill0, spill, up, disk, p) <==> Live(Chosen(old(Entries(dl)), up, need), p)
    ensures credit == |old(Entries(dl))| - |Entries(dl)| == |Chosen(old(Entries(dl)), up, need)|
  {
    ghost var d := Entries(dl);
    spill := Purge(spill0);
    var i;
    i, spill := Choose(dl, spill, up, need);
    ghost var t := Entries(dl);
    TailSize(t[i..]);
    KeptSize(spill0);
    ChosenOnce(d, t, up, i, spill0);
    spill := SortList(spill);
    SortedOnce(spill);
    GuardedTidy(d, t, up, i);
    disk, credit := Flush(dl, i, disk0);
    SpillEffect(d, Entries(dl), t, up, i, spill0, spill, disk0, disk);
    FlushedAsc(t, i);
    HeldCount(t[i..]);
    assert t[..i] + t[i..] == t;
  }

  /** The room that a spill gives back is that of the pages it puts on the spill list. */
  lemma {:induction false} HeldCount(s: seq<ID2>)
    requires Small(s)
    ensures |Held(s)| + |TailEntries(s)| == |s|
  {
    if |s| > 0 {
      HeldCount(s[1..]);
      HeldHead(s);
    }
  }

  lemma {:induction false} HeldHead(s: seq<ID2>)
    requires |s| > 0
    ensures |Held(s)| == |Held(s[1..])| + if s[0].mptr.keep then 1 else 0
  {
    var n := |s| - 1;
    if n > 0 {
      HeldHead(s[..n]);
      assert s[1..][..n - 1] == s[..n][1..] && s[1..][n - 1] == s[n];
    }
  }

  /**
   * mdb_page_spill: nothing to do while there is more room than the operation may take, want; else room for at least an
   * eighth of a full dirty list is made, as far as there are pages that can be spilled.
   */
  method MakeRoom(dl: array<ID2>, spill0: seq<Id>, up: seq<seq<Id>>, room0: nat, want: nat, disk0: Disk)
    returns (spill: seq<Id>, disk: Disk, room: nat)
    requires List(dl) && Asc(Entries(dl)) && Tidy(Entries(dl)) && Small(Entries(dl)) && Ordered(spill0)
    requires Apart(Entries(dl), spill0) && |spill0| + |Entries(dl)| <= IdlSort.INT_MAX
    modifies dl
    ensures List(dl) && SpillStep(old(Entries(dl)), Entries(dl), spill0, spill, up, disk0, disk)
    ensures room0 > want ==> dl[..] == old(dl[..]) && spill == spill0 && disk == disk0 && room == room0
    ensures room0 <= want ==>
      && room == room0 + |old(Entries(dl))| - |Entries(dl)|
      && var most := if want < MDB_IDL_UM_MAX / 8 then MDB_IDL_UM_MAX / 8 else want;
         var able := |Choosable(old(Entries(dl)), up)|;
         room == room0 + if most < able then most else able
  {
    spill, disk, room := spill0, disk0, room0;
    if room0 > want { return; }
    var need := want;
    if need < MDB_IDL_UM_MAX / 8 { need := MDB_IDL_UM_MAX / 8; }
    var credit;
    spill, disk, credit := SpillPages(dl, spill0, up, need, disk0);
    room := room0 + credit;
  }

  lemma {:induction false} TailSize(s: seq<ID2>)
    requires Small(s)
    ensures |TailEntries(s)| <= |s|
  {
    if |s| > 0 { TailSize(s[1..]); }
  }

  lemma {:induction false} KeptSize(s: seq<Id>)
    ensures |Kept(s, {})| <= |s|
  {
    if |s| > 0 { KeptSize(s[..|s| - 1]); }
  }

  lemma GuardedTidy(d: seq<ID2>, t: seq<ID2>, up: seq<seq<Id>>, i: nat)
    requires Guarded(d, t, up, i)
    ensures (Tidy(d) ==> Tidy(t)) && (Asc(d) ==> Asc(t))
  {
    forall k | 0 <= k < |d| ensures t[k].mid == d[k].mid && t[k].mptr.pgno == d[k].mptr.pgno {
      if k < i { assert t[..i][k] == d[..i][k]; }
    }
  }

  lemma FlushedAsc(t: seq<ID2>, i: nat)
    requires Asc(t) && i <= |t|
    ensures Asc(t[..i] + Held(t[i..]))
  {
    HeldAsc(t[i..]);
    var a, b := t[..i], Held(t[i..]);
    forall j, k | 0 <= j < |a| && 0 <= k < |b| ensures a[j].mid < b[k].mid {
      assert t[i..][0].mid <= b[k].mid;
    }
  }

  /** No page is put on the spill list twice. */
  lemma ChosenOnce(d: seq<ID2>, t: seq<ID2>, up: seq<seq<Id>>, i: nat, sp: seq<Id>)
    requires Guarded(d, t, up, i) && Small(t) && Asc(d) && Apart(d, sp) && Ordered(sp)
    ensures forall x: Id :: multiset(Kept(sp, {}) + TailEntries(t[i..]))[x] <= 1
  {
    GuardedTidy(d, t, up, i);
    KeptDescends(sp, {});
    forall x: Id ensures multiset(Kept(sp, {}) + TailEntries(t[i..]))[x] <= 1 {
      DescendingOnce(Kept(sp, {}), x);
      TailOnce(t[i..], x);
      ChosenNotListed(d, t, up, i, sp, x);
      OnceInBoth(Kept(sp, {}), TailEntries(t[i..]), x);
    }
  }

  lemma ChosenNotListed(d: seq<ID2>, t: seq<ID2>, up: seq<seq<Id>>, i: nat, sp: seq<Id>, x: Id)
    requires Guarded(d, t, up, i) && Small(t) && Asc(t) && Apart(d, sp)
    ensures x in Kept(sp, {}) ==> x !in TailEntries(t[i..])
  {
    KeptMember(sp, {}, x);
    if x % 2 == 0 {
      TailEntry(t[i..], x / 2);
      SuffixGet(d, t, up, i, x / 2);
    }
  }

  lemma OnceInBoth(a: seq<Id>, b: seq<Id>, x: Id)
    requires multiset(a)[x] <= 1 && multiset(b)[x] <= 1 && (x in a ==> x !in b)
    ensures multiset(a + b)[x] <= 1
  {
    assert x in a <==> x in multiset(a);
    assert x in b <==> x in multiset(b);
  }

  lemma SuffixGet(d: seq<ID2>, t: seq<ID2>, up: seq<seq<Id>>, i: nat, p: Id)
    requires Guarded(d, t, up, i)
    ensures Guarded(d[i..], t[i..], up, 0) && t[..i] == d[..i]
    ensures Get(d, p) == if Get(d[i..], p).Some? then Get(d[i..], p) else Get(d[..i], p)
    ensures Get(t[i..], p).Some? <==> Get(d[i..], p).Some?
  {
    assert d == d[..i] + d[i..];
    GetCat(d[..i], d[i..], p);
    assert Guarded(d[i..], t[i..], up, 0) by {
      forall k | 0 <= k < |d| - i ensures
        t[i..][k] == ID2(d[i..][k].mid, d[i..][k].mptr.(keep := d[i..][k].mptr.keep || SpilledAbove(up, d[i..][k].mid)))
      {
        assert t[i..][k] == t[i + k] && d[i..][k] == d[i + k];
      }
    }
    GuardGet(d[i..], t[i..], up, p);
  }

  lemma SpillEffect(d: seq<ID2>, e: seq<ID2>, t: seq<ID2>, up: seq<seq<Id>>, i: nat, sp: seq<Id>, sq: seq<Id>, disk0: Disk, disk: Disk)
    requires Guarded(d, t, up, i) && Small(t) && Asc(t) && Apart(d, sp)
    requires e == t[..i] + Held(t[i..]) && disk == Written(disk0, t[i..])
    requires multiset(sq) == multiset(Kept(sp, {}) + TailEntries(t[i..]))
    ensures SpillStep(d, e, sp, sq, up, disk0, disk)
    ensures forall p: Id :: Moved(d, e, sp, sq, up, disk, p) <==> Live(TailEntries(t[i..]), p)
  {
    forall p: Id
      ensures if Live(TailEntries(t[i..]), p) then Moved(d, e, sp, sq, up, disk, p) else Stayed(d, e, sp, sq, disk0, disk, p)
    {
      SuffixGet(d, t, up, i, p);
      SpillListEffect(sp, t[i..], sq, p);
      TailEffect(d[i..], t[i..], up, disk0, p);
      GetCat(t[..i], Held(t[i..]), p);
      if Get(d[i..], p).Some? { AbsentBefore(d, t, up, i, p); }
    }
  }

  lemma AbsentBefore(d: seq<ID2>, t: seq<ID2>, up: seq<seq<Id>>, i: nat, p: Id)
    requires Guarded(d, t, up, i) && Asc(t) && Get(d[i..], p).Some?
    ensures Get(t[..i], p).None?
  {
    SuffixGet(d, t, up, i, p);
    GetMeans(t[i..], p);
    var k :| 0 <= k < |t[i..]| && t[i..][k].mid == p;
    assert t[i + k].mid == p;
    AbsentBelow(t[..i], p);
  }

  // ---------------------------------------------------------------- taking a page back

  /** The entry e leaves the list: as its last entry, or by getting its low bit set. */
  ghost predicate Unlisted(s: seq<Id>, r: seq<Id>, e: Id) {
    || (|s| > 0 && s[|s| - 1] == e && r == s[..|s| - 1])
    || (e < MAXID && exists x: nat :: x < |s| && s[x] == e && r == s[x := e + 1])
  }

  function OddOf(e: Id): Id { if e < MAXID then e + 1 else e }

  /** mdb.c:1929-1964 on the list of this transaction: the live entry for a page, if any, is taken out. */
  method Unlist(sl: IdList, pn: Id) returns (found: bool)
    requires sl.Valid() && Ordered(sl.Elems()) && pn % 2 == 0
    modifies sl.ids
    ensures sl.Valid() && found == (pn in old(sl.Elems()))
    ensures if found then Unlisted(old(sl.Elems()), sl.Elems(), pn) else sl.Elems() == old(sl.Elems())
  {
    ghost var s := sl.Elems();
    var x := sl.Search(pn);
    found := x <= sl.ids[0] && sl.ids[x] == pn;
    if found {
      assert s[x - 1] == pn;
      if x == sl.ids[0] {
        sl.ids[0] := sl.ids[0] - 1;
        assert sl.Elems() == s[..|s| - 1];
      } else {
        sl.ids[x] := pn + 1;
        assert sl.Elems() == s[x - 1 := pn + 1];
      }
    }
  }

  /** The list stays in order, strictly so if the page had no deleted entry, and exactly that page stops being spilled. */
  lemma UnlistedKeeps(s: seq<Id>, r: seq<Id>, e: Id, p: Id)
    requires Ordered(s) && e % 2 == 0 && Unlisted(s, r, e)
    ensures Ordered(r) && (Descending(s) && OddOf(e) !in s ==> Descending(r))
    ensures Live(r, p) <==> Live(s, p) && 2 * p != e
  {
    if !(|s| > 0 && s[|s| - 1] == e && r == s[..|s| - 1]) {
      var x: nat :| x < |s| && s[x] == e && r == s[x := e + 1];
      forall i, j | 0 <= i < j < |r| ensures r[i] >= r[j] && (r[i] == r[j] ==> r[i] % 2 != 0) {
      }
    }
    UnlistedLive(s, r, e, p);
  }

  lemma UnlistedLive(s: seq<Id>, r: seq<Id>, e: Id, p: Id)
    requires Ordered(s) && e % 2 == 0 && Unlisted(s, r, e)
    ensures Live(r, p) <==> Live(s, p) && 2 * p != e
  {
    if |s| > 0 && s[|s| - 1] == e && r == s[..|s| - 1] {
      assert s == r + [e];
    } else {
      var x: nat :| x < |s| && s[x] == e && r == s[x := e + 1];
      assert s == s[..x] + [e] + s[x + 1..] && r == s[..x] + [e + 1] + s[x + 1..];
    }
  }
}
