/** Spill lists: descending lists of page numbers times two, where an odd entry is one that no longer counts. */
module SpillList {
  import opened Idl
  import opened Id2l

  /** Descending, and only odd entries may be there more than once. */
  ghost predicate Ordered(s: seq<Id>) {
    forall i, j :: 0 <= i < j < |s| ==> s[i] >= s[j] && (s[i] == s[j] ==> s[i] % 2 != 0)
  }

  /** The entries that count, without those in gone. */
  function Kept(s: seq<Id>, gone: set<nat>): seq<Id> {
    if |s| == 0 then [] else
      Kept(s[..|s| - 1], gone) + if s[|s| - 1] % 2 == 0 && s[|s| - 1] !in gone then [s[|s| - 1]] else []
  }

  lemma {:induction false} KeptMember(s: seq<Id>, gone: set<nat>, e: Id)
    ensures e in Kept(s, gone) <==> e in s && e % 2 == 0 && e !in gone
  {
    if |s| > 0 {
      var n := |s| - 1;
      KeptMember(s[..n], gone, e);
      assert s == s[..n] + [s[n]];
    }
  }

  lemma {:induction false} KeptDescends(s: seq<Id>, gone: set<nat>)
    requires Ordered(s)
    ensures Descending(Kept(s, gone))
  {
    if |s| > 0 {
      var t := s[..|s| - 1];
      KeptDescends(t, gone);
      forall i | 0 <= i < |Kept(t, gone)| ensures Kept(t, gone)[i] > s[|s| - 1] {
        KeptMember(t, gone, Kept(t, gone)[i]);
      }
    }
  }

  /** The page is spilled, and not taken back since. */
  predicate Live(spill: seq<Id>, pgno: Id) {
    2 * pgno <= MAXID && var e: Id := 2 * pgno; e in spill
  }

  // ---------------------------------------------------------------- squeezing deleted entries out

  /** Slots behind y: those before i are done and lie compact up to slot j. */
  ghost predicate Squeezing(t: seq<Id>, s: seq<Id>, y: nat, i: nat, j: nat) {
    && y <= j < i <= |s| == |t| && t[..y + 1] == s[..y + 1] && t[i..] == s[i..]
    && t[y + 1..j + 1] == Kept(s[y + 1..i], {})
  }

  lemma KeepOne(t: seq<Id>, s: seq<Id>, y: nat, i: nat, j: nat)
    requires Squeezing(t, s, y, i, j) && i < |s| && s[i] % 2 == 0
    ensures t[i] == s[i] && Squeezing(t[j + 1 := s[i]], s, y, i + 1, j + 1)
  {
    var u := t[j + 1 := s[i]];
    KeptNext(s, y + 1, i);
    assert t[i] == t[i..][0];
    assert u[y + 1..j + 2] == t[y + 1..j + 1] + [s[i]];
    assert u[i + 1..] == t[i..][1..] && s[i + 1..] == s[i..][1..];
    assert u[..y + 1] == t[..y + 1];
  }

  lemma DropOne(t: seq<Id>, s: seq<Id>, y: nat, i: nat, j: nat)
    requires Squeezing(t, s, y, i, j) && i < |s| && s[i] % 2 != 0
    ensures t[i] == s[i] && Squeezing(t, s, y, i + 1, j)
  {
    KeptNext(s, y + 1, i);
    assert t[i] == t[i..][0];
    assert t[i + 1..] == t[i..][1..] && s[i + 1..] == s[i..][1..];
  }

  lemma KeptNext(s: seq<Id>, lo: nat, i: nat)
    requires lo <= i < |s|
    ensures Kept(s[lo..i + 1], {}) == Kept(s[lo..i], {}) + if s[i] % 2 == 0 then [s[i]] else []
  {
    var a := s[lo..i + 1];
    assert a[..|a| - 1] == s[lo..i] && a[|a| - 1] == s[i];
  }

  /** The compactions at mdb.c:2974-2977 and 1617-1622: behind slot y odd entries are squeezed out. */
  method Squeeze(sl: array<Id>, y: nat)
    requires 1 <= sl.Length && y <= sl[0] < sl.Length
    modifies sl
    ensures sl[0] < sl.Length
    ensures sl[1..sl[0] + 1] == old(sl[1..y + 1]) + Kept(old(sl[y + 1..sl[0] + 1]), {})
  {
    ghost var s := sl[..];
    var n: nat := sl[0];
    var j: nat, i: nat := y, y + 1;
    assert s[y + 1..y + 1] == [];
    while i <= n
      invariant i <= n + 1 && Squeezing(sl[..], s, y, i, j)
    {
      ghost var t := sl[..];
      if sl[i] % 2 == 0 {
        KeepOne(t, s, y, i, j) by { assert t[i] == t[i..][0] == s[i]; }
        j := j + 1;
        sl[j] := sl[i];
        assert sl[..] == t[j := s[i]];
      } else {
        DropOne(t, s, y, i, j) by { assert t[i] == t[i..][0] == s[i]; }
      }
      i := i + 1;
    }
    Squeezed(sl[..], s, y, i, j);
    ghost var r := sl[1..j + 1];
    sl[0] := j;
    assert sl[1..j + 1] == r;
  }

  lemma Squeezed(t: seq<Id>, s: seq<Id>, y: nat, i: nat, j: nat)
    requires Squeezing(t, s, y, i, j)
    ensures t[1..j + 1] == s[1..y + 1] + Kept(s[y + 1..i], {})
  {
    assert t[1..j + 1] == t[..y + 1][1..] + t[y + 1..j + 1];
    assert s[..y + 1][1..] == s[1..y + 1];
  }

  // ---------------------------------------------------------------- taking the child's dirty pages out

  /** The entries that the pages of a dirty list would have in a spill list. */
  ghost function Doubled(src: seq<ID2>): set<nat> { set k | 0 <= k < |src| :: src[k].mid * 2 }

  /** t is s with a 1 in place of each entry that is in gone. */
  ghost predicate Marked(s: seq<Id>, t: seq<Id>, gone: set<nat>) {
    |t| == |s| && forall k :: 0 <= k < |s| ==> t[k] == if s[k] in gone then 1 else s[k]
  }

  lemma {:induction false} MarkedKept(s: seq<Id>, t: seq<Id>, gone: set<nat>)
    requires Marked(s, t, gone)
    ensures Kept(t, {}) == Kept(s, gone)
  {
    if |s| > 0 {
      MarkedKept(s[..|s| - 1], t[..|s| - 1], gone);
      assert t[|s| - 1] == if s[|s| - 1] in gone then 1 else s[|s| - 1];
    }
  }

  /** Marking in progress: i pages of src are done, slots above x hold at most hi, marks lie above slot y. */
  ghost predicate Marking(s: seq<Id>, t: seq<Id>, gone: set<nat>, hi: nat, x: nat, y: nat) {
    && x <= y <= |s| < |t| && t[0] == MAXID && Marked(s, t[1..|s| + 1], gone)
    && (forall k :: 0 <= k < y ==> s[k] !in gone)
    && (forall e :: e in gone ==> e <= hi) && (forall k :: x <= k < |s| ==> s[k] <= hi)
  }

  /** mdb.c:2966-2967: x moves down past the entries below pn. */
  method PassBelow(pspill: array<Id>, pn: Id, x0: nat, ghost s: seq<Id>, ghost gone: set<nat>, ghost hi: nat, ghost y: nat)
    returns (x: nat)
    requires Marking(s, pspill[..], gone, hi, x0, y) && hi < pn < MAXID
    ensures x <= x0 && pspill[x] >= pn && forall k :: x <= k < |s| ==> s[k] < pn
  {
    x := x0;
    while pn > pspill[x]
      invariant x <= x0 && forall k :: x <= k < |s| ==> s[k] < pn
      decreases x
    {
      assert pspill[x] == pspill[..][1..|s| + 1][x - 1] == s[x - 1];
      x := x - 1;
    }
  }

  /** The entry for pn is there and gets its mark. */
  lemma MarkOne(s: seq<Id>, t: seq<Id>, gone: set<nat>, hi: nat, x0: nat, x: nat, y: nat, pn: Id)
    requires Ordered(s) && pn % 2 == 0 && Marking(s, t, gone, hi, x0, y) && hi < pn < MAXID && x <= x0
    requires (forall k :: x <= k < |s| ==> s[k] < pn) && t[x] == pn
    ensures x > 0 && Marking(s, t[x := 1], gone + {pn}, pn, x - 1, x - 1)
  {
    var a := t[1..|s| + 1];
    assert a[x - 1] == s[x - 1] == pn;
    assert t[x := 1][1..|s| + 1] == a[x - 1 := 1];
  }

  /** The entry for pn is not there. */
  lemma MarkNone(s: seq<Id>, t: seq<Id>, gone: set<nat>, hi: nat, x0: nat, x: nat, y: nat, pn: Id)
    requires Ordered(s) && pn % 2 == 0 && Marking(s, t, gone, hi, x0, y) && hi < pn < MAXID && x <= x0
    requires (forall k :: x <= k < |s| ==> s[k] < pn) && t[x] > pn
    ensures Marking(s, t, gone + {pn}, pn, x, y)
  {
    if x > 0 {
      assert t[x] == t[1..|s| + 1][x - 1] == s[x - 1];
    }
    forall k | 0 <= k < |s| ensures s[k] != pn {
      assert k < x - 1 ==> s[k] >= s[x - 1];
    }
  }

  /** The squash at mdb.c:2960-2978. */
  method SquashSpill(pspill: array<Id>, src: seq<ID2>)
    requires 1 <= pspill.Length && pspill[0] < pspill.Length && Ordered(pspill[1..pspill[0] + 1])
    requires Asc(src) && forall k :: 0 <= k < |src| ==> 0 < src[k].mid * 2 < MAXID
    modifies pspill
    ensures pspill[0] < pspill.Length && Squashed(old(pspill[1..pspill[0] + 1]), pspill[1..pspill[0] + 1], Doubled(src))
  {
    ghost var s := pspill[1..pspill[0] + 1];
    var n := pspill[0];
    var x: nat, y: nat := n, n;
    pspill[0] := MAXID;
    assert pspill[1..n + 1] == s;
    var i := 0;
    ghost var gone: set<nat>, hi: nat := {}, 0;
    while i < |src|
      invariant 0 <= i <= |src| && Marking(s, pspill[..], gone, hi, x, y) && gone == Doubled(src[..i])
      invariant hi == if i == 0 then 0 else src[i - 1].mid * 2
    {
      var pn := src[i].mid * 2;
      ghost var x0 := x;
      x := PassBelow(pspill, pn, x, s, gone, hi, y);
      ghost var t := pspill[..];
      if pn == pspill[x] {
        MarkOne(s, t, gone, hi, x0, x, y, pn);
        pspill[x] := 1;
        assert pspill[..] == t[x := 1];
        x := x - 1;
        y := x;
      } else {
        MarkNone(s, t, gone, hi, x0, x, y, pn);
      }
      DoubledNext(src, i);
      gone, hi := gone + {pn}, pn;
      i := i + 1;
    }
    assert src[..i] == src;
    FinishSquash(pspill, n, s, y, gone, hi, x);
  }

  method FinishSquash(pspill: array<Id>, n: nat, ghost s: seq<Id>, y: nat, ghost gone: set<nat>, ghost hi: nat, ghost x: nat)
    requires n == |s| <= MAXID && Marking(s, pspill[..], gone, hi, x, y)
    modifies pspill
    ensures pspill[0] < pspill.Length && Squashed(s, pspill[1..pspill[0] + 1], gone)
  {
    ghost var t := pspill[1..n + 1];
    pspill[0] := n;
    assert pspill[1..n + 1] == t && pspill[1..y + 1] == t[..y] && pspill[y + 1..n + 1] == t[y..];
    MarkedTail(s, t, gone, y);
    Squeeze(pspill, y);
  }

  lemma DoubledNext(src: seq<ID2>, i: nat)
    requires i < |src|
    ensures Doubled(src[..i + 1]) == Doubled(src[..i]) + {src[i].mid * 2}
  {
    forall e | e in Doubled(src[..i + 1]) ensures e in Doubled(src[..i]) + {src[i].mid * 2} {
      var k :| 0 <= k < |src[..i + 1]| && src[..i + 1][k].mid * 2 == e;
      if k < i { assert src[..i][k].mid * 2 == e; }
    }
    forall e | e in Doubled(src[..i]) ensures e in Doubled(src[..i + 1]) {
      var k :| 0 <= k < |src[..i]| && src[..i][k].mid * 2 == e;
      assert src[..i + 1][k].mid * 2 == e;
    }
    assert src[..i + 1][i] == src[i];
  }

  /** r is s without the entries in gone; of the entries that are not in gone only odd ones may be missing. */
  ghost predicate Squashed(s: seq<Id>, r: seq<Id>, gone: set<nat>) {
    exists y: nat :: y <= |s| && r == s[..y] + Kept(s[y..], gone) && forall k :: 0 <= k < y ==> s[k] !in gone
  }

  lemma MarkedTail(s: seq<Id>, t: seq<Id>, gone: set<nat>, y: nat)
    requires Marked(s, t, gone) && y <= |s| && forall k :: 0 <= k < y ==> s[k] !in gone
    ensures t[..y] == s[..y] && Kept(t[y..], {}) == Kept(s[y..], gone)
    ensures Squashed(s, t[..y] + Kept(t[y..], {}), gone)
  {
    MarkedKept(s[y..], t[y..], gone);
  }

  /** The list stays in order. */
  lemma SquashedOrdered(s: seq<Id>, r: seq<Id>, gone: set<nat>)
    requires Ordered(s) && Squashed(s, r, gone)
    ensures Ordered(r)
  {
    var y: nat :| y <= |s| && r == s[..y] + Kept(s[y..], gone) && forall k :: 0 <= k < y ==> s[k] !in gone;
    var a, b := s[..y], Kept(s[y..], gone);
    KeptDescends(s[y..], gone);
    forall i, j | 0 <= i < |a| && 0 <= j < |b| ensures a[i] >= b[j] && (a[i] == b[j] ==> a[i] % 2 != 0) {
      KeptMember(s[y..], gone, b[j]);
      var k :| 0 <= k < |s[y..]| && s[y..][k] == b[j];
      assert s[y + k] == b[j];
    }
    OrderedCat(a, b);
  }

  lemma OrderedCat(a: seq<Id>, b: seq<Id>)
    requires Ordered(a) && Descending(b)
    requires forall i, j :: 0 <= i < |a| && 0 <= j < |b| ==> a[i] >= b[j] && (a[i] == b[j] ==> a[i] % 2 != 0)
    ensures Ordered(a + b)
  {
  }

  /** Exactly the given pages stop being spilled. */
  lemma SquashedLive(s: seq<Id>, r: seq<Id>, gone: set<nat>, pgno: Id)
    requires Squashed(s, r, gone)
    ensures Live(r, pgno) <==> Live(s, pgno) && 2 * pgno !in gone
  {
    var y: nat :| y <= |s| && r == s[..y] + Kept(s[y..], gone) && forall k :: 0 <= k < y ==> s[k] !in gone;
    if 2 * pgno <= MAXID {
      SquashedMember(s, s[..y], s[y..], gone, 2 * pgno);
    }
  }

  lemma SquashedMember(s: seq<Id>, a: seq<Id>, b: seq<Id>, gone: set<nat>, e: Id)
    requires s == a + b && e % 2 == 0 && forall k :: 0 <= k < |a| ==> a[k] !in gone
    ensures e in a + Kept(b, gone) <==> e in s && e !in gone
  {
    KeptMember(b, gone, e);
  }
}
