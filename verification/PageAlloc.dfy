/** mdb_page_alloc's work on me_pghead: finding and taking runs, merging freeDB records, giving pages back. */
module PageAlloc {
  import opened Idl

  // ---------------------------------------------------------------- runs of pages

  /** Pages p, p + 1, ..., p + num - 1 are all in the list. */
  ghost predicate HasRun(s: seq<Id>, p: nat, num: nat) { forall q: nat :: p <= q < p + num ==> q in s }

  /** Position i (from 0) and the n2 positions before it hold a run, read downwards. */
  ghost predicate RunAt(s: seq<Id>, i: nat, n2: nat) {
    n2 <= i < |s| && forall j :: i - n2 <= j <= i ==> s[j] == s[i] + (i - j)
  }

  lemma {:induction false} Spread(s: seq<Id>, i: nat, j: nat)
    requires Descending(s) && i <= j < |s|
    ensures s[i] >= s[j] + (j - i)
    decreases j - i
  {
    if i < j { Spread(s, i + 1, j); }
  }

  /** In a descending list the two ends of a run decide about all of it. */
  lemma EndsSuffice(s: seq<Id>, i: nat, n2: nat)
    requires Descending(s) && n2 <= i < |s| && s[i - n2] == s[i] + n2
    ensures RunAt(s, i, n2)
  {
    forall j | i - n2 <= j <= i ensures s[j] == s[i] + (i - j) {
      Spread(s, j, i);
      Spread(s, i - n2, j);
    }
  }

  lemma RunPages(s: seq<Id>, i: nat, n2: nat)
    requires RunAt(s, i, n2)
    ensures HasRun(s, s[i], n2 + 1)
  {
    forall q: nat | s[i] <= q < s[i] + n2 + 1 ensures q in s {
      assert s[i - (q - s[i])] == q;
    }
  }

  lemma NextDown(s: seq<Id>, i: nat, j: nat)
    requires Descending(s) && i < |s| && j < |s| && s[j] as int == s[i] as int + 1
    ensures i == j + 1
  {
    assert j + 1 < |s| ==> s[j] > s[j + 1];
  }

  /** Contiguous pages of a descending list stand next to each other. */
  lemma {:induction false} RunIsAdjacent(s: seq<Id>, p: nat, num: nat) returns (i: nat)
    requires Descending(s) && num >= 1 && HasRun(s, p, num)
    ensures RunAt(s, i, num - 1) && s[i] == p
    decreases num
  {
    assert p in s;
    i :| 0 <= i < |s| && s[i] == p;
    if num > 1 {
      var j := RunIsAdjacent(s, p + 1, num - 1);
      NextDown(s, i, j);
    }
  }

  /** The search at mdb.c:1774-1784: from the tail, the first position that ends a run of num pages. */
  method FindRun(mop: array<Id>, num: nat) returns (i: nat)
    requires num >= 1 && 1 <= mop.Length && mop[0] < mop.Length && Descending(mop[1..mop[0] + 1])
    ensures var s := mop[1..mop[0] + 1];
      && (i > 0 ==> i <= |s| && RunAt(s, i - 1, num - 1))
      && (i > 0 <==> exists p :: HasRun(s, p, num))
      && NoRunFrom(s, i, num - 1)
  {
    var len, n2 := mop[0], num - 1;
    ghost var s := mop[1..len + 1];
    i := len;
    while i > n2
      invariant 0 <= i <= len
      invariant NoRunFrom(s, i, n2)
    {
      var pgno := mop[i];
      if mop[i - n2] == pgno + n2 {
        assert s[i - 1] == pgno && s[i - 1 - n2] == mop[i - n2];
        EndsSuffice(s, i - 1, n2);
        RunPages(s, i - 1, n2);
        return;
      }
      assert s[i - 1] == pgno && s[i - 1 - n2] == mop[i - n2];
      i := i - 1;
    }
    i := 0;
    NoRun(s, n2, num);
  }

  /** No run of n2 + 1 pages ends at position i or behind it. */
  ghost predicate NoRunFrom(s: seq<Id>, i: nat, n2: nat) { forall k :: i <= k < |s| ==> !RunAt(s, k, n2) }

  lemma NoRun(s: seq<Id>, n2: nat, num: nat)
    requires num == n2 + 1 && Descending(s) && NoRunFrom(s, 0, n2)
    ensures forall p :: !HasRun(s, p, num)
  {
    forall p | HasRun(s, p, num) ensures false {
      var k := RunIsAdjacent(s, p, num);
    }
  }

  /** The removal at mdb.c:1870-1874: stragglers move down over the run that ends at position i. */
  method TakeRun(mop: array<Id>, i0: nat, num: nat)
    requires 1 <= num <= i0 && 1 <= mop.Length && i0 <= mop[0] < mop.Length
    modifies mop
    ensures mop[0] == old(mop[0]) - num
    ensures mop[1..mop[0] + 1] == old(mop[1..i0 - num + 1]) + old(mop[i0 + 1..mop[0] + 1])
  {
    ghost var s := mop[..];
    var len := mop[0] - num;
    mop[0] := len;
    var i, j := i0, i0 - num;
    while j < len
      invariant i0 - num <= j <= len && i == j + num
      invariant mop[0] == len && forall k {:trigger mop[k]} :: 1 <= k < mop.Length ==>
        mop[k] == if i0 - num < k <= j then s[k + num] else s[k]
    {
      j, i := j + 1, i + 1;
      mop[j] := mop[i];
    }
    assert mop[1..len + 1] == s[1..i0 - num + 1] + s[i0 + 1..len + num + 1];
  }

  // ---------------------------------------------------------------- merging a freeDB record

  /** Descending merge of two descending lists, built from the small end. */
  function Merged(a: seq<Id>, b: seq<Id>): (m: seq<Id>)
    ensures |m| == |a| + |b|
  {
    if |b| == 0 then a
    else if |a| > 0 && a[|a| - 1] < b[|b| - 1] then Merged(a[..|a| - 1], b) + [a[|a| - 1]]
    else Merged(a, b[..|b| - 1]) + [b[|b| - 1]]
  }

  lemma {:induction false} MergedMultiset(a: seq<Id>, b: seq<Id>)
    ensures multiset(Merged(a, b)) == multiset(a) + multiset(b)
    decreases |a| + |b|
  {
    if |b| == 0 {
    } else if |a| > 0 && a[|a| - 1] < b[|b| - 1] {
      MergedMultiset(a[..|a| - 1], b);
      LastOf(a);
    } else {
      MergedMultiset(a, b[..|b| - 1]);
      LastOf(b);
    }
  }

  lemma LastOf(a: seq<Id>)
    requires |a| > 0
    ensures multiset(a) == multiset(a[..|a| - 1]) + multiset{a[|a| - 1]}
  {
    assert a == a[..|a| - 1] + [a[|a| - 1]];
  }

  lemma MergedMember(a: seq<Id>, b: seq<Id>, x: Id)
    ensures x in Merged(a, b) <==> x in a || x in b
  {
    MergedMultiset(a, b);
    assert x in multiset(Merged(a, b)) <==> x in multiset(a) + multiset(b);
  }

  /** The union of two descending lists without a common id is strictly descending. */
  lemma {:induction false} MergedDescends(a: seq<Id>, b: seq<Id>)
    requires Descending(a) && Descending(b) && forall x :: x in a ==> x !in b
    ensures Descending(Merged(a, b))
    decreases |a| + |b|
  {
    if |b| == 0 {
    } else if |a| > 0 && a[|a| - 1] < b[|b| - 1] {
      MergedDescends(a[..|a| - 1], b);
      LowestLast(a[..|a| - 1], b, a[|a| - 1]);
    } else {
      MergedDescends(a, b[..|b| - 1]);
      assert |a| > 0 ==> a[|a| - 1] in a && b[|b| - 1] in b;
      LowestLast(a, b[..|b| - 1], b[|b| - 1]);
    }
  }

  lemma LowestLast(a: seq<Id>, b: seq<Id>, x: Id)
    requires Descending(Merged(a, b)) && (forall y :: y in a ==> y > x) && (forall y :: y in b ==> y > x)
    ensures Descending(Merged(a, b) + [x])
  {
    var m := Merged(a, b);
    forall i | 0 <= i < |m| ensures m[i] > x {
      MergedMember(a, b, m[i]);
    }
  }

  /** Merge in progress: j ids of A and i of B are still to come, the rest is in slots k + 1..total. */
  ghost predicate Merging(s: seq<Id>, A: seq<Id>, B: seq<Id>, j: nat, i: nat) {
    var total := |A| + |B|;
    && j <= |A| && i <= |B| && total < |s| && s[0] == MAXID && s[1..j + 1] == A[..j]
    && Merged(A[..j], B[..i]) + s[j + i + 1..total + 1] == Merged(A, B)
  }

  lemma MoveOld(s: seq<Id>, A: seq<Id>, B: seq<Id>, j: nat, i: nat)
    requires Merging(s, A, B, j, i) && j > 0 && i > 0 && s[j] < B[i - 1]
    ensures Merging(s[j + i := s[j]], A, B, j - 1, i)
  {
    var a, b, t, total := A[..j], B[..i], s[j + i := s[j]], |A| + |B|;
    assert a[j - 1] == s[1..j + 1][j - 1] == s[j] && a[..j - 1] == A[..j - 1];
    assert t[1..j] == A[..j - 1] by { assert t[1..j] == s[1..j + 1][..j - 1]; }
    assert t[j + i..total + 1] == [s[j]] + s[j + i + 1..total + 1];
  }

  lemma MoveNew(s: seq<Id>, A: seq<Id>, B: seq<Id>, j: nat, i: nat)
    requires Merging(s, A, B, j, i) && i > 0 && s[j] >= B[i - 1]
    ensures Merging(s[j + i := B[i - 1]], A, B, j, i - 1)
  {
    var a, b, t, total := A[..j], B[..i], s[j + i := B[i - 1]], |A| + |B|;
    assert j > 0 ==> a[j - 1] == s[1..j + 1][j - 1] == s[j];
    assert b[i - 1] == B[i - 1] && b[..i - 1] == B[..i - 1];
    assert t[1..j + 1] == s[1..j + 1];
    assert t[j + i..total + 1] == [B[i - 1]] + s[j + i + 1..total + 1];
  }

  lemma MergeDone(s: seq<Id>, A: seq<Id>, B: seq<Id>, j: nat)
    requires Merging(s, A, B, j, 0)
    ensures s[1..|A| + |B| + 1] == Merged(A, B)
  {
    assert s[1..|A| + |B| + 1] == s[1..j + 1] + s[j + 1..|A| + |B| + 1];
  }

  /** The inner loop at mdb.c:1845-1846: ids of the old list below newId move up. */
  method MoveOlder(mop: array<Id>, newId: Id, j0: nat, k0: nat, ghost A: seq<Id>, ghost B: seq<Id>, ghost i: nat)
    returns (j: nat, k: nat, oldId: Id)
    requires i > 0 && Merging(mop[..], A, B, j0, i) && k0 == j0 + i && newId == B[i - 1] < MAXID
    modifies mop
    ensures Merging(mop[..], A, B, j, i) && k == j + i && oldId == mop[j] >= newId
  {
    j, k, oldId := j0, k0, mop[j0];
    while oldId < newId
      invariant Merging(mop[..], A, B, j, i) && k == j + i && oldId == mop[j]
      decreases j
    {
      ghost var s := mop[..];
      MoveOld(s, A, B, j, i);
      mop[k] := oldId;
      assert mop[..] == s[j + i := s[j]];
      k, j := k - 1, j - 1;
      oldId := mop[j];
    }
  }

  /** The loop of the in-place merge at mdb.c:1843-1848. */
  method MergeDown(mop: array<Id>, idl: seq<Id>, total: nat, ghost A: seq<Id>)
    requires forall k :: 0 <= k < |idl| ==> idl[k] < MAXID
    requires Merging(mop[..], A, idl, |A|, |idl|) && total == |A| + |idl|
    modifies mop
    ensures mop.Length > total && mop[1..total + 1] == Merged(A, idl)
  {
    var i: nat := |idl|;
    var j: nat, k: nat := total - i, total;
    while i > 0
      invariant Merging(mop[..], A, idl, j, i) && k == j + i
    {
      var newId, oldId := idl[i - 1], mop[j];
      j, k, oldId := MoveOlder(mop, newId, j, k, A, idl, i);
      ghost var s := mop[..];
      MoveNew(s, A, idl, j, i);
      mop[k] := newId;
      assert mop[..] == s[j + i := newId];
      k, i := k - 1, i - 1;
    }
    MergeDone(mop[..], A, idl, j);
  }

  lemma MergeStarts(s: seq<Id>, t: seq<Id>, A: seq<Id>, B: seq<Id>)
    requires |A| + |B| < |s| && A == s[1..|A| + 1] && t == s[0 := MAXID]
    ensures Merging(t, A, B, |A|, |B|)
  {
    assert A[..|A|] == A && B[..|B|] == B && t[1..|A| + 1] == s[1..|A| + 1];
    assert t[|A| + |B| + 1..|A| + |B| + 1] == [];
  }

  /** The in-place merge at mdb.c:1838-1849.  Slot 0 holds a sentinel above every id while it runs. */
  method MergeRecord(mop: array<Id>, idl: seq<Id>)
    requires 1 <= mop.Length && mop[0] + |idl| < mop.Length && mop[0] + |idl| <= MAXID
    requires forall k :: 0 <= k < |idl| ==> idl[k] < MAXID
    modifies mop
    ensures mop[0] == old(mop[0]) + |idl|
    ensures mop[1..mop[0] + 1] == Merged(old(mop[1..mop[0] + 1]), idl)
  {
    ghost var s, A := mop[..], mop[1..mop[0] + 1];
    var total := mop[0] + |idl|;
    mop[0] := MAXID;
    MergeStarts(s, mop[..], A, idl);
    MergeDown(mop, idl, total, A);
    ghost var t := mop[1..total + 1];
    mop[0] := total;
    assert mop[1..total + 1] == t;
  }

  // ---------------------------------------------------------------- giving overflow pages back

  /** Number of ids above pg in a descending list. */
  function Above(s: seq<Id>, pg: Id): (n: nat)
    ensures n <= |s| && (n > 0 ==> s[n - 1] >= pg) && (n < |s| ==> s[|s| - 1] < pg)
  {
    if |s| == 0 || s[|s| - 1] >= pg then |s| else Above(s[..|s| - 1], pg)
  }

  function WithRange(s: seq<Id>, pg: Id, n: nat): seq<Id>
    requires pg + n <= MAXID
  {
    s[..Above(s, pg)] + Range(pg, n) + s[Above(s, pg)..]
  }

  /** Shifting in progress: the ids behind position i have moved up by n slots. */
  ghost predicate Shifting(t: seq<Id>, s: seq<Id>, i: nat, n: nat) {
    i <= |s| && |s| + n < |t| && t[1..i + 1] == s[..i] && t[i + n + 1..|s| + n + 1] == s[i..]
  }

  lemma ShiftStarts(t: seq<Id>, s: seq<Id>, n: nat)
    requires |s| + n < |t| && t[1..|s| + 1] == s
    ensures Shifting(t, s, |s|, n) && s[..|s|] == s
  {
  }

  lemma ShiftOne(t: seq<Id>, s: seq<Id>, i: nat, n: nat)
    requires Shifting(t, s, i, n) && i > 0
    ensures t[i] == s[i - 1] == s[..i][i - 1] && s[..i][..i - 1] == s[..i - 1]
    ensures Shifting(t[i + n := t[i]], s, i - 1, n)
  {
    var u := t[i + n := t[i]];
    assert t[i] == t[1..i + 1][i - 1];
    assert u[1..i] == t[1..i + 1][..i - 1];
    assert u[i + n..|s| + n + 1] == [t[i]] + t[i + n + 1..|s| + n + 1];
  }

  /** The shift at mdb.c:4991-4992: ids below pg move up by ovpages. */
  method ShiftUp(mop: array<Id>, pg: Id, ovpages: nat, ghost s: seq<Id>) returns (i: nat)
    requires 1 <= mop.Length && mop[0] + ovpages < mop.Length && |s| == mop[0] && s == mop[1..mop[0] + 1]
    modifies mop
    ensures Shifting(mop[..], s, i, ovpages) && i == Above(s, pg)
  {
    i := mop[0];
    var j := i + ovpages;
    ShiftStarts(mop[..], s, ovpages);
    while i > 0 && mop[i] < pg
      invariant Shifting(mop[..], s, i, ovpages) && j == i + ovpages
      invariant Above(s, pg) == Above(s[..i], pg)
    {
      ghost var t := mop[..];
      ShiftOne(t, s, i, ovpages);
      mop[j] := mop[i];
      assert mop[..] == t[i + ovpages := t[i]];
      j, i := j - 1, i - 1;
    }
    ShiftEnds(mop[..], s, i, ovpages, pg);
  }

  lemma ShiftEnds(t: seq<Id>, s: seq<Id>, i: nat, n: nat, pg: Id)
    requires Shifting(t, s, i, n) && Above(s, pg) == Above(s[..i], pg) && (i > 0 ==> t[i] >= pg)
    ensures Above(s, pg) == i
  {
    assert i > 0 ==> s[..i][i - 1] == t[1..i + 1][i - 1] == t[i];
  }

  /** The release at mdb.c:4988-4995: pages pg .. pg + ovpages - 1 enter the list at their place. */
  method ReleaseRange(mop: array<Id>, pg: Id, ovpages: nat)
    requires 1 <= mop.Length <= MAXID && mop[0] + ovpages < mop.Length && pg + ovpages <= MAXID
    modifies mop
    ensures mop[0] == old(mop[0]) + ovpages
    ensures mop[1..mop[0] + 1] == WithRange(old(mop[1..mop[0] + 1]), pg, ovpages)
  {
    var len: nat := mop[0];
    ghost var s := mop[1..len + 1];
    var i := ShiftUp(mop, pg, ovpages, s);
    ghost var t := mop[..];
    FillDown(mop, i, pg, ovpages);
    Released(t, mop[..], s, i, pg, ovpages);
    ghost var u := mop[1..len + ovpages + 1];
    mop[0] := len + ovpages;
    assert mop[1..len + ovpages + 1] == u;
  }

  lemma Released(t: seq<Id>, u: seq<Id>, s: seq<Id>, i: nat, pg: Id, n: nat)
    requires pg + n <= MAXID && Shifting(t, s, i, n) && |u| == |t|
    requires u[..i + 1] == t[..i + 1] && u[i + 1..i + n + 1] == Range(pg, n) && u[i + n + 1..] == t[i + n + 1..]
    ensures u[1..|s| + n + 1] == s[..i] + Range(pg, n) + s[i..]
  {
    assert u[1..i + 1] == u[..i + 1][1..] == s[..i];
    assert u[i + n + 1..|s| + n + 1] == u[i + n + 1..][..|s| - i] == t[i + n + 1..|s| + n + 1];
    assert u[1..|s| + n + 1] == u[1..i + 1] + u[i + 1..i + n + 1] + u[i + n + 1..|s| + n + 1];
  }

  /** Pages of this transaction that go back keep the list strictly descending. */
  lemma ReleasedDescends(s: seq<Id>, pg: Id, n: nat)
    requires Descending(s) && pg + n <= MAXID && forall q :: pg <= q < pg + n ==> q !in s
    ensures Descending(WithRange(s, pg, n))
  {
    var a := Above(s, pg);
    AboveSplits(s, pg);
    forall i | 0 <= i < a ensures s[i] >= pg + n {
      assert s[i] in s;
    }
    InOrder(s[..a], Range(pg, n), s[a..], pg, n);
  }

  /** Each page that goes back is in the list then, and nothing else enters or leaves. */
  lemma ReleasedMember(s: seq<Id>, pg: Id, n: nat, x: Id)
    requires pg + n <= MAXID
    ensures multiset(WithRange(s, pg, n)) == multiset(s) + multiset(Range(pg, n))
    ensures x in WithRange(s, pg, n) <==> x in s || pg <= x < pg + n
  {
    var a, r := Above(s, pg), Range(pg, n);
    assert s == s[..a] + s[a..];
    if pg <= x < pg + n { assert r[pg + n - 1 - x] == x; }
    assert x in WithRange(s, pg, n) <==> x in s[..a] || x in r || x in s[a..];
  }

  lemma InOrder(hi: seq<Id>, r: seq<Id>, lo: seq<Id>, pg: nat, n: nat)
    requires Descending(hi) && Descending(r) && Descending(lo)
    requires (forall i :: 0 <= i < |hi| ==> hi[i] >= pg + n) && (forall i :: 0 <= i < |lo| ==> lo[i] < pg)
    requires forall i :: 0 <= i < |r| ==> pg <= r[i] < pg + n
    ensures Descending(hi + r + lo)
  {
  }

  lemma {:induction false} AboveSplits(s: seq<Id>, pg: Id)
    requires Descending(s)
    ensures forall i :: 0 <= i < |s| ==> (i < Above(s, pg) <==> s[i] >= pg)
  {
    if |s| > 0 && s[|s| - 1] < pg {
      AboveSplits(s[..|s| - 1], pg);
    }
  }
}
