/** mdb_midl_sort: quicksort with an explicit stack, insertion sort for short segments. */
module IdlSort {
  import opened Idl

  const SMALL := 8

  /** sizeof(int)*CHAR_BIT*2 slots, as for 32-bit ints. */
  const STACK_SLOTS := 64
  const INT_MAX := 0x7FFF_FFFF

  // ---------------------------------------------------------------- cuts

  /** Position c of slots 1..n separates larger ids on the left from smaller ones on the right. */
  ghost predicate Cut(s: seq<Id>, n: nat, c: int)
    requires n < |s|
  {
    forall p, q :: 1 <= p < c <= q <= n ==> s[p] >= s[q]
  }

  ghost predicate SameOutside(s: seq<Id>, t: seq<Id>, l: int, r: int)
    requires 0 <= l <= r <= |s|
  {
    |t| == |s| && t[..l] == s[..l] && t[r..] == s[r..]
  }

  /** t permutes slots l..ir of s and leaves the others alone. */
  ghost predicate Permutes(s: seq<Id>, t: seq<Id>, l: int, ir: int)
    requires 0 <= l <= ir + 1 <= |s|
  {
    SameOutside(s, t, l, ir + 1) && multiset(t) == multiset(s)
  }

  lemma CancelEnds<T>(a: seq<T>, x: seq<T>, y: seq<T>, b: seq<T>)
    requires multiset(a + x + b) == multiset(a + y + b)
    ensures multiset(x) == multiset(y)
  {
    assert multiset(x) == multiset(a + x + b) - multiset(a) - multiset(b);
    assert multiset(y) == multiset(a + y + b) - multiset(a) - multiset(b);
  }

  lemma Member<T>(x: seq<T>, y: seq<T>, p: nat) returns (q: nat)
    requires multiset(x) == multiset(y) && p < |x|
    ensures q < |y| && y[q] == x[p]
  {
    assert x[p] in multiset(x);
    assert x[p] in y;
    q :| q < |y| && y[q] == x[p];
  }

  lemma SameSegment(s: seq<Id>, t: seq<Id>, l: int, ir: int)
    requires 0 <= l <= ir + 1 <= |s| && Permutes(s, t, l, ir)
    ensures multiset(t[l..ir + 1]) == multiset(s[l..ir + 1])
  {
    var a, b, x, y := s[..l], s[ir + 1..], s[l..ir + 1], t[l..ir + 1];
    assert s == a + x + b && t == a + y + b;
    CancelEnds(a, x, y, b);
  }

  lemma CameFrom(s: seq<Id>, t: seq<Id>, l: int, ir: int, p: int) returns (q: int)
    requires 0 <= l <= ir + 1 <= |s| && Permutes(s, t, l, ir) && 0 <= p < |s|
    ensures 0 <= q < |s| && t[p] == s[q] && (l <= p <= ir ==> l <= q <= ir) && (p < l || ir < p ==> q == p)
  {
    if p < l {
      assert t[..l][p] == s[..l][p];
      q := p;
    } else if ir < p {
      assert t[ir + 1..][p - ir - 1] == s[ir + 1..][p - ir - 1];
      q := p;
    } else {
      SameSegment(s, t, l, ir);
      q := Member(t[l..ir + 1], s[l..ir + 1], p - l);
      q := l + q;
    }
  }

  /** Permuting a segment keeps the cuts outside it. */
  lemma CutKept(s: seq<Id>, t: seq<Id>, n: nat, l: int, ir: int, c: int)
    requires 1 <= l <= ir + 1 <= n + 1 <= |s| && Permutes(s, t, l, ir) && Cut(s, n, c) && (c <= l || ir < c)
    ensures Cut(t, n, c)
  {
    forall p, q | 1 <= p < c <= q <= n ensures t[p] >= t[q] {
      var p' := CameFrom(s, t, l, ir, p);
      var q' := CameFrom(s, t, l, ir, q);
      assert s[p'] >= s[q'];
    }
  }

  /** A separation inside a segment that is itself cut off on both sides is a cut. */
  lemma InnerCut(s: seq<Id>, n: nat, l: int, ir: int, c: int)
    requires n < |s| && 1 <= l < c <= ir <= n && Cut(s, n, l) && Cut(s, n, ir + 1)
    requires forall p, q :: l <= p < c <= q <= ir ==> s[p] >= s[q]
    ensures Cut(s, n, c)
  {
    forall p, q | 1 <= p < c <= q <= n ensures s[p] >= s[q] {
      if p < l && q <= ir {
        assert s[p] >= s[q];
      }
    }
  }

  // ---------------------------------------------------------------- short segments

  lemma Rotated<T>(a: seq<T>, x: T, b: seq<T>, c: seq<T>)
    ensures multiset(a + [x] + b + c) == multiset(a + b + [x] + c)
  {
  }

  /** s with the id a put in front of slot i + 1 and slots i + 1..j - 1 moved up. */
  ghost function Shifted(s: seq<Id>, i: int, j: nat, a: Id): (t: seq<Id>)
    requires -1 <= i < j < |s|
    ensures |t| == |s|
    ensures forall p {:trigger t[p]} :: 0 <= p < |t| ==> t[p] == if p <= i || j < p then s[p] else if p == i + 1 then a else s[p - 1]
  {
    s[..i + 1] + [a] + s[i + 1..j] + s[j + 1..]
  }

  lemma ShiftedSorted(s: seq<Id>, l: nat, i: int, j: nat)
    requires 1 <= l < j < |s| && l - 1 <= i < j
    requires forall p, q :: l <= p < q < j ==> s[p] >= s[q]
    requires (forall p :: i < p < j ==> s[p] < s[j]) && (i >= l ==> s[i] >= s[j])
    ensures var t := Shifted(s, i, j, s[j]); forall p, q :: l <= p < q <= j ==> t[p] >= t[q]
  {
  }

  lemma ShiftedPermutes(s: seq<Id>, l: nat, i: int, j: nat)
    requires 1 <= l < j < |s| && l - 1 <= i < j
    ensures Permutes(s, Shifted(s, i, j, s[j]), l, j)
  {
    var t := Shifted(s, i, j, s[j]);
    assert multiset(t) == multiset(s) by {
      assert s == s[..i + 1] + s[i + 1..j] + [s[j]] + s[j + 1..];
      Rotated(s[..i + 1], s[j], s[i + 1..j], s[j + 1..]);
    }
    assert SameOutside(s, t, l, j + 1);
  }

  /** The shifting loop of the insertion sort: the id at j moves down to its place. */
  method ShiftDown(ids: array<Id>, l: nat, j: nat) returns (ghost i: int)
    requires 1 <= l < j < ids.Length
    requires l > 1 ==> ids[l - 1] >= ids[j]
    modifies ids
    ensures l - 1 <= i < j && ids[..] == Shifted(old(ids[..]), i, j, old(ids[j]))
    ensures (forall p :: i < p < j ==> old(ids[p]) < old(ids[j])) && (i >= l ==> old(ids[i]) >= old(ids[j]))
  {
    var a := ids[j];
    var k := j - 1;
    ghost var was := ids[..];
    while k >= 1 && ids[k] < a
      invariant l - 1 <= k < j
      invariant forall p {:trigger ids[p]} :: 0 <= p < ids.Length ==> ids[p] == if k + 1 < p <= j then was[p - 1] else was[p]
      invariant forall p :: k < p < j ==> was[p] < a
    {
      ids[k + 1] := ids[k];
      k := k - 1;
    }
    ids[k + 1] := a;
    i := k;
  }

  method InsertOne(ids: array<Id>, l: nat, j: nat)
    requires 1 <= l < j < ids.Length
    requires forall p, q :: l <= p < q < j ==> ids[p] >= ids[q]
    requires l > 1 ==> ids[l - 1] >= ids[j]
    modifies ids
    ensures forall p, q :: l <= p < q <= j ==> ids[p] >= ids[q]
    ensures Permutes(old(ids[..]), ids[..], l, j)
  {
    ghost var was := ids[..];
    ghost var i := ShiftDown(ids, l, j);
    ghost var now := ids[..];
    ShiftedSorted(was, l, i, j);
    ShiftedPermutes(was, l, i, j);
    assert forall p :: 0 <= p < ids.Length ==> now[p] == ids[p];
  }

  /** Insertion sort of slots l..ir.  The inner loop tests i >= 1, yet no id below l moves. */
  method InsertionSort(ids: array<Id>, l: nat, ir: nat)
    requires 1 <= l <= ir + 1 <= ids.Length
    requires l > 1 ==> forall p :: l <= p <= ir ==> ids[l - 1] >= ids[p]
    modifies ids
    ensures forall p, q :: l <= p < q <= ir ==> ids[p] >= ids[q]
    ensures Permutes(old(ids[..]), ids[..], l, ir)
  {
    var j := l + 1;
    while j <= ir
      invariant l + 1 <= j <= ir + 2
      invariant j <= ir + 1 || j == l + 1
      invariant forall p, q :: l <= p < q < j && q <= ir ==> ids[p] >= ids[q]
      invariant l > 1 ==> forall p :: j <= p <= ir ==> ids[l - 1] >= ids[p]
      invariant Permutes(old(ids[..]), ids[..], l, ir)
    {
      ghost var before := ids[..];
      InsertOne(ids, l, j);
      assert ids[..l] == before[..l];
      assert ids[j + 1..] == before[j + 1..];
      assert forall p :: j < p < ids.Length ==> ids[p] == before[p] by {
        assert forall p :: j < p < ids.Length ==> ids[..][p] == ids[j + 1..][p - j - 1] && before[p] == before[j + 1..][p - j - 1];
      }
      assert ids[ir + 1..] == before[ir + 1..];
      assert l > 1 ==> ids[l - 1] == before[l - 1];
      j := j + 1;
    }
  }

  // ---------------------------------------------------------------- partitioning

  /** MIDL_SWAP on two slots of a segment. */
  method Swap(ids: array<Id>, p: nat, q: nat, ghost l: nat, ghost ir: nat)
    requires l <= p <= ir < ids.Length && l <= q <= ir
    modifies ids
    ensures ids[..] == old(ids[..])[p := old(ids[q])][q := old(ids[p])]
    ensures Permutes(old(ids[..]), ids[..], l, ir)
  {
    ids[p], ids[q] := ids[q], ids[p];
    assert ids[..] == old(ids[..])[p := old(ids[q])][q := old(ids[p])];
  }

  lemma PermutesTwice(s: seq<Id>, t: seq<Id>, u: seq<Id>, l: nat, ir: nat)
    requires l <= ir + 1 <= |s| && Permutes(s, t, l, ir) && Permutes(t, u, l, ir)
    ensures Permutes(s, u, l, ir)
  {
  }

  method SwapIfLess(ids: array<Id>, p: nat, q: nat, ghost l: nat, ghost ir: nat)
    requires l <= p < q <= ir < ids.Length
    modifies ids
    ensures ids[p] == (if old(ids[p]) < old(ids[q]) then old(ids[q]) else old(ids[p]))
    ensures ids[q] == (if old(ids[p]) < old(ids[q]) then old(ids[p]) else old(ids[q]))
    ensures forall k :: 0 <= k < ids.Length && k != p && k != q ==> ids[k] == old(ids[k])
    ensures Permutes(old(ids[..]), ids[..], l, ir)
  {
    if ids[p] < ids[q] {
      ghost var s := ids[..];
      Swap(ids, p, q, l, ir);
      assert forall k :: 0 <= k < ids.Length ==> ids[k] == s[p := s[q]][q := s[p]][k];
    }
  }

  /** The median of left, middle and right goes to slot l + 1, between the other two. */
  method MedianOfThree(ids: array<Id>, l: nat, ir: nat)
    requires 1 <= l && l + SMALL <= ir < ids.Length
    modifies ids
    ensures ids[l] >= ids[l + 1] >= ids[ir]
    ensures Permutes(old(ids[..]), ids[..], l, ir)
  {
    ghost var s := ids[..];
    var k := (l + ir) / 2;
    Swap(ids, k, l + 1, l, ir);
    ghost var t := ids[..];
    SwapIfLess(ids, l, ir, l, ir);
    PermutesTwice(s, t, ids[..], l, ir);
    ghost var u := ids[..];
    SwapIfLess(ids, l + 1, ir, l, ir);
    PermutesTwice(s, u, ids[..], l, ir);
    ghost var v := ids[..];
    SwapIfLess(ids, l, l + 1, l, ir);
    PermutesTwice(s, v, ids[..], l, ir);
  }

  /** What the scans rely on: slots up to i are not below the pivot, slots from j on not above it. */
  ghost predicate Partial(s: seq<Id>, l: nat, ir: nat, i: nat, j: nat, a: Id)
    requires ir < |s|
  {
    && l + 1 <= i < ir && i <= j <= ir && s[l + 1] == a
    && (forall p :: l <= p <= i ==> s[p] >= a) && (forall p :: j <= p <= ir ==> s[p] <= a)
  }

  /** do i++; while (ids[i] > a).  The ids from j on stop it at ir at the latest. */
  method ScanUp(ids: array<Id>, l: nat, ir: nat, i0: nat, ghost j: nat, a: Id) returns (i: nat)
    requires ir < ids.Length && Partial(ids[..], l, ir, i0, j, a)
    ensures i0 < i <= ir && (i0 < j ==> i <= j) && ids[i] <= a && forall p :: i0 < p < i ==> ids[p] > a
  {
    i := i0 + 1;
    assert ids[..][ir] <= a && (i0 < j ==> ids[..][j] <= a);
    while ids[i] > a
      invariant i0 < i <= ir && (i0 < j ==> i <= j)
      invariant forall p :: i0 < p < i ==> ids[p] > a
      decreases ir - i
    {
      i := i + 1;
    }
  }

  /** do j--; while (ids[j] < a).  The pivot at l + 1 stops it. */
  method ScanDown(ids: array<Id>, l: nat, ir: nat, ghost i0: nat, j0: nat, a: Id) returns (j: nat)
    requires ir < ids.Length && Partial(ids[..], l, ir, i0, j0, a) && l + 1 < j0
    ensures l + 1 <= j < j0 && (i0 < j0 ==> i0 <= j) && ids[j] >= a && forall p :: j < p < j0 ==> ids[p] < a
  {
    j := j0 - 1;
    assert ids[..][l + 1] == a && ids[..][i0] >= a;
    while ids[j] < a
      invariant l + 1 <= j < j0 && (i0 < j0 ==> i0 <= j)
      invariant forall p :: j < p < j0 ==> ids[p] < a
      decreases j
    {
      j := j - 1;
    }
  }

  /** Slots l..j-1 hold larger ids, j..i-1 the pivot, i..ir smaller ids. */
  ghost predicate Partitioned(s: seq<Id>, l: int, ir: int, i: int, j: int)
    requires 0 <= l && ir < |s|
  {
    && l + 1 <= j < i <= ir
    && (forall p :: l <= p < j ==> s[p] >= s[j]) && (forall p :: j <= p < i ==> s[p] == s[j])
    && (forall p :: i <= p <= ir ==> s[p] <= s[j])
  }

  method ScanLoop(ids: array<Id>, l: nat, ir: nat) returns (i: nat, j: nat)
    requires 1 <= l && l + SMALL <= ir < ids.Length && ids[l] >= ids[l + 1] >= ids[ir]
    modifies ids
    ensures l + 1 <= j < i <= ir && ids[l + 1] == old(ids[l + 1])
    ensures (forall p :: l <= p < i ==> ids[p] >= ids[l + 1]) && (forall p :: j < p <= ir ==> ids[p] <= ids[l + 1]) && ids[j] >= ids[l + 1]
    ensures Permutes(old(ids[..]), ids[..], l, ir)
  {
    i, j := l + 1, ir;
    var a := ids[l + 1];
    while true
      invariant Partial(ids[..], l, ir, i, j, a) && l + 1 < j
      invariant Permutes(old(ids[..]), ids[..], l, ir)
      decreases j
    {
      ghost var s, i0, j0 := ids[..], i, j;
      i := ScanUp(ids, l, ir, i, j, a);
      j := ScanDown(ids, l, ir, i0, j, a);
      assert forall p :: l <= p < i ==> s[p] >= a;
      assert forall p :: j < p <= ir ==> s[p] <= a;
      if j < i { break; }
      Swap(ids, i, j, l, ir);
      assert forall p :: l <= p <= ir && p != i && p != j ==> ids[..][p] == s[p];
    }
  }

  method Partition(ids: array<Id>, l: nat, ir: nat) returns (i: nat, j: nat)
    requires 1 <= l && l + SMALL <= ir < ids.Length
    modifies ids
    ensures Partitioned(ids[..], l, ir, i, j)
    ensures Permutes(old(ids[..]), ids[..], l, ir)
  {
    MedianOfThree(ids, l, ir);
    i, j := ScanLoop(ids, l, ir);
    var a := ids[l + 1];
    ids[l + 1] := ids[j];
    ids[j] := a;
    assert ids[..l] == old(ids[..l]);
    assert ids[ir + 1..] == old(ids[ir + 1..]);
  }

  /** The partition cuts the segment at every position from j to i. */
  lemma PartitionCuts(s: seq<Id>, n: nat, l: int, ir: int, i: int, j: int)
    requires 1 <= l && ir <= n < |s| && Partitioned(s, l, ir, i, j) && Cut(s, n, l) && Cut(s, n, ir + 1)
    ensures forall c :: j <= c <= i ==> Cut(s, n, c)
  {
    forall c | j <= c <= i ensures Cut(s, n, c) {
      InnerCut(s, n, l, ir, c);
    }
  }

  // ---------------------------------------------------------------- the explicit stack

  function Pow2(k: nat): nat { if k == 0 then 1 else 2 * Pow2(k - 1) }

  lemma {:induction false} Pow2Grows(a: nat, b: nat)
    requires a <= b
    ensures Pow2(a) <= Pow2(b)
  {
    if a < b { Pow2Grows(a, b - 1); }
  }

  lemma {:induction false} Pow2Add(a: nat, b: nat)
    ensures Pow2(a + b) == Pow2(a) * Pow2(b)
  {
    if b > 0 { Pow2Add(a, b - 1); }
  }

  datatype Seg = Seg(l: int, ir: int)

  function Size(g: Seg): int { g.ir - g.l + 1 }

  /** Two segments are apart if they share no slot. */
  ghost predicate Apart(g: Seg, h: Seg) { g.ir < h.l || h.ir < g.l }

  ghost predicate Inside(g: Seg, c: nat) { g.l < c <= g.ir }

  /** Outside the segments still to be sorted (the last one is the current one) every position is a cut. */
  ghost predicate Pending(s: seq<Id>, n: nat, all: seq<Seg>)
    requires n < |s|
  {
    && (forall k :: 0 <= k < |all| ==> 1 <= all[k].l <= all[k].ir + 1 <= n + 1)
    && (forall k, m :: 0 <= k < m < |all| ==> Apart(all[k], all[m]))
    && (forall k :: 0 <= k < |all| ==> Cut(s, n, all[k].l) && Cut(s, n, all[k].ir + 1))
    && (forall c: nat :: 2 <= c <= n ==> Cut(s, n, c) || exists k :: 0 <= k < |all| && Inside(all[k], c))
  }

  /** Segment k of the stack holds at most n / 2^k ids. */
  ghost predicate Sizes(n: nat, all: seq<Seg>) {
    forall k :: 0 <= k < |all| ==> Size(all[k]) * Pow2(k) <= n
  }

  ghost function Work(all: seq<Seg>): nat
    requires forall k :: 0 <= k < |all| ==> Size(all[k]) >= 0
  {
    if |all| == 0 then 0 else Work(all[..|all| - 1]) + 2 * Size(all[|all| - 1]) + 1
  }

  lemma AllCut(s: seq<Id>, n: nat)
    requires n < |s| && Pending(s, n, [])
    ensures Sorted(s[1..n + 1])
  {
    var t := s[1..n + 1];
    forall i, j | 0 <= i < j < |t| ensures t[i] >= t[j] {
      assert Cut(s, n, j + 1);
      assert t[i] == s[i + 1] >= s[j + 1] == t[j];
    }
  }

  /** Permuting the current segment keeps every cut that is not inside it. */
  lemma CutsKept(s: seq<Id>, t: seq<Id>, n: nat, all: seq<Seg>, g: Seg)
    requires n < |s| && Pending(s, n, all + [g]) && 0 <= g.l <= g.ir + 1 <= |s| && Permutes(s, t, g.l, g.ir)
    ensures forall k :: 0 <= k < |all| ==> Cut(t, n, all[k].l) && Cut(t, n, all[k].ir + 1)
    ensures Cut(t, n, g.l) && Cut(t, n, g.ir + 1)
    ensures forall c: nat :: 2 <= c <= n ==> Cut(t, n, c) || Inside(g, c) || exists k :: 0 <= k < |all| && Inside(all[k], c)
  {
    var segs := all + [g];
    assert segs[|all|] == g;
    CutKept(s, t, n, g.l, g.ir, g.l);
    CutKept(s, t, n, g.l, g.ir, g.ir + 1);
    forall k | 0 <= k < |all| ensures Cut(t, n, all[k].l) && Cut(t, n, all[k].ir + 1) {
      assert segs[k] == all[k] && Apart(segs[k], segs[|all|]);
      CutKept(s, t, n, g.l, g.ir, all[k].l);
      CutKept(s, t, n, g.l, g.ir, all[k].ir + 1);
    }
    forall c: nat | 2 <= c <= n && !Inside(g, c) ensures Cut(t, n, c) || exists k :: 0 <= k < |all| && Inside(all[k], c) {
      if Cut(s, n, c) {
        CutKept(s, t, n, g.l, g.ir, c);
      } else {
        var k :| 0 <= k < |segs| && Inside(segs[k], c);
        assert all[k] == segs[k];
      }
    }
  }

  lemma InsertionStep(s: seq<Id>, t: seq<Id>, n: nat, all: seq<Seg>, g: Seg)
    requires n < |s| && Pending(s, n, all + [g]) && 0 <= g.l <= g.ir + 1 <= |s| && Permutes(s, t, g.l, g.ir)
    requires forall p, q :: g.l <= p < q <= g.ir ==> t[p] >= t[q]
    ensures Pending(t, n, all)
  {
    var segs := all + [g];
    assert segs[|all|] == g;
    assert forall k :: 0 <= k < |all| ==> segs[k] == all[k];
    CutsKept(s, t, n, all, g);
    forall c: nat | Inside(g, c) ensures Cut(t, n, c) {
      InnerCut(t, n, g.l, g.ir, c);
    }
  }

  lemma PartitionStep(s: seq<Id>, t: seq<Id>, n: nat, all: seq<Seg>, g: Seg, i: nat, j: nat, x: Seg, y: Seg)
    requires n < |s| && Pending(s, n, all + [g]) && 0 <= g.l <= g.ir + 1 <= |s| && Permutes(s, t, g.l, g.ir) && g.ir < |t| && Partitioned(t, g.l, g.ir, i, j)
    requires (x == Seg(i, g.ir) && y == Seg(g.l, j - 1)) || (y == Seg(i, g.ir) && x == Seg(g.l, j - 1))
    ensures Pending(t, n, all + [x, y])
  {
    var segs, segs' := all + [g], all + [x, y];
    assert segs[|all|] == g && segs'[|all|] == x && segs'[|all| + 1] == y;
    assert forall k :: 0 <= k < |all| ==> segs[k] == all[k] == segs'[k];
    CutsKept(s, t, n, all, g);
    PartitionCuts(t, n, g.l, g.ir, i, j);
    forall k, m | 0 <= k < m < |segs'| ensures Apart(segs'[k], segs'[m]) {
      if m >= |all| && k < |all| { assert Apart(segs[k], segs[|all|]); } else if m < |all| { assert Apart(segs[k], segs[m]); }
    }
    forall c: nat | 2 <= c <= n && !Cut(t, n, c) ensures exists k :: 0 <= k < |segs'| && Inside(segs'[k], c) {
      if Inside(g, c) {
        assert Inside(x, c) || Inside(y, c);
        assert Inside(segs'[|all|], c) || Inside(segs'[|all| + 1], c);
      } else {
        var k :| 0 <= k < |all| && Inside(all[k], c);
        assert Inside(segs'[k], c);
      }
    }
  }

  lemma SizesStep(n: nat, all: seq<Seg>, g: Seg, x: Seg, y: Seg)
    requires Sizes(n, all + [g]) && Size(x) <= Size(g) && 2 * Size(y) <= Size(g)
    ensures Sizes(n, all + [x, y])
  {
    var segs, segs', m := all + [g], all + [x, y], |all|;
    assert segs[m] == g && segs'[m] == x && segs'[m + 1] == y;
    assert forall k :: 0 <= k < m ==> segs[k] == segs'[k];
    MulMono(Size(x), Size(g), Pow2(m));
    MulMono(2 * Size(y), Size(g), Pow2(m));
    assert Size(y) * Pow2(m + 1) == 2 * Size(y) * Pow2(m);
  }

  lemma MulMono(a: int, b: int, c: nat)
    requires a <= b
    ensures a * c <= b * c
  {
  }

  /** The smaller part is sorted first, so int-sized lists never need more than 28 levels. */
  lemma StackBound(n: nat, all: seq<Seg>, g: Seg)
    requires n <= INT_MAX && Sizes(n, all + [g]) && Size(g) > SMALL
    ensures |all| <= 27
  {
    var m := |all|;
    assert (all + [g])[m] == g;
    MulMono(SMALL + 1, Size(g), Pow2(m));
    Pow28();
    if m > 27 { Pow2Grows(28, m); }
  }

  lemma Pow28()
    ensures Pow2(28) == 0x1000_0000
  {
    Pow2Add(7, 7);
    Pow2Add(14, 14);
  }

  lemma WorkStep(all: seq<Seg>, g: Seg, x: Seg, y: Seg)
    requires forall k :: 0 <= k < |all| ==> Size(all[k]) >= 0
    requires Size(g) >= 0 && Size(x) >= 0 && Size(y) >= 0 && Size(x) + Size(y) < Size(g)
    ensures Work(all + [x, y]) < Work(all + [g])
  {
    assert forall k :: 0 <= k < |all + [x]| ==> Size((all + [x])[k]) >= 0;
    WorkSnoc(all, g);
    WorkSnoc(all, x);
    WorkSnoc(all + [x], y);
    assert all + [x, y] == (all + [x]) + [y];
  }

  lemma WorkSnoc(all: seq<Seg>, g: Seg)
    requires Size(g) >= 0 && forall k :: 0 <= k < |all| ==> Size(all[k]) >= 0
    ensures (forall k :: 0 <= k < |all + [g]| ==> Size((all + [g])[k]) >= 0)
    ensures Work(all + [g]) == Work(all) + 2 * Size(g) + 1
  {
    assert (all + [g])[..|all|] == all;
  }

  // ---------------------------------------------------------------- mdb_midl_sort

  ghost predicate OnStack(st: seq<int>, jstack: nat, segs: seq<Seg>) {
    && jstack == 2 * |segs| && jstack < |st|
    && forall k :: 0 <= k < |segs| ==> st[2 * k + 1] == segs[k].l && st[2 * k + 2] == segs[k].ir
  }

  lemma Pushed(st: seq<int>, jstack: nat, segs: seq<Seg>, x: Seg)
    requires OnStack(st, jstack, segs) && jstack + 2 < |st|
    ensures OnStack(st[jstack + 2 := x.ir][jstack + 1 := x.l], jstack + 2, segs + [x])
  {
  }

  lemma Popped(s0: seq<Id>, t: seq<Id>, n: nat, segs: seq<Seg>, g: Seg)
    requires |segs| > 0 && n <= INT_MAX && n < |t| == |s0| && Permutes(s0, t, 1, n)
    requires Pending(t, n, segs) && Sizes(n, segs + [g]) && Size(g) >= 0
    requires forall k :: 0 <= k < |segs| ==> Size(segs[k]) >= 0
    ensures var m := |segs| - 1;
      Looping(s0, t, n, segs[..m], segs[m]) && Work(segs[..m] + [segs[m]]) < Work(segs + [g])
  {
    var m := |segs| - 1;
    PopOk(n, segs, g);
    CurrentOk(t, n, segs[..m], segs[m]);
  }

  /** Everything known at the head of the main loop. */
  ghost predicate Looping(s0: seq<Id>, s: seq<Id>, n: nat, segs: seq<Seg>, g: Seg) {
    && n < |s| == |s0| && n <= INT_MAX && Permutes(s0, s, 1, n)
    && Pending(s, n, segs + [g]) && Sizes(n, segs + [g]) && 1 <= g.l <= g.ir + 1 <= n + 1
    && (forall k :: 0 <= k < |segs| ==> Size(segs[k]) >= 0)
  }

  /** A long segment: partition it, put the larger part on the stack, go on with the smaller one. */
  method SplitLong(ids: array<Id>, istack: array<int>, l0: int, ir0: int, j0: nat, ghost n: nat, ghost s0: seq<Id>, ghost segs: seq<Seg>)
    returns (l: int, ir: int, jstack: nat, ghost x: Seg)
    requires Looping(s0, ids[..], n, segs, Seg(l0, ir0)) && ir0 - l0 >= SMALL
    requires istack.Length == STACK_SLOTS && OnStack(istack[..], j0, segs)
    modifies ids, istack
    ensures Looping(s0, ids[..], n, segs + [x], Seg(l, ir)) && OnStack(istack[..], jstack, segs + [x])
    ensures Work(segs + [x] + [Seg(l, ir)]) < Work(segs + [Seg(l0, ir0)])
  {
    ghost var g, s, st := Seg(l0, ir0), ids[..], istack[..];
    CurrentOk(s, n, segs, g);
    StackBound(n, segs, g);
    var i, j := Partition(ids, l0, ir0);
    if ir0 - i + 1 >= j - l0 {
      l, ir, x := l0, j - 1, Seg(i, ir0);
      istack[j0 + 2] := ir0;
      istack[j0 + 1] := i;
    } else {
      l, ir, x := i, ir0, Seg(l0, j - 1);
      istack[j0 + 2] := j - 1;
      istack[j0 + 1] := l0;
    }
    jstack := j0 + 2;
    assert istack[..] == st[j0 + 2 := x.ir][j0 + 1 := x.l];
    Pushed(st, j0, segs, x);
    PartitionDone(s0, s, ids[..], n, segs, g, i, j, x, Seg(l, ir));
  }

  /** A short segment is sorted in place. */
  method SortShort(ids: array<Id>, l: int, ir: int, ghost n: nat, ghost s0: seq<Id>, ghost segs: seq<Seg>)
    requires Looping(s0, ids[..], n, segs, Seg(l, ir))
    modifies ids
    ensures n < ids.Length && Permutes(s0, ids[..], 1, n) && Pending(ids[..], n, segs)
  {
    ghost var s := ids[..];
    CurrentOk(s, n, segs, Seg(l, ir));
    InsertionSort(ids, l, ir);
    InsertionDone(s0, s, ids[..], n, segs, Seg(l, ir));
  }

  /** The next segment comes off the stack. */
  method Pop(istack: array<int>, j0: nat, ghost segs: seq<Seg>) returns (l: int, ir: int, jstack: nat)
    requires |segs| > 0 && OnStack(istack[..], j0, segs)
    ensures Seg(l, ir) == segs[|segs| - 1] && OnStack(istack[..], jstack, segs[..|segs| - 1])
  {
    ghost var m := |segs| - 1;
    assert istack[..][2 * m + 1] == segs[m].l && istack[..][2 * m + 2] == segs[m].ir;
    ir := istack[j0];
    l := istack[j0 - 1];
    jstack := j0 - 2;
  }

  /** One round of the main loop; done when the stack is empty. */
  method Round(ids: array<Id>, istack: array<int>, l0: int, ir0: int, j0: nat, ghost n: nat, ghost s0: seq<Id>, ghost segs: seq<Seg>)
    returns (done: bool, l: int, ir: int, jstack: nat, ghost segs': seq<Seg>)
    requires Looping(s0, ids[..], n, segs, Seg(l0, ir0))
    requires istack.Length == STACK_SLOTS && OnStack(istack[..], j0, segs)
    modifies ids, istack
    ensures done ==> n < ids.Length && Permutes(s0, ids[..], 1, n) && Pending(ids[..], n, [])
    ensures !done ==> Looping(s0, ids[..], n, segs', Seg(l, ir)) && OnStack(istack[..], jstack, segs')
    ensures !done ==> Work(segs' + [Seg(l, ir)]) < Work(segs + [Seg(l0, ir0)])
  {
    done, l, ir, jstack, segs' := false, l0, ir0, j0, segs;
    if ir - l < SMALL {
      SortShort(ids, l, ir, n, s0, segs);
      if jstack == 0 {
        done := true;
      } else {
        Popped(s0, ids[..], n, segs, Seg(l, ir));
        l, ir, jstack := Pop(istack, jstack, segs);
        segs' := segs[..|segs| - 1];
      }
    } else {
      ghost var x;
      l, ir, jstack, x := SplitLong(ids, istack, l, ir, jstack, n, s0, segs);
      segs' := segs + [x];
    }
  }

  method SortLoop(ids: array<Id>, n: nat)
    requires 1 <= ids.Length && n < ids.Length && n <= INT_MAX
    modifies ids
    ensures Permutes(old(ids[..]), ids[..], 1, n) && Pending(ids[..], n, [])
  {
    var istack := new int[STACK_SLOTS](i => 0);
    var l, ir := 1, n as int;
    var jstack: nat := 0;
    var done := false;
    ghost var s0 := ids[..];
    ghost var segs: seq<Seg> := [];
    StartOk(s0, n);
    while !done
      invariant !done ==> Looping(s0, ids[..], n, segs, Seg(l, ir)) && OnStack(istack[..], jstack, segs)
      invariant done ==> Permutes(s0, ids[..], 1, n) && Pending(ids[..], n, [])
      decreases !done, if done then 0 else Work(segs + [Seg(l, ir)])
    {
      done, l, ir, jstack, segs := Round(ids, istack, l, ir, jstack, n, s0, segs);
    }
  }

  /** mdb_midl_sort terminates with the ids in descending order, for any list of int size, within its
      64 stack slots, and touches nothing but slots 1..count. */
  method Sort(ids: array<Id>)
    requires 1 <= ids.Length && ids[0] < ids.Length && ids[0] <= INT_MAX
    modifies ids
    ensures ids[0] == old(ids[0]) && Sorted(ids[1..ids[0] + 1])
    ensures multiset(ids[1..ids[0] + 1]) == multiset(old(ids[1..ids[0] + 1]))
    ensures ids[ids[0] + 1..] == old(ids[ids[0] + 1..])
  {
    var n := ids[0];
    ghost var s0 := ids[..];
    SortLoop(ids, n);
    AllCut(ids[..], n);
    SortedPart(s0, ids[..], n);
    assert ids[..][1..n + 1] == ids[1..n + 1] && s0[1..n + 1] == old(ids[1..n + 1]);
  }

  lemma InsertionDone(s0: seq<Id>, s: seq<Id>, t: seq<Id>, n: nat, segs: seq<Seg>, g: Seg)
    requires n < |s| == |s0| && Pending(s, n, segs + [g]) && 1 <= g.l <= g.ir + 1 <= n + 1
    requires Permutes(s0, s, 1, n) && Permutes(s, t, g.l, g.ir)
    requires forall p, q :: g.l <= p < q <= g.ir ==> t[p] >= t[q]
    ensures Permutes(s0, t, 1, n) && Pending(t, n, segs)
  {
    PermutesWider(s0, s, t, n, g.l, g.ir);
    InsertionStep(s, t, n, segs, g);
  }

  lemma PartitionDone(s0: seq<Id>, s: seq<Id>, t: seq<Id>, n: nat, segs: seq<Seg>, g: Seg, i: nat, j: nat, x: Seg, y: Seg)
    requires n < |s| == |s0| && Pending(s, n, segs + [g]) && Sizes(n, segs + [g]) && 1 <= g.l <= g.ir + 1 <= n + 1
    requires Permutes(s0, s, 1, n) && Permutes(s, t, g.l, g.ir) && Partitioned(t, g.l, g.ir, i, j)
    requires (x == Seg(i, g.ir) && y == Seg(g.l, j - 1)) || (y == Seg(i, g.ir) && x == Seg(g.l, j - 1))
    requires Size(x) >= Size(y) && forall k :: 0 <= k < |segs| ==> Size(segs[k]) >= 0
    ensures forall k :: 0 <= k < |segs + [x] + [y]| ==> Size((segs + [x] + [y])[k]) >= 0
    ensures Work(segs + [x] + [y]) < Work(segs + [g])
    ensures n <= INT_MAX ==> Looping(s0, t, n, segs + [x], y)
  {
    PermutesWider(s0, s, t, n, g.l, g.ir);
    PartitionStep(s, t, n, segs, g, i, j, x, y);
    SizesStep(n, segs, g, x, y);
    WorkStep(segs, g, x, y);
    assert segs + [x] + [y] == segs + [x, y];
    CurrentOk(t, n, segs + [x], y);
  }

  lemma StartOk(s: seq<Id>, n: nat)
    requires n < |s|
    ensures Pending(s, n, [] + [Seg(1, n)]) && Sizes(n, [] + [Seg(1, n)])
  {
    var all := [] + [Seg(1, n)];
    assert all == [Seg(1, n)];
    assert forall c: nat :: 2 <= c <= n ==> Inside(all[0], c);
  }

  lemma CurrentOk(s: seq<Id>, n: nat, segs: seq<Seg>, g: Seg)
    requires n < |s| && Pending(s, n, segs + [g])
    ensures 1 <= g.l <= g.ir + 1 <= n + 1 && Cut(s, n, g.l) && Cut(s, n, g.ir + 1)
    ensures g.l > 1 ==> forall p :: g.l <= p <= g.ir ==> s[g.l - 1] >= s[p]
    ensures forall k :: 0 <= k < |segs| ==> Size(segs[k]) >= 0
  {
    var all := segs + [g];
    assert all[|segs|] == g;
    assert forall k :: 0 <= k < |segs| ==> segs[k] == all[k];
  }

  lemma PopOk(n: nat, segs: seq<Seg>, g: Seg)
    requires |segs| > 0 && Sizes(n, segs + [g]) && Size(g) >= 0
    requires forall k :: 0 <= k < |segs| ==> Size(segs[k]) >= 0
    ensures var m := |segs| - 1; segs[..m] + [segs[m]] == segs && Sizes(n, segs) && Work(segs) < Work(segs + [g])
  {
    WorkSnoc(segs, g);
    SizesPrefix(n, segs, g);
    LastApart(segs);
  }

  lemma LastApart(segs: seq<Seg>)
    requires |segs| > 0
    ensures segs[..|segs| - 1] + [segs[|segs| - 1]] == segs
  {
  }

  lemma SizesPrefix(n: nat, segs: seq<Seg>, g: Seg)
    requires Sizes(n, segs + [g])
    ensures Sizes(n, segs)
  {
    var all := segs + [g];
    assert forall k :: 0 <= k < |segs| ==> segs[k] == all[k];
  }

  lemma PermutesWider(s0: seq<Id>, s: seq<Id>, t: seq<Id>, n: nat, l: nat, ir: nat)
    requires 1 <= l <= ir + 1 <= n + 1 <= |s| == |s0| && Permutes(s0, s, 1, n) && Permutes(s, t, l, ir)
    ensures Permutes(s0, t, 1, n)
  {
    assert t[..1] == t[..l][..1] && s[..1] == s[..l][..1];
    var d := n - ir;
    assert t[n + 1..] == t[ir + 1..][d..] && s[n + 1..] == s[ir + 1..][d..];
  }

  lemma SortedPart(s0: seq<Id>, t: seq<Id>, n: nat)
    requires 1 <= n + 1 <= |s0| && Permutes(s0, t, 1, n)
    ensures t[0] == s0[0] && multiset(t[1..n + 1]) == multiset(s0[1..n + 1]) && t[n + 1..] == s0[n + 1..]
  {
    SameSegment(s0, t, 1, n);
    assert t[0] == t[..1][0] == s0[..1][0];
  }
}
