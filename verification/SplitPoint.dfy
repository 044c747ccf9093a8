/** Where mdb_page_split cuts an over-full page, and when both halves fit. */
module SplitPoint {
  /** A page's footprint is the sum of its nodes' footprints (node rounded to even, plus its pointer). */
  function Sum(sizes: seq<nat>): nat {
    if |sizes| == 0 then 0 else Sum(sizes[..|sizes| - 1]) + sizes[|sizes| - 1]
  }

  lemma {:induction false} SumCat(a: seq<nat>, b: seq<nat>)
    ensures Sum(a + b) == Sum(a) + Sum(b)
    decreases |b|
  {
    if |b| == 0 {
      assert a + b == a;
    } else {
      var c := b[..|b| - 1];
      SumCat(a, c);
      assert (a + b)[..|a + b| - 1] == a + c;
    }
  }

  lemma SumOne(x: nat)
    ensures Sum([x]) == x
  {
    assert [x][..0] == [];
  }

  lemma SumSplit(s: seq<nat>, i: nat)
    requires i <= |s|
    ensures Sum(s) == Sum(s[..i]) + Sum(s[i..])
  {
    SumCat(s[..i], s[i..]);
    assert s[..i] + s[i..] == s;
  }

  lemma SumHead(s: seq<nat>, i: nat)
    requires i < |s|
    ensures Sum(s[i..]) == s[i] + Sum(s[i + 1..])
    ensures Sum(s[..i + 1]) == Sum(s[..i]) + s[i]
  {
    SumCat([s[i]], s[i + 1..]);
    assert Sum([s[i]]) == Sum([]) + s[i] by { assert [s[i]][..0] == []; }
    assert [s[i]] + s[i + 1..] == s[i..];
    assert s[..i + 1][..i] == s[..i];
  }

  /** The page with the new node in place is sizes; newindx is the new node's place.  The test at
      mdb.c:7689 decides whether the split point is searched by size. */
  predicate Checked(pmax: nat, sizes: seq<nat>, newindx: nat)
    requires newindx < |sizes|
  {
    var nkeys := |sizes| - 1;
    nkeys < 20 || sizes[newindx] > pmax / 16 || newindx >= nkeys
  }

  function Middle(sizes: seq<nat>): nat { |sizes| / 2 }

  function Forward(pmax: nat, sizes: seq<nat>, i: nat, k: nat): (s: nat)
    requires i < k <= |sizes|
    ensures i <= s < k
    decreases k - i
  {
    if Sum(sizes[..i + 1]) > pmax || i == k - 1 then i else Forward(pmax, sizes, i + 1, k)
  }

  function Backward(pmax: nat, sizes: seq<nat>, i: nat, k: nat): (s: nat)
    requires k < i < |sizes|
    ensures k + 2 <= s <= i + 1
    decreases i
  {
    if Sum(sizes[i..]) > pmax || i == k + 1 then i + 1 else Backward(pmax, sizes, i - 1, k)
  }

  /** The split point: the middle, or the first point where the running size exceeds a page. */
  function SplitIndex(pmax: nat, sizes: seq<nat>, newindx: nat): (s: nat)
    requires newindx < |sizes| && 3 <= |sizes|
  {
    var nkeys, mid := |sizes| - 1, Middle(sizes);
    if !Checked(pmax, sizes, newindx) then mid
    else if newindx >= nkeys then Forward(pmax, sizes, 0, nkeys)
    else if newindx <= mid then Forward(pmax, sizes, 0, mid + 2)
    else Backward(pmax, sizes, nkeys, mid - 1)
  }

  lemma SplitIndexRange(pmax: nat, sizes: seq<nat>, newindx: nat)
    requires newindx < |sizes| && 3 <= |sizes| && sizes[0] <= pmax && sizes[|sizes| - 1] <= pmax
    ensures 1 <= SplitIndex(pmax, sizes, newindx) < |sizes|
  {
    SumHead(sizes, 0);
    SumHead(sizes, |sizes| - 1);
    assert sizes[..0] == [] && sizes[|sizes|..] == [];
  }

  /** The loop at mdb.c:7700-7718, upwards with j == 1 and downwards with j == -1. */
  method AddUp(pmax: nat, sizes: seq<nat>, i0: int, j: int, k: int) returns (splitIndx: nat)
    requires (j == 1 && 0 == i0 < k <= |sizes|) || (j == -1 && 0 <= k < i0 == |sizes| - 1)
    ensures splitIndx == if j == 1 then Forward(pmax, sizes, i0, k) else Backward(pmax, sizes, i0, k)
  {
    ghost var found := if j == 1 then Forward(pmax, sizes, i0, k) else Backward(pmax, sizes, i0, k);
    var i, psize := i0, 0;
    assert sizes[..0] == [] && sizes[|sizes|..] == [];
    while true
      invariant j == 1 ==> 0 <= i < k && psize == Sum(sizes[..i]) && found == Forward(pmax, sizes, i, k)
      invariant j == -1 ==> k < i < |sizes| && psize == Sum(sizes[i + 1..]) && found == Backward(pmax, sizes, i, k)
      decreases if j == 1 then k - i else i - k
    {
      SumHead(sizes, i);
      psize := psize + sizes[i];
      if psize > pmax || i == k - j {
        return i + (if j < 0 then 1 else 0);
      }
      i := i + j;
    }
  }

  /** mdb.c:7689-7719 computes SplitIndex. */
  method FindSplit(pmax: nat, sizes: seq<nat>, newindx: nat) returns (splitIndx: nat)
    requires newindx < |sizes| && 3 <= |sizes|
    ensures splitIndx == SplitIndex(pmax, sizes, newindx)
  {
    var nkeys := |sizes| - 1;
    splitIndx := (nkeys + 1) / 2;
    if nkeys < 20 || sizes[newindx] > pmax / 16 || newindx >= nkeys {
      var i, j, k: int;
      if newindx <= splitIndx || newindx >= nkeys {
        i, j := 0, 1;
        k := if newindx >= nkeys then nkeys else splitIndx + 2;
      } else {
        i, j := nkeys, -1;
        k := splitIndx - 1;
      }
      splitIndx := AddUp(pmax, sizes, i, j, k);
    }
  }

  // ---------------------------------------------------------------- where the cut is

  /** The point is searched by size: fewer than 20 old nodes, a large new one, or one at the end. */
  ghost predicate BySize(pmax: nat, sizes: seq<nat>, newindx: nat) {
    newindx < |sizes| && (|sizes| <= 20 || sizes[newindx] > pmax / 16 || newindx == |sizes| - 1)
  }

  /**
   * Cut before node s.  Not searched: halves that differ by at most one node, the right one not shorter.  Searched: the
   * half on the side of the new node, or the left one for a node at the end, takes as many nodes as fit on a page, but
   * only so far beyond the middle, and never the last node.
   */
  ghost predicate CutsAt(pmax: nat, sizes: seq<nat>, newindx: nat, s: nat) {
    var n := |sizes|;
    var far := if newindx == n - 1 then n - 2 else n / 2 + 1;
    if !BySize(pmax, sizes, newindx) then n == 2 * s || n == 2 * s + 1
    else if newindx <= n / 2 || newindx == n - 1 then FillsLeft(pmax, sizes, far, s)
    else FillsRight(pmax, sizes, n / 2 + 1, s)
  }

  /** Nodes below s fit on a page, and no more do, unless s is far. */
  ghost predicate FillsLeft(pmax: nat, sizes: seq<nat>, far: int, s: nat) {
    s <= far && s < |sizes| && Sum(sizes[..s]) <= pmax && (s == far || Sum(sizes[..s + 1]) > pmax)
  }

  /** Nodes from s on fit on a page, and no more do, unless s is far. */
  ghost predicate FillsRight(pmax: nat, sizes: seq<nat>, far: nat, s: nat) {
    1 <= far <= s <= |sizes| && Sum(sizes[s..]) <= pmax && (s == far || Sum(sizes[s - 1..]) > pmax)
  }

  lemma {:induction false} ForwardCut(pmax: nat, sizes: seq<nat>, i: nat, k: nat)
    requires i < k <= |sizes| && Sum(sizes[..i]) <= pmax
    ensures FillsLeft(pmax, sizes, k - 1, Forward(pmax, sizes, i, k))
    decreases k - i
  {
    if !(Sum(sizes[..i + 1]) > pmax || i == k - 1) { ForwardCut(pmax, sizes, i + 1, k); }
  }

  lemma {:induction false} BackwardCut(pmax: nat, sizes: seq<nat>, i: nat, k: nat)
    requires k < i < |sizes| && Sum(sizes[i + 1..]) <= pmax
    ensures FillsRight(pmax, sizes, k + 2, Backward(pmax, sizes, i, k))
    decreases i
  {
    if !(Sum(sizes[i..]) > pmax || i == k + 1) { BackwardCut(pmax, sizes, i - 1, k); }
  }

  /** A longer part of the page is not smaller. */
  lemma SumsGrow(sizes: seq<nat>, i: nat, j: nat)
    requires i <= j <= |sizes|
    ensures Sum(sizes[..i]) <= Sum(sizes[..j]) && Sum(sizes[j..]) <= Sum(sizes[i..])
  {
    SumSplit(sizes[..j], i);
    SumSplit(sizes[i..], j - i);
    assert sizes[..j][..i] == sizes[..i] && sizes[i..][j - i..] == sizes[j..];
  }

  lemma OneCut(pmax: nat, sizes: seq<nat>, newindx: nat, s: nat, r: nat)
    requires CutsAt(pmax, sizes, newindx, s) && CutsAt(pmax, sizes, newindx, r)
    ensures r <= s
  {
    if BySize(pmax, sizes, newindx) && s < r {
      SumsGrow(sizes, s + 1, r);
      SumsGrow(sizes, s, r - 1);
    }
  }

  lemma IndexCuts(pmax: nat, sizes: seq<nat>, newindx: nat)
    requires newindx < |sizes| && 3 <= |sizes|
    ensures CutsAt(pmax, sizes, newindx, SplitIndex(pmax, sizes, newindx))
  {
    var n := |sizes|;
    assert sizes[..0] == [] && sizes[n..] == [];
    if newindx >= n - 1 {
      ForwardCut(pmax, sizes, 0, n - 1);
    } else if newindx <= n / 2 {
      ForwardCut(pmax, sizes, 0, n / 2 + 2);
    } else {
      BackwardCut(pmax, sizes, n - 1, n / 2 - 1);
    }
  }

  /** mdb_page_split cuts at the one point that meets this. */
  lemma SplitMeaning(pmax: nat, sizes: seq<nat>, newindx: nat, s: nat)
    requires newindx < |sizes| && 3 <= |sizes|
    ensures CutsAt(pmax, sizes, newindx, s) <==> s == SplitIndex(pmax, sizes, newindx)
  {
    var r := SplitIndex(pmax, sizes, newindx);
    IndexCuts(pmax, sizes, newindx);
    if CutsAt(pmax, sizes, newindx, s) {
      OneCut(pmax, sizes, newindx, s, r);
      OneCut(pmax, sizes, newindx, r, s);
    }
  }

  // ---------------------------------------------------------------- both halves fit

  /** An old page of at most pmax bytes, and a node that needs more than the room left on it. */
  ghost predicate OverFull(pmax: nat, sizes: seq<nat>, newindx: nat) {
    && newindx < |sizes|
    && (forall i :: 0 <= i < |sizes| ==> 0 < sizes[i] <= pmax / 2)
    && Sum(sizes) - sizes[newindx] <= pmax < Sum(sizes)
  }

  lemma TwoNodesFit(pmax: nat, sizes: seq<nat>)
    requires |sizes| <= 2 && forall i :: 0 <= i < |sizes| ==> sizes[i] <= pmax / 2
    ensures Sum(sizes) <= pmax
  {
    if |sizes| == 2 { assert sizes[..1][..0] == []; }
  }

  lemma OverFullHasThree(pmax: nat, sizes: seq<nat>, newindx: nat)
    requires OverFull(pmax, sizes, newindx)
    ensures 3 <= |sizes|
  {
    if |sizes| <= 2 { TwoNodesFit(pmax, sizes); }
  }

  lemma OtherSide(sizes: seq<nat>, newindx: nat, s: nat)
    requires newindx < |sizes| && s <= |sizes|
    ensures newindx < s ==> Sum(sizes[s..]) <= Sum(sizes) - sizes[newindx]
    ensures s <= newindx ==> Sum(sizes[..s]) <= Sum(sizes) - sizes[newindx]
  {
    SumSplit(sizes, s);
    SumSplit(sizes, newindx);
    SumHead(sizes, newindx);
    if newindx < s {
      SumSplit(sizes[..s], newindx);
      SumHead(sizes[..s], newindx);
      assert sizes[..s][..newindx] == sizes[..newindx];
    } else {
      SumSplit(sizes[..newindx], s);
      assert sizes[..newindx][..s] == sizes[..s];
    }
  }

  lemma {:induction false} ForwardFits(pmax: nat, sizes: seq<nat>, newindx: nat, i: nat, k: nat)
    requires OverFull(pmax, sizes, newindx) && i < k <= |sizes| && Sum(sizes[..i]) <= pmax
    requires newindx < k - 1 || k == newindx == |sizes| - 1
    ensures var s := Forward(pmax, sizes, i, k); Sum(sizes[..s]) <= pmax && Sum(sizes[s..]) <= pmax
    decreases k - i
  {
    SumHead(sizes, i);
    SumSplit(sizes, i);
    SumSplit(sizes, i + 1);
    if Sum(sizes[..i + 1]) > pmax {
    } else if i == k - 1 {
      if k == newindx {
        SumHead(sizes, newindx);
        assert sizes[newindx + 1..] == [];
      } else {
        OtherSide(sizes, newindx, i);
      }
    } else {
      ForwardFits(pmax, sizes, newindx, i + 1, k);
    }
  }

  lemma {:induction false} BackwardFits(pmax: nat, sizes: seq<nat>, newindx: nat, i: nat, k: nat)
    requires OverFull(pmax, sizes, newindx) && k < i < |sizes| && Sum(sizes[i + 1..]) <= pmax
    requires k + 2 <= newindx
    ensures var s := Backward(pmax, sizes, i, k); Sum(sizes[..s]) <= pmax && Sum(sizes[s..]) <= pmax
    decreases i
  {
    SumHead(sizes, i);
    SumSplit(sizes, i);
    SumSplit(sizes, i + 1);
    if Sum(sizes[i..]) > pmax {
    } else if i == k + 1 {
      OtherSide(sizes, newindx, i + 1);
    } else {
      BackwardFits(pmax, sizes, newindx, i - 1, k);
    }
  }

  /** Whenever the split point is searched by size, both halves fit in a page. */
  lemma CheckedSplitFits(pmax: nat, sizes: seq<nat>, newindx: nat)
    requires OverFull(pmax, sizes, newindx) && |sizes| >= 3 && Checked(pmax, sizes, newindx)
    ensures var s := SplitIndex(pmax, sizes, newindx);
      1 <= s < |sizes| && Sum(sizes[..s]) <= pmax && Sum(sizes[s..]) <= pmax
  {
    var nkeys, mid := |sizes| - 1, Middle(sizes);
    assert sizes[..0] == [] && sizes[nkeys + 1..] == [];
    if newindx >= nkeys {
      ForwardFits(pmax, sizes, newindx, 0, nkeys);
    } else if newindx <= mid {
      ForwardFits(pmax, sizes, newindx, 0, mid + 2);
    } else {
      BackwardFits(pmax, sizes, newindx, nkeys, mid - 1);
    }
  }

  /** Without the search the halves need not fit.  The half without the new node always does; the
      other one does exactly if the free room plus what moves to the first half covers the new node. */
  lemma UncheckedSplitFits(pmax: nat, sizes: seq<nat>, newindx: nat)
    requires OverFull(pmax, sizes, newindx) && |sizes| >= 3 && !Checked(pmax, sizes, newindx)
    ensures var s, nsize := SplitIndex(pmax, sizes, newindx), sizes[newindx];
      var room := pmax - (Sum(sizes) - nsize);
      && (newindx < s ==> Sum(sizes[s..]) <= pmax && (Sum(sizes[..s]) <= pmax <==> nsize <= room + Sum(sizes[s..])))
      && (s <= newindx ==> Sum(sizes[..s]) <= pmax && (Sum(sizes[s..]) <= pmax <==> nsize <= room + Sum(sizes[..s])))
  {
    var s := SplitIndex(pmax, sizes, newindx);
    SumSplit(sizes, s);
    OtherSide(sizes, newindx, s);
  }

  function Rep(x: nat, n: nat): (s: seq<nat>)
    ensures |s| == n && (forall i :: 0 <= i < n ==> s[i] == x) && Sum(s) == n * x
  {
    if n == 0 then [] else var s := Rep(x, n - 1) + [x]; assert s[..n - 1] == Rep(x, n - 1); s
  }

  /** n large nodes, the new node of size y, m large nodes, k small nodes. */
  lemma LopsidedPage(x: nat, n: nat, y: nat, m: nat, z: nat, k: nat) returns (sizes: seq<nat>)
    ensures sizes == Rep(x, n) + [y] + Rep(x, m) + Rep(z, k) && |sizes| == n + 1 + m + k
    ensures Sum(sizes[..n + 1 + m]) == (n + m) * x + y && Sum(sizes) == (n + m) * x + y + k * z
    ensures sizes[n] == y && forall i :: 0 <= i < |sizes| ==> sizes[i] in {x, y, z}
  {
    var big := Rep(x, n) + [y] + Rep(x, m);
    sizes := big + Rep(z, k);
    SumCat(Rep(x, n), [y]);
    SumCat(Rep(x, n) + [y], Rep(x, m));
    SumCat(big, Rep(z, k));
    assert Sum([y]) == y by { assert [y][..0] == []; }
    assert sizes[..n + 1 + m] == big;
  }

  /** The search at mdb.c:7689 can be skipped although the middle does not fit: mdb_node_add then
      reports MDB_PAGE_FULL.  A page of 4096 bytes with 9 nodes of 438 bytes and 11 of 12 bytes has no
      room for a new 200-byte node at index 3, and its 20 keys are cut in the middle. */
  lemma UncheckedSplitCanOverflow() returns (sizes: seq<nat>)
    ensures OverFull(4080, sizes, 3) && |sizes| == 21 && !Checked(4080, sizes, 3)
    ensures Sum(sizes[..SplitIndex(4080, sizes, 3)]) > 4080
  {
    sizes := LopsidedPage(438, 3, 200, 6, 12, 11);
  }
}
