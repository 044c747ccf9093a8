/** Committing a nested transaction: its dirty list joins its parent's, its dirty pages leave the parent's spill list. */
module DirtyMerge {
  import opened Idl
  import opened Id2l

  // ---------------------------------------------------------------- the two dirty lists

  /** Two ascending lists merged from the large end; an entry of src replaces dst's entry for the same page. */
  function Union(dst: seq<ID2>, src: seq<ID2>): (u: seq<ID2>)
    ensures |dst| <= |u| <= |dst| + |src|
    ensures |src| == 0 ==> u == dst
    decreases |dst| + |src|
  {
    if |src| == 0 then dst
    else if |dst| > 0 && src[|src| - 1].mid < dst[|dst| - 1].mid then
      Union(dst[..|dst| - 1], src) + [dst[|dst| - 1]]
    else if |dst| > 0 && src[|src| - 1].mid == dst[|dst| - 1].mid then
      Union(dst[..|dst| - 1], src[..|src| - 1]) + [src[|src| - 1]]
    else Union(dst, src[..|src| - 1]) + [src[|src| - 1]]
  }

  /** Through the union each page number gives the child's page if it has one, else the parent's. */
  lemma {:induction false} UnionGet(dst: seq<ID2>, src: seq<ID2>, id: Id)
    requires Asc(dst) && Asc(src)
    ensures Get(Union(dst, src), id) == if Get(src, id).Some? then Get(src, id) else Get(dst, id)
    decreases |dst| + |src|
  {
    if |src| == 0 {
    } else if |dst| > 0 && src[|src| - 1].mid < dst[|dst| - 1].mid {
      UnionGet(dst[..|dst| - 1], src, id);
      if id == dst[|dst| - 1].mid { LargerIsAbsent(src, id); }
    } else if |dst| > 0 && src[|src| - 1].mid == dst[|dst| - 1].mid {
      UnionGet(dst[..|dst| - 1], src[..|src| - 1], id);
    } else {
      UnionGet(dst, src[..|src| - 1], id);
    }
  }

  lemma LargerIsAbsent(s: seq<ID2>, id: Id)
    requires Asc(s) && |s| > 0 && s[|s| - 1].mid < id
    ensures Get(s, id).None?
  {
    GetMeans(s, id);
  }

  /** The union is strictly ascending. */
  lemma {:induction false} UnionAsc(dst: seq<ID2>, src: seq<ID2>)
    requires Asc(dst) && Asc(src)
    ensures Asc(Union(dst, src))
    decreases |dst| + |src|
  {
    if |src| == 0 {
    } else if |dst| > 0 && src[|src| - 1].mid < dst[|dst| - 1].mid {
      UnionAsc(dst[..|dst| - 1], src);
      UnionBelow(dst[..|dst| - 1], src, dst[|dst| - 1].mid);
      AscPlus(Union(dst[..|dst| - 1], src), dst[|dst| - 1]);
    } else if |dst| > 0 && src[|src| - 1].mid == dst[|dst| - 1].mid {
      UnionAsc(dst[..|dst| - 1], src[..|src| - 1]);
      UnionBelow(dst[..|dst| - 1], src[..|src| - 1], src[|src| - 1].mid);
      AscPlus(Union(dst[..|dst| - 1], src[..|src| - 1]), src[|src| - 1]);
    } else {
      UnionAsc(dst, src[..|src| - 1]);
      UnionBelow(dst, src[..|src| - 1], src[|src| - 1].mid);
      AscPlus(Union(dst, src[..|src| - 1]), src[|src| - 1]);
    }
  }

  lemma AscPlus(s: seq<ID2>, e: ID2)
    requires Asc(s) && Below(s, e.mid)
    ensures Asc(s + [e])
  {
  }

  lemma {:induction false} UnionBelow(dst: seq<ID2>, src: seq<ID2>, id: Id)
    requires Below(dst, id) && Below(src, id)
    ensures Below(Union(dst, src), id)
    decreases |dst| + |src|
  {
    if |src| == 0 {
    } else if |dst| > 0 && src[|src| - 1].mid < dst[|dst| - 1].mid {
      UnionBelow(dst[..|dst| - 1], src, id);
    } else if |dst| > 0 && src[|src| - 1].mid == dst[|dst| - 1].mid {
      UnionBelow(dst[..|dst| - 1], src[..|src| - 1], id);
    } else {
      UnionBelow(dst, src[..|src| - 1], id);
    }
  }

  ghost predicate Below(s: seq<ID2>, id: Id) { forall k :: 0 <= k < |s| ==> s[k].mid < id }

  /** How many entries of an ascending list have numbers up to id. */
  function UpTo(s: seq<ID2>, id: Id): (n: nat)
    ensures n <= |s|
  {
    if |s| == 0 then 0 else if s[|s| - 1].mid <= id then |s| else UpTo(s[..|s| - 1], id)
  }

  /** How many entries of dst lie below all of src: those that the merge never gets to. */
  function Rest(dst: seq<ID2>, src: seq<ID2>): (n: nat)
    ensures n <= |dst|
  {
    if |src| == 0 then |dst|
    else
      var n := UpTo(dst, src[0].mid);
      if n > 0 && dst[n - 1].mid == src[0].mid then n - 1 else n
  }

  /** The union has the entries that the merge never gets to, those of dst that move, and one for src's smallest. */
  lemma {:induction false} RestBound(dst: seq<ID2>, src: seq<ID2>)
    requires Asc(src)
    ensures |src| > 0 ==> |Union(dst, src)| > Rest(dst, src) + |dst| - UpTo(dst, src[0].mid)
    ensures |Union(dst, src)| >= Rest(dst, src)
    decreases |dst| + |src|
  {
    if |src| > 0 {
      var n, m := |dst| - 1, |src| - 1;
      if |dst| > 0 && src[m].mid < dst[n].mid {
        RestBound(dst[..n], src);
      } else if m > 0 {
        if |dst| > 0 && src[m].mid == dst[n].mid {
          RestBound(dst[..n], src[..m]);
        } else {
          RestBound(dst, src[..m]);
        }
      }
    }
  }

  // ---------------------------------------------------------------- the backward merge with any length

  /**
   * The backward merge of mdb.c:2999-3006 in progress: x entries of dst and y of src are still to come, slots above i
   * hold the end of the union, slots up to i what they held before.  s is the array at the start, dst in its slots
   * from 1.  len need not be the length of the union.
   */
  ghost predicate Merging(t: seq<ID2>, s: seq<ID2>, dst: seq<ID2>, src: seq<ID2>, x: nat, y: nat, i: int, len: nat) {
    && x <= |dst| && y <= |src| && -1 <= i <= len < |t| == |s| && Holds(s, dst)
    && t[..i + 1] == s[..i + 1] && t[len + 1..] == s[len + 1..]
    && Union(dst[..x], src[..y]) + t[i + 1..len + 1] == Union(dst, src)
  }

  ghost predicate Holds(s: seq<ID2>, dst: seq<ID2>) { |dst| < |s| && s[0].mid == 0 && s[1..|dst| + 1] == dst }

  /** Slot x has not been written yet. */
  predicate Unwritten(x: nat, i: int, len: nat) { x <= i || x > len }

  /** All slots written so far have numbers above id. */
  ghost predicate High(t: seq<ID2>, i: int, len: nat, id: Id) {
    -1 <= i <= len < |t| && forall k :: i < k <= len ==> t[k].mid > id
  }

  /** The slot that the last entry of src goes to when all goes well. */
  function LastSlot(dst: seq<ID2>, src: seq<ID2>, len: nat): int { len + 1 - (|Union(dst, src)| - Rest(dst, src)) }

  /**
   * The merge stays inside the array: the last slot it writes is one, and the last entry of dst it looks at is not in
   * a slot that it has written before.
   */
  predicate Fits(dst: seq<ID2>, src: seq<ID2>, len: nat) {
    |src| == 0 || (0 <= LastSlot(dst, src, len) &&
      Unwritten(UpTo(dst, src[0].mid), LastSlot(dst, src, len), len))
  }

  /** What the list then is: slots the merge does not reach, old entries or not, and the end of the union. */
  ghost predicate MergedTo(slots: seq<ID2>, dst: seq<ID2>, src: seq<ID2>, len: nat, r: seq<ID2>) {
    var u, n := Union(dst, src), Rest(dst, src);
    && n <= |u| && |r| == len <= |slots|
    && if |u| - n <= len then r == slots[..len - (|u| - n)] + u[n..] else |u| - n == len + 1 && r == u[n + 1..]
  }

  lemma SlotIs(t: seq<ID2>, s: seq<ID2>, dst: seq<ID2>, src: seq<ID2>, x: nat, y: nat, i: int, len: nat)
    requires Merging(t, s, dst, src, x, y, i, len) && Unwritten(x, i, len)
    ensures if x == 0 then t[x].mid == 0 else t[x] == dst[x - 1] == dst[..x][x - 1]
  {
    if x <= i {
      assert t[x] == t[..i + 1][x] == s[x];
    } else {
      assert t[x] == t[len + 1..][x - len - 1] == s[x];
    }
    assert x > 0 ==> s[x] == s[1..|dst| + 1][x - 1];
  }

  lemma WriteSlot(t: seq<ID2>, s: seq<ID2>, i: nat, len: nat, e: ID2)
    requires i <= len < |t| == |s| && t[..i + 1] == s[..i + 1] && t[len + 1..] == s[len + 1..]
    ensures var u := t[i := e];
      u[..i] == s[..i] && u[len + 1..] == s[len + 1..] && u[i..len + 1] == [e] + t[i + 1..len + 1]
  {
    assert t[..i + 1][..i] == s[..i + 1][..i];
  }

  lemma MoveDst(t: seq<ID2>, s: seq<ID2>, dst: seq<ID2>, src: seq<ID2>, x: nat, y: nat, i: nat, len: nat)
    requires Merging(t, s, dst, src, x, y, i, len) && Unwritten(x, i, len) && y > 0 && src[y - 1].mid < t[x].mid
    requires High(t, i, len, src[y - 1].mid)
    ensures x > 0 && Merging(t[i := t[x]], s, dst, src, x - 1, y, i - 1, len)
    ensures High(t[i := t[x]], i - 1, len, src[y - 1].mid)
  {
    SlotIs(t, s, dst, src, x, y, i, len);
    WriteSlot(t, s, i, len, t[x]);
    var a, b := dst[..x], src[..y];
    assert a[..x - 1] == dst[..x - 1] && b[y - 1] == src[y - 1];
    assert Union(a, b) == Union(a[..x - 1], b) + [t[x]];
  }

  lemma MoveSrc(t: seq<ID2>, s: seq<ID2>, dst: seq<ID2>, src: seq<ID2>, x: nat, y: nat, i: nat, len: nat, x1: nat)
    requires Merging(t, s, dst, src, x, y, i, len) && Unwritten(x, i, len) && y > 0 && src[y - 1].mid >= t[x].mid
    requires src[y - 1].mid > 0 && x1 == if src[y - 1].mid == t[x].mid then x - 1 else x
    ensures Merging(t[i := src[y - 1]], s, dst, src, x1, y - 1, i - 1, len)
  {
    SlotIs(t, s, dst, src, x, y, i, len);
    WriteSlot(t, s, i, len, src[y - 1]);
    var a, b := dst[..x], src[..y];
    assert a[..x1] == dst[..x1] && b[..y - 1] == src[..y - 1] && b[y - 1] == src[y - 1];
    assert Union(a, b) == Union(dst[..x1], src[..y - 1]) + [src[y - 1]];
  }

  lemma StaysHigh(t: seq<ID2>, src: seq<ID2>, y: nat, i: nat, len: nat)
    requires Asc(src) && 1 < y <= |src| && High(t, i, len, src[y - 1].mid)
    ensures High(t[i := src[y - 1]], i - 1, len, src[y - 2].mid)
  {
  }

  /** Where the merge stops looking, as seen from the entries still to come. */
  ghost predicate SameStop(dst: seq<ID2>, src: seq<ID2>, x: nat) {
    |src| > 0 && x <= |dst| && UpTo(dst[..x], src[0].mid) == UpTo(dst, src[0].mid)
  }

  lemma StopMoves(dst: seq<ID2>, src: seq<ID2>, x: nat)
    requires SameStop(dst, src, x) && x > 0 && dst[x - 1].mid > src[0].mid
    ensures SameStop(dst, src, x - 1)
  {
    assert dst[..x][..x - 1] == dst[..x - 1];
  }

  /** Too little room: the merge is about to look at a slot that it has written, or to write in front of the array. */
  lemma Overrun(t: seq<ID2>, s: seq<ID2>, dst: seq<ID2>, src: seq<ID2>, x: nat, y: nat, i: int, len: nat)
    requires Merging(t, s, dst, src, x, y, i, len) && Asc(src) && y > 0 && SameStop(dst, src, x)
    requires !Unwritten(x, i, len) || i < 0
    ensures !Fits(dst, src, len)
  {
    RestBound(dst[..x], src[..y]);
    assert src[..y][0] == src[0];
  }

  lemma AllFits(t: seq<ID2>, s: seq<ID2>, dst: seq<ID2>, src: seq<ID2>, x: nat, x1: nat, i: nat, len: nat)
    requires |src| > 0 && Merging(t, s, dst, src, x1, 0, i - 1, len) && SameStop(dst, src, x) && Unwritten(x, i, len)
    requires x > 0 ==> dst[x - 1].mid <= src[0].mid
    requires x1 == if x > 0 && dst[x - 1].mid == src[0].mid then x - 1 else x
    ensures Fits(dst, src, len) && Rest(dst, src) == x1
  {
    assert UpTo(dst[..x], src[0].mid) == x;
  }

  lemma MergeStarts(t: seq<ID2>, dst: seq<ID2>, src: seq<ID2>, len: nat)
    requires len < |t| && Holds(t, dst)
    ensures Merging(t, t, dst, src, |dst|, |src|, len, len) && (|src| > 0 ==> SameStop(dst, src, |dst|))
  {
    assert dst[..|dst|] == dst && src[..|src|] == src && t[len + 1..len + 1] == [];
  }

  lemma MergeDone(t: seq<ID2>, s: seq<ID2>, dst: seq<ID2>, src: seq<ID2>, x: nat, i: int, len: nat)
    requires Merging(t, s, dst, src, x, 0, i, len) && x == Rest(dst, src)
    ensures i - x == len - |Union(dst, src)| && MergedTo(s[1..], dst, src, len, t[1..len + 1])
  {
    DoneSlots(t, s, Union(dst, src), dst[..x], i, len);
  }

  lemma DoneSlots(t: seq<ID2>, s: seq<ID2>, u: seq<ID2>, d: seq<ID2>, i: int, len: nat)
    requires -1 <= i <= len < |t| == |s| && t[..i + 1] == s[..i + 1] && d + t[i + 1..len + 1] == u
    ensures |u| - |d| == len - i && |t[1..len + 1]| == len
    ensures if i >= 0 then t[1..len + 1] == s[1..][..i] + u[|d|..] else t[1..len + 1] == u[|d| + 1..]
  {
    var w := t[i + 1..len + 1];
    assert |w| == len - i && |u| == |d| + |w|;
    Suffix(d, w);
    if i >= 0 { SlotsBelow(t, s, i, len); }
  }

  lemma Suffix(a: seq<ID2>, b: seq<ID2>)
    ensures (a + b)[|a|..] == b && (|b| > 0 ==> (a + b)[|a| + 1..] == b[1..])
  {
  }

  lemma SlotsBelow(t: seq<ID2>, s: seq<ID2>, i: nat, len: nat)
    requires i <= len < |t| == |s| && t[..i + 1] == s[..i + 1]
    ensures t[1..len + 1] == s[1..][..i] + t[i + 1..len + 1]
  {
    assert t[1..i + 1] == t[..i + 1][1..] == s[..i + 1][1..] == s[1..][..i];
  }

  /** With the length of the union the list is the union. */
  lemma MergedWell(slots: seq<ID2>, dst: seq<ID2>, src: seq<ID2>, r: seq<ID2>)
    requires Asc(dst) && Asc(src) && |dst| <= |slots| && slots[..|dst|] == dst
    requires MergedTo(slots, dst, src, |Union(dst, src)|, r)
    ensures r == Union(dst, src)
  {
    var u, n := Union(dst, src), Rest(dst, src);
    RestLower(dst, src);
    UnionLow(dst, src, n);
    TakeTake(slots, |dst|, n);
    Parts(u, n);
  }

  lemma Parts(u: seq<ID2>, n: nat)
    requires n <= |u|
    ensures u == u[..n] + u[n..]
  {
  }

  lemma TakeTake(s: seq<ID2>, m: nat, n: nat)
    requires n <= m <= |s|
    ensures s[..m][..n] == s[..n]
  {
  }

  ghost predicate Lower(dst: seq<ID2>, n: nat, src: seq<ID2>) {
    n <= |dst| && (n > 0 ==> forall j :: 0 <= j < |src| ==> dst[n - 1].mid < src[j].mid)
  }

  /** The union starts with the entries of dst that lie below all of src. */
  lemma {:induction false} UnionLow(dst: seq<ID2>, src: seq<ID2>, n: nat)
    requires Lower(dst, n, src)
    ensures n <= |Union(dst, src)| && Union(dst, src)[..n] == dst[..n]
    decreases |dst| + |src|
  {
    if |src| > 0 {
      var d, m := |dst| - 1, |src| - 1;
      if |dst| > 0 && src[m].mid < dst[d].mid {
        UnionLow(dst[..d], src, n);
        TakeMore(Union(dst[..d], src), dst[d], dst[..d], dst, n);
      } else if |dst| > 0 && src[m].mid == dst[d].mid {
        UnionLow(dst[..d], src[..m], n);
        TakeMore(Union(dst[..d], src[..m]), src[m], dst[..d], dst, n);
      } else {
        UnionLow(dst, src[..m], n);
        TakeMore(Union(dst, src[..m]), src[m], dst, dst, n);
      }
    }
  }

  lemma TakeMore(u: seq<ID2>, e: ID2, a: seq<ID2>, b: seq<ID2>, n: nat)
    requires n <= |u| && n <= |a| && a <= b && u[..n] == a[..n]
    ensures (u + [e])[..n] == b[..n]
  {
  }

  lemma {:induction false} UpToLower(s: seq<ID2>, id: Id)
    requires Asc(s)
    ensures UpTo(s, id) > 0 ==> s[UpTo(s, id) - 1].mid <= id
  {
    if |s| > 0 && s[|s| - 1].mid > id { UpToLower(s[..|s| - 1], id); }
  }

  lemma RestLower(dst: seq<ID2>, src: seq<ID2>)
    requires Asc(dst) && Asc(src)
    ensures Lower(dst, Rest(dst, src), src)
  {
    if |src| > 0 { UpToLower(dst, src[0].mid); }
  }

  /** The merge is in progress, or it reads what it has written and will not stay inside the array. */
  ghost predicate MergeOk(t: seq<ID2>, s: seq<ID2>, dst: seq<ID2>, src: seq<ID2>, x: nat, y: nat, i: int, len: nat) {
    if Unwritten(x, i, len) then Merging(t, s, dst, src, x, y, i, len) && (y > 0 ==> SameStop(dst, src, x))
    else i < x <= len < |t| && !Fits(dst, src, len)
  }

  method Put(dl: array<ID2>, i: nat, e: ID2)
    requires i < dl.Length
    modifies dl
    ensures dl[..] == old(dl[..])[i := e]
  {
    dl[i] := e;
  }

  /** One round of the loop at mdb.c:3002-3003; false where it would write in front of the array. */
  method MoveOne(dl: array<ID2>, yp: Id, x0: nat, i0: int, ghost s: seq<ID2>, ghost dst: seq<ID2>, ghost src: seq<ID2>,
                 ghost y: nat, ghost len: nat) returns (inside: bool, x: nat, i: int)
    requires Asc(src) && 0 < y <= |src| && yp == src[y - 1].mid && x0 < dl.Length && yp < dl[x0].mid
    requires High(dl[..], i0, len, yp) && MergeOk(dl[..], s, dst, src, x0, y, i0, len)
    modifies dl
    ensures inside ==> High(dl[..], i, len, yp) && MergeOk(dl[..], s, dst, src, x, y, i, len) && x < x0
    ensures !inside ==> !Fits(dst, src, len)
  {
    ghost var t := dl[..];
    MovesOk(t, s, dst, src, x0, y, i0, len);
    if i0 < 0 {
      return false, x0, i0;
    }
    Put(dl, i0, dl[x0]);
    inside, x, i := true, x0 - 1, i0 - 1;
  }

  lemma MovesOk(t: seq<ID2>, s: seq<ID2>, dst: seq<ID2>, src: seq<ID2>, x: nat, y: nat, i: int, len: nat)
    requires Asc(src) && 0 < y <= |src| && x < |t| && src[y - 1].mid < t[x].mid
    requires High(t, i, len, src[y - 1].mid) && MergeOk(t, s, dst, src, x, y, i, len)
    ensures i < 0 ==> !Fits(dst, src, len)
    ensures i >= 0 ==> x > 0 && var u := t[i := t[x]];
      High(u, i - 1, len, src[y - 1].mid) && MergeOk(u, s, dst, src, x - 1, y, i - 1, len)
  {
    if Unwritten(x, i, len) {
      if i < 0 {
        Overrun(t, s, dst, src, x, y, i, len);
      } else {
        MovesOn(t, s, dst, src, x, y, i, len);
        ToOk(t[i := t[x]], s, dst, src, x - 1, y, i - 1, len);
      }
    }
  }

  lemma MovesOn(t: seq<ID2>, s: seq<ID2>, dst: seq<ID2>, src: seq<ID2>, x: nat, y: nat, i: nat, len: nat)
    requires Asc(src) && y > 0 && Merging(t, s, dst, src, x, y, i, len) && src[y - 1].mid < t[x].mid
    requires Unwritten(x, i, len) && High(t, i, len, src[y - 1].mid) && SameStop(dst, src, x)
    ensures x > 0 && Merging(t[i := t[x]], s, dst, src, x - 1, y, i - 1, len) && SameStop(dst, src, x - 1)
    ensures High(t[i := t[x]], i - 1, len, src[y - 1].mid)
  {
    MoveDst(t, s, dst, src, x, y, i, len);
    SlotIs(t, s, dst, src, x, y, i, len);
    assert src[0].mid <= src[y - 1].mid;
    StopMoves(dst, src, x);
  }

  lemma ToOk(t: seq<ID2>, s: seq<ID2>, dst: seq<ID2>, src: seq<ID2>, x: nat, y: nat, i: int, len: nat)
    requires Asc(src) && y > 0 && Merging(t, s, dst, src, x, y, i, len) && SameStop(dst, src, x)
    ensures MergeOk(t, s, dst, src, x, y, i, len)
  {
    if !Unwritten(x, i, len) { Overrun(t, s, dst, src, x, y, i, len); }
  }

  /** mdb.c:3001-3003 for one entry of src: larger entries of dst move up. */
  method MoveLarger(dl: array<ID2>, yp: Id, x0: nat, i0: int, ghost s: seq<ID2>, ghost dst: seq<ID2>, ghost src: seq<ID2>,
                    ghost y: nat, ghost len: nat) returns (inside: bool, x: nat, i: int)
    requires Asc(src) && 0 < y <= |src| && yp == src[y - 1].mid && x0 < dl.Length
    requires High(dl[..], i0, len, yp) && MergeOk(dl[..], s, dst, src, x0, y, i0, len)
    modifies dl
    ensures x < dl.Length
    ensures inside ==> High(dl[..], i, len, yp) && MergeOk(dl[..], s, dst, src, x, y, i, len)
    ensures inside ==> Unwritten(x, i, len) && yp >= dl[x].mid
    ensures !inside ==> !Fits(dst, src, len)
  {
    inside, x, i := true, x0, i0;
    while yp < dl[x].mid
      invariant x < dl.Length && inside && High(dl[..], i, len, yp) && MergeOk(dl[..], s, dst, src, x, y, i, len)
      decreases x
    {
      inside, x, i := MoveOne(dl, yp, x, i, s, dst, src, y, len);
      if !inside { return false, 0, i; }
    }
  }

  /** Between two entries of src, of which y are still to come. */
  ghost predicate Between(t: seq<ID2>, s: seq<ID2>, dst: seq<ID2>, src: seq<ID2>, x: nat, y: nat, i: int, len: nat) {
    if 0 < y <= |src| then High(t, i, len, src[y - 1].mid) && MergeOk(t, s, dst, src, x, y, i, len)
    else Fits(dst, src, len) && x == Rest(dst, src) && Merging(t, s, dst, src, x, 0, i, len)
  }

  /** mdb.c:3001-3005 for one entry of src, and the entry itself. */
  method MergeEntry(dl: array<ID2>, e: ID2, x0: nat, i0: int, ghost s: seq<ID2>, ghost dst: seq<ID2>, ghost src: seq<ID2>,
                    ghost y: nat, ghost len: nat) returns (inside: bool, x: nat, i: int)
    requires Asc(src) && 0 < y <= |src| && e == src[y - 1] && e.mid > 0 && x0 < dl.Length
    requires Between(dl[..], s, dst, src, x0, y, i0, len)
    modifies dl
    ensures x < dl.Length
    ensures inside ==> Between(dl[..], s, dst, src, x, y - 1, i, len)
    ensures !inside ==> !Fits(dst, src, len)
  {
    inside, x, i := MoveLarger(dl, e.mid, x0, i0, s, dst, src, y, len);
    if inside { inside, x, i := PlaceEntry(dl, e, x, i, s, dst, src, y, len); }
  }

  /** mdb.c:3004-3005 and the copying of the entry. */
  method PlaceEntry(dl: array<ID2>, e: ID2, x0: nat, i0: int, ghost s: seq<ID2>, ghost dst: seq<ID2>, ghost src: seq<ID2>,
                    ghost y: nat, ghost len: nat) returns (inside: bool, x: nat, i: int)
    requires Asc(src) && 0 < y <= |src| && e == src[y - 1] && e.mid > 0 && x0 < dl.Length && e.mid >= dl[x0].mid
    requires High(dl[..], i0, len, e.mid) && MergeOk(dl[..], s, dst, src, x0, y, i0, len) && Unwritten(x0, i0, len)
    modifies dl
    ensures x < dl.Length
    ensures inside ==> Between(dl[..], s, dst, src, x, y - 1, i, len)
    ensures !inside ==> !Fits(dst, src, len)
  {
    EntryOk(dl[..], s, dst, src, x0, y, i0, len);
    if i0 < 0 {
      return false, x0, i0;
    }
    x := if e.mid == dl[x0].mid then x0 - 1 else x0;
    Put(dl, i0, e);
    inside, i := true, i0 - 1;
  }

  lemma EntryOk(t: seq<ID2>, s: seq<ID2>, dst: seq<ID2>, src: seq<ID2>, x: nat, y: nat, i: int, len: nat)
    requires Asc(src) && 0 < y <= |src| && x < |t| && src[y - 1].mid > 0 && src[y - 1].mid >= t[x].mid
    requires High(t, i, len, src[y - 1].mid) && MergeOk(t, s, dst, src, x, y, i, len) && Unwritten(x, i, len)
    ensures i < 0 ==> !Fits(dst, src, len)
    ensures i >= 0 ==> var u, x1 := t[i := src[y - 1]], if src[y - 1].mid == t[x].mid then x - 1 else x;
      x1 >= 0 && Between(u, s, dst, src, x1, y - 1, i - 1, len)
  {
    if i < 0 {
      Overrun(t, s, dst, src, x, y, i, len);
    } else {
      SlotIs(t, s, dst, src, x, y, i, len);
      var x1 := if src[y - 1].mid == t[x].mid then x - 1 else x;
      MoveSrc(t, s, dst, src, x, y, i, len, x1);
      if y == 1 {
        AllFits(t[i := src[0]], s, dst, src, x, x1, i, len);
      } else {
        NextEntry(t, s, dst, src, x, y, i, len, x1);
      }
    }
  }

  lemma NextEntry(t: seq<ID2>, s: seq<ID2>, dst: seq<ID2>, src: seq<ID2>, x: nat, y: nat, i: nat, len: nat, x1: nat)
    requires Asc(src) && 1 < y <= |src| && High(t, i, len, src[y - 1].mid) && SameStop(dst, src, x)
    requires Merging(t[i := src[y - 1]], s, dst, src, x1, y - 1, i - 1, len)
    requires x1 == x || (x1 == x - 1 && dst[x - 1].mid == src[y - 1].mid)
    ensures High(t[i := src[y - 1]], i - 1, len, src[y - 2].mid)
    ensures MergeOk(t[i := src[y - 1]], s, dst, src, x1, y - 1, i - 1, len)
  {
    StaysHigh(t, src, y, i, len);
    if x1 < x { StopMoves(dst, src, x); }
    ToOk(t[i := src[y - 1]], s, dst, src, x1, y - 1, i - 1, len);
  }

  /** The loop of mdb.c:3000-3006; false where it would leave the array. */
  method MergeDown(dl: array<ID2>, src: seq<ID2>, x0: nat, len: nat, ghost dst: seq<ID2>)
    returns (inside: bool, i: int, x: nat)
    requires x0 == |dst| && Holds(dl[..], dst) && len < dl.Length && Asc(src) && Pages(src)
    modifies dl
    ensures inside <==> Fits(dst, src, len)
    ensures inside ==> x == Rest(dst, src) && Merging(dl[..], old(dl[..]), dst, src, x, 0, i, len)
  {
    ghost var s := dl[..];
    i, x, inside := len, x0, true;
    var y: nat := |src|;
    MergeStarts(s, dst, src, len);
    while y > 0
      invariant y <= |src| && x < dl.Length && inside
      invariant Between(dl[..], s, dst, src, x, y, i, len)
    {
      inside, x, i := MergeEntry(dl, src[y - 1], x, i, s, dst, src, y, len);
      if !inside { return; }
      y := y - 1;
    }
  }

  // ---------------------------------------------------------------- the size of the union

  /** How many page numbers two ascending lists share. */
  function Common(dst: seq<ID2>, src: seq<ID2>): (n: nat)
    ensures |Union(dst, src)| + n == |dst| + |src|
    decreases |dst| + |src|
  {
    if |src| == 0 || |dst| == 0 then (NoneLeft(dst, src); 0)
    else if src[|src| - 1].mid < dst[|dst| - 1].mid then Common(dst[..|dst| - 1], src)
    else if src[|src| - 1].mid == dst[|dst| - 1].mid then Common(dst[..|dst| - 1], src[..|src| - 1]) + 1
    else Common(dst, src[..|src| - 1])
  }

  lemma {:induction false} NoneLeft(dst: seq<ID2>, src: seq<ID2>)
    requires |src| == 0 || |dst| == 0
    ensures |Union(dst, src)| == |dst| + |src|
    decreases |src|
  {
    if |src| > 0 { NoneLeft(dst, src[..|src| - 1]); }
  }

  /** Entries of src above all of dst are not shared. */
  lemma {:induction false} SkipAbove(dst: seq<ID2>, src: seq<ID2>, y: nat)
    requires y <= |src| && forall k, j :: 0 <= k < |dst| && y <= j < |src| ==> dst[k].mid < src[j].mid
    ensures Common(dst, src) == Common(dst, src[..y])
    decreases |src|
  {
    if y < |src| {
      SkipAbove(dst, src[..|src| - 1], y);
      assert src[..|src| - 1][..y] == src[..y];
    } else {
      assert src[..y] == src;
    }
  }

  /** mdb.c:2988-2989: entries of dst above yp are passed over; slot 0 holds 0. */
  method SkipLarger(dst: array<ID2>, yp: Id, i0: nat, ghost d: seq<ID2>, ghost s: seq<ID2>) returns (i: nat)
    requires i0 <= |d| < dst.Length && dst[0].mid == 0 && d == dst[1..|d| + 1] && |s| > 0 && s[|s| - 1].mid == yp
    ensures i <= i0 && dst[i].mid <= yp && Common(d[..i], s) == Common(d[..i0], s)
  {
    i := i0;
    while yp < dst[i].mid
      invariant 0 <= i <= i0 && Common(d[..i], s) == Common(d[..i0], s)
      decreases i
    {
      assert d[..i][i - 1] == dst[i] && d[..i][..i - 1] == d[..i - 1];
      i := i - 1;
    }
  }

  /** One round of mdb.c:2986-2994. */
  method CountOne(dst: array<ID2>, yp: Id, i0: nat, ghost d: seq<ID2>, ghost s: seq<ID2>) returns (i: nat, same: nat)
    requires i0 <= |d| < dst.Length && dst[0].mid == 0 && d == dst[1..|d| + 1] && |s| > 0 && s[|s| - 1].mid == yp > 0
    ensures i <= i0 && same + Common(d[..i], s[..|s| - 1]) == Common(d[..i0], s)
  {
    i := SkipLarger(dst, yp, i0, d, s);
    same := 0;
    assert i > 0 ==> d[..i][i - 1] == dst[i] && d[..i][..i - 1] == d[..i - 1];
    if yp == dst[i].mid {
      i, same := i - 1, 1;
    }
  }

  /** mdb.c:2984-2994: the length for a parent that is nested itself, counted. */
  method UnionLen(dst: array<ID2>, x: nat, src: array<ID2>) returns (len: nat)
    requires x < dst.Length && dst[0].mid == 0 && Asc(dst[1..x + 1]) && List(src) && Asc(Entries(src))
    requires forall k :: 0 <= k < |Entries(src)| ==> Entries(src)[k].mid > 0
    requires dst[x].mid < MAXID
    ensures len == |Union(dst[1..x + 1], Entries(src))|
  {
    ghost var d, s := dst[1..x + 1], Entries(src);
    var y := Search(src, dst[x].mid + 1);
    y := y - 1;
    LastIsLargest(dst, x);
    SkipAbove(d, s, y);
    assert d[..x] == d;
    len := CountFrom(dst, src, x, y, d, s, x + src[0].mid);
  }

  lemma LastIsLargest(dst: array<ID2>, x: nat)
    requires x < dst.Length && Asc(dst[1..x + 1])
    ensures var d := dst[1..x + 1]; forall k :: 0 <= k < |d| ==> d[k].mid <= dst[x].mid
  {
    assert x > 0 ==> dst[x] == dst[1..x + 1][x - 1];
  }

  method CountFrom(dst: array<ID2>, src: array<ID2>, x: nat, y0: nat, ghost d: seq<ID2>, ghost s: seq<ID2>, len0: nat)
    returns (len: nat)
    requires x == |d| < dst.Length && dst[0].mid == 0 && d == dst[1..|d| + 1]
    requires List(src) && s == Entries(src) && y0 <= |s| && forall k :: 0 <= k < |s| ==> s[k].mid > 0
    requires len0 >= Common(d[..x], s[..y0])
    ensures len == len0 - Common(d[..x], s[..y0])
  {
    len := len0;
    var y, i := y0, x;
    while y > 0 && i > 0
      invariant 0 <= y <= |s| && 0 <= i <= |d|
      invariant len - Common(d[..i], s[..y]) == len0 - Common(d[..x], s[..y0])
    {
      assert s[..y][y - 1] == src[y] && s[..y][..y - 1] == s[..y - 1];
      var same;
      i, same := CountOne(dst, src[y].mid, i, d, s[..y]);
      len, y := len - same, y - 1;
    }
  }

  // ---------------------------------------------------------------- the whole step

  datatype Outcome = Outside | Inside(intact: bool)

  /**
   * mdb.c:2981-3008.  nested: the parent has a parent itself, and the length is counted.  With a top-level parent it is
   * taken from the room that the child has left, right or wrong.  Outside: the loop leaves the array.  intact is what
   * the source asserts at line 3007, and without the assertion the parent goes on with the list of MergedTo.
   */
  method JoinDirty(dst: array<ID2>, src: array<ID2>, nested: bool, dirtyRoom: nat) returns (r: Outcome, ghost len: nat)
    requires dst != src && List(dst) && List(src) && Asc(Entries(dst)) && Asc(Entries(src))
    requires dst.Length == src.Length == MDB_IDL_UM_MAX + 1 && Pages(Entries(dst)) && Pages(Entries(src))
    requires !nested ==> dirtyRoom <= MDB_IDL_UM_MAX
    modifies dst
    ensures len == if nested then |old(Union(Entries(dst), Entries(src)))| else MDB_IDL_UM_MAX - dirtyRoom
    ensures r.Inside? <==> len <= MDB_IDL_UM_MAX && old(Fits(Entries(dst), Entries(src), len))
    ensures r.Inside? ==> List(dst) && MergedTo(old(dst[1..]), old(Entries(dst)), Entries(src), len, Entries(dst))
    ensures r.Inside? && r.intact <==> len == |old(Union(Entries(dst), Entries(src)))| <= MDB_IDL_UM_MAX
    ensures r.Inside? && r.intact ==> Entries(dst) == old(Union(Entries(dst), Entries(src)))
  {
    ghost var s, d, e := dst[..], Entries(dst), Entries(src);
    var x := dst[0].mid;
    dst[0] := dst[0].(mid := 0);
    assert dst[1..x + 1] == d;
    var n;
    if nested {
      assert x > 0 ==> dst[x] == d[x - 1];
      n := UnionLen(dst, x, src);
    } else {
      n := MDB_IDL_UM_MAX - dirtyRoom;
    }
    len := n;
    assert dst[1..] == s[1..] && s[1..][..x] == d;
    if n > MDB_IDL_UM_MAX { return Outside, len; }
    r := MergeDirty(dst, src[1..src[0].mid + 1], x, n, d);
  }

  /** The merge of mdb.c:2999-3008 with its assertion as the result. */
  method MergeDirty(dl: array<ID2>, src: seq<ID2>, x0: nat, len: nat, ghost dst: seq<ID2>) returns (r: Outcome)
    requires x0 == |dst| && Holds(dl[..], dst) && len < dl.Length && len <= MAXID && Asc(dst) && Asc(src) && Pages(src)
    modifies dl
    ensures r.Inside? <==> Fits(dst, src, len)
    ensures r.Inside? ==> List(dl) && MergedTo(old(dl[1..]), dst, src, len, Entries(dl))
    ensures r.Inside? && r.intact <==> len == |Union(dst, src)|
    ensures r.Inside? && r.intact ==> Entries(dl) == Union(dst, src)
  {
    ghost var s := dl[..];
    var inside, i, x := MergeDown(dl, src, x0, len, dst);
    WellFits(dst, src);
    if !inside { return Outside; }
    DoneWell(dl[..], s, dst, src, x, i, len);
    SetCount(dl, len);
    r := Inside(i == x);
  }

  method SetCount(dl: array<ID2>, len: nat)
    requires len < dl.Length && len <= MAXID
    modifies dl
    ensures List(dl) && Entries(dl) == old(dl[1..len + 1])
  {
    ghost var u := dl[1..len + 1];
    dl[0] := dl[0].(mid := len);
    assert dl[1..len + 1] == u;
  }

  lemma DoneWell(t: seq<ID2>, s: seq<ID2>, dst: seq<ID2>, src: seq<ID2>, x: nat, i: int, len: nat)
    requires Merging(t, s, dst, src, x, 0, i, len) && x == Rest(dst, src) && Asc(dst) && Asc(src)
    ensures MergedTo(s[1..], dst, src, len, t[1..len + 1]) && (i == x <==> len == |Union(dst, src)|)
    ensures i == x ==> t[1..len + 1] == Union(dst, src)
  {
    MergeDone(t, s, dst, src, x, i, len);
    assert s[1..][..|dst|] == dst;
    if i == x { MergedWell(s[1..], dst, src, t[1..len + 1]); }
  }

  /**
   * The list that comes out: with a short length the union without a block of entries that ends where the child's
   * begin, with a long one the union with a block of whatever was in those slots put in there.
   */
  lemma MergedList(slots: seq<ID2>, dst: seq<ID2>, src: seq<ID2>, len: nat, r: seq<ID2>) returns (a: nat, b: nat)
    requires Asc(dst) && Asc(src) && dst <= slots && MergedTo(slots, dst, src, len, r)
    ensures var u := Union(dst, src);
      && a <= b && b - a == (if len < |u| then |u| - len else len - |u|)
      && (len <= |u| ==> b <= |u| && r == u[..a] + u[b..])
      && (len >= |u| ==> b <= |slots| && a <= |u| && a == Rest(dst, src) && r == u[..a] + slots[a..b] + u[a..])
  {
    var u, n := Union(dst, src), Rest(dst, src);
    RestLower(dst, src);
    UnionLow(dst, src, n);
    if |u| - n > len {
      a, b := 0, n + 1;
    } else if len <= |u| {
      a, b := len - (|u| - n), n;
      TakeTake(slots, |dst|, a);
      TakeTake(dst, n, a);
      TakeTake(u, n, a);
    } else {
      a, b := n, n + len - |u|;
      TakeTake(slots, |dst|, n);
      assert slots[..b] == slots[..n] + slots[n..b];
    }
  }

  /** The right length is long enough. */
  lemma WellFits(dst: seq<ID2>, src: seq<ID2>)
    requires Asc(src)
    ensures Fits(dst, src, |Union(dst, src)|)
  {
    RestBound(dst, src);
  }

  ghost predicate Pages(s: seq<ID2>) { forall k :: 0 <= k < |s| ==> 0 < s[k].mid < MAXID }
}
