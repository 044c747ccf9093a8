/** ID lists (MDB_IDL): arrays with the count in slot 0 and the ids after it, sorted descending. */
module Idl {
  /** MDB_ID, a 64-bit unsigned number. */
  type Id = n: nat | n <= MAXID

  const MAXID: nat := 0xFFFF_FFFF_FFFF_FFFF
  const MDB_IDL_UM_MAX: nat := 0x1_FFFF

  ghost predicate Descending(s: seq<Id>) { forall i, j :: 0 <= i < j < |s| ==> s[i] > s[j] }

  ghost predicate Sorted(s: seq<Id>) { forall i, j :: 0 <= i < j < |s| ==> s[i] >= s[j] }

  /** The ids pg + n - 1 down to pg. */
  function Range(pg: Id, n: nat): (s: seq<Id>)
    requires pg + n <= MAXID
    ensures |s| == n && forall k :: 0 <= k < n ==> s[k] == pg + n - 1 - k
  {
    if n == 0 then [] else [pg + n - 1] + Range(pg, n - 1)
  }

  /** Bitwise or with MDB_IDL_UM_MAX, a run of 17 one bits. */
  function OrUmMax(n: nat): (r: nat)
    ensures r >= n && r >= MDB_IDL_UM_MAX && r % 0x2_0000 == MDB_IDL_UM_MAX
  {
    n / 0x2_0000 * 0x2_0000 + MDB_IDL_UM_MAX
  }

  /** memcpy between two different arrays. */
  method CopyIds(dst: array<Id>, at: nat, src: array<Id>, from: nat, n: nat)
    requires dst != src && at + n <= dst.Length && from + n <= src.Length
    modifies dst
    ensures dst[..at] == old(dst[..at]) && dst[at..at + n] == src[from..from + n] && dst[at + n..] == old(dst[at + n..])
  {
    forall i | at <= i < at + n { dst[i] := src[from + i - at]; }
  }

  /** Writes pg, pg + 1, ... downwards from slot at + n to slot at + 1. */
  method FillDown(a: array<Id>, at: nat, pg: Id, n: nat)
    requires at + n < a.Length && pg + n <= MAXID
    modifies a
    ensures a[..at + 1] == old(a[..at + 1]) && a[at + 1..at + n + 1] == Range(pg, n) && a[at + n + 1..] == old(a[at + n + 1..])
  {
    var k, next := n, pg;
    while k > 0
      invariant 0 <= k <= n && next == pg + n - k
      invariant a[..at + 1] == old(a[..at + 1]) && a[at + n + 1..] == old(a[at + n + 1..])
      invariant forall j :: at + k < j <= at + n ==> a[j] == pg + n - (j - at)
    {
      a[at + k] := next;
      k, next := k - 1, next + 1;
    }
  }

  /** realloc: the same ids in a list with the given capacity. */
  method Resized(ids: array<Id>, cap: nat) returns (r: array<Id>)
    requires 1 <= ids.Length && ids[0] < ids.Length && cap >= ids[0]
    ensures fresh(r) && r.Length == cap + 1 && r[0] == ids[0] && r[1..r[0] + 1] == ids[1..ids[0] + 1]
  {
    var n := ids[0];
    r := new Id[cap + 1](i => 0);
    forall i | 0 <= i <= n { r[i] := ids[i]; }
  }

  /** mdb_midl_need on the list itself. */
  method NeedRoom(ids: array<Id>, num: nat) returns (r: array<Id>)
    requires 1 <= ids.Length && ids[0] < ids.Length
    ensures r == ids || fresh(r)
    ensures ids[0] + num < r.Length && r[0] == ids[0] && r[1..r[0] + 1] == ids[1..ids[0] + 1]
    ensures r == ids <==> ids[0] + num < ids.Length
    ensures r != ids ==> var n := ids[0] + num; (r.Length + 1) % 256 == 0 && n + n / 4 + 2 < r.Length + 1 <= n + n / 4 + 258
  {
    r := ids;
    var n := num + ids[0];
    if n > ids.Length - 1 {
      n := (n + n / 4 + (256 + 2)) / 256 * 256;
      r := Resized(ids, n - 2);
    }
  }

  class IdList {
    /** ids[0] is the count; the capacity, kept at ids[-1] by the source, is ids.Length - 1. */
    var ids: array<Id>

    ghost predicate Valid()
      reads this, ids
    {
      1 <= ids.Length && ids[0] < ids.Length
    }

    ghost function Elems(): (s: seq<Id>)
      requires Valid()
      reads this, ids
    {
      ids[1..ids[0] + 1]
    }

    function Capacity(): int
      reads this
    {
      ids.Length - 1
    }

    /** mdb_midl_alloc */
    constructor (num: nat)
      ensures Valid() && fresh(ids) && Elems() == [] && Capacity() == num
    {
      ids := new Id[num + 1](i => 0);
    }

    /** realloc to a new capacity of at least the count. */
    method Realloc(cap: nat)
      requires Valid() && cap >= ids[0]
      modifies this
      ensures Valid() && fresh(ids) && Elems() == old(Elems()) && Capacity() == cap
    {
      ids := Resized(ids, cap);
    }

    /** mdb_midl_need: room for num more ids. */
    method Need(num: nat)
      requires Valid()
      modifies this
      ensures Valid() && Elems() == old(Elems()) && Capacity() >= |Elems()| + num
      ensures ids == old(ids) || fresh(ids)
      ensures ids == old(ids) <==> old(Capacity()) >= |Elems()| + num
    {
      ids := NeedRoom(ids, num);
    }

    /** mdb_midl_append */
    method Append(id: Id)
      requires Valid() && ids[0] < MAXID
      modifies this, ids
      ensures Valid() && Elems() == old(Elems()) + [id]
      ensures ids == old(ids) || fresh(ids)
      ensures Capacity() == old(Capacity()) + if |old(Elems())| >= old(Capacity()) then MDB_IDL_UM_MAX else 0
    {
      if ids[0] >= Capacity() {
        Realloc(Capacity() + MDB_IDL_UM_MAX);
      }
      ids[0] := ids[0] + 1;
      ids[ids[0]] := id;
    }

    /** mdb_midl_append_list */
    method AppendList(app: IdList)
      requires Valid() && app.Valid() && app != this && app.ids != ids && ids[0] + app.ids[0] <= MAXID
      modifies this, ids
      ensures Valid() && Elems() == old(Elems()) + old(app.Elems())
      ensures ids == old(ids) || fresh(ids)
      ensures Capacity() == old(Capacity()) + if |Elems()| >= old(Capacity()) then old(|app.Elems()|) else 0
    {
      var n, m := ids[0], app.ids[0];
      if n + m >= Capacity() {
        Realloc(Capacity() + m);
      }
      CopyIds(ids, n + 1, app.ids, 1, m);
      assert ids[1..n + 1] == old(Elems()) && ids[n + 1..n + 1 + m] == old(app.Elems());
      ids[0] := n + m;
      assert ids[1..n + m + 1] == ids[1..n + 1] + ids[n + 1..n + 1 + m];
    }

    /** mdb_midl_append_range: id + n - 1 down to id. */
    method AppendRange(id: Id, n: nat)
      requires Valid() && id + n <= MAXID && ids[0] + n <= MAXID
      modifies this, ids
      ensures Valid() && Elems() == old(Elems()) + Range(id, n)
      ensures ids == old(ids) || fresh(ids)
      ensures Capacity() == old(Capacity()) + if |Elems()| > old(Capacity()) then OrUmMax(n) else 0
    {
      var len := ids[0];
      var more := if len + n > Capacity() then OrUmMax(n) else 0;
      if more > 0 { Realloc(Capacity() + more); }
      FillDown(ids, len, id, n);
      assert ids[1..len + 1] == old(Elems());
      ids[0] := len + n;
      assert ids[1..len + n + 1] == ids[1..len + 1] + ids[len + 1..len + n + 1];
    }

    /** mdb_midl_search: in a descending list, the position of id, or the first position of a smaller id. */
    method Search(id: Id) returns (cursor: nat)
      requires Valid() && Sorted(Elems())
      ensures 1 <= cursor <= |Elems()| + 1
      ensures forall k :: 1 <= k < cursor && k <= |Elems()| ==> ids[k] >= id
      ensures forall k :: cursor <= k <= |Elems()| ==> ids[k] <= id
      ensures (cursor <= |Elems()| && ids[cursor] == id) <==> id in Elems()
      ensures Descending(Elems()) ==> forall k :: 1 <= k < cursor ==> ids[k] > id
    {
      var base, val: int, n := 0, 0, ids[0];
      cursor := 1;
      assert forall i, j :: 1 <= i < j <= ids[0] ==> Elems()[i - 1] == ids[i] >= ids[j] == Elems()[j - 1];
      while 0 < n
        invariant 0 <= base && base + n <= ids[0]
        invariant forall k :: 1 <= k <= base ==> ids[k] > id
        invariant forall k :: base + n < k <= ids[0] ==> ids[k] < id
        invariant n == 0 ==> cursor == (if val > 0 then base else base + 1)
        invariant 0 <= n
        invariant n == ids[0] ==> cursor == 1 && val == 0 && base == 0
      {
        var pivot := n / 2;
        cursor := base + pivot + 1;
        val := if ids[cursor] < id then -1 else if ids[cursor] > id then 1 else 0;
        if val < 0 {
          n := pivot;
        } else if val > 0 {
          base := cursor;
          n := n - (pivot + 1);
        } else {
          assert Elems()[cursor - 1] == id;
          return;
        }
      }
      if val > 0 {
        cursor := cursor + 1;
      }
      assert forall k :: 0 <= k < |Elems()| ==> Elems()[k] == ids[k + 1];
    }
  }
}
