/** ID2 lists (MDB_ID2L): arrays with the count in slot 0, sorted ascending by page number; a dirty list. */
module Id2l {
  import opened Idl

  /** The contents of a page. */
  type Bytes = seq<nat>

  /** A page in memory: mp_pgno, the P_KEEP flag, the contents. */
  datatype Page = Page(pgno: Id, keep: bool, data: Bytes)

  /** MDB_ID2 */
  datatype ID2 = ID2(mid: Id, mptr: Page)

  datatype Option<T> = None | Some(value: T)

  /** Strictly ascending. */
  ghost predicate Asc(s: seq<ID2>) { forall i, j :: 0 <= i < j < |s| ==> s[i].mid < s[j].mid }

  ghost predicate List(a: array<ID2>)
    reads a
  {
    1 <= a.Length && a[0].mid < a.Length
  }

  ghost function Entries(a: array<ID2>): (s: seq<ID2>)
    requires List(a)
    reads a
    ensures |s| == a[0].mid
  {
    a[1..a[0].mid + 1]
  }

  /** The page that a dirty list holds under a page number. */
  function Get(s: seq<ID2>, id: Id): Option<Page> {
    if |s| == 0 then None
    else if s[|s| - 1].mid == id then Some(s[|s| - 1].mptr)
    else Get(s[..|s| - 1], id)
  }

  lemma {:induction false} GetMeans(s: seq<ID2>, id: Id)
    ensures match Get(s, id)
      case Some(p) => exists k :: 0 <= k < |s| && s[k] == ID2(id, p)
      case None => forall k :: 0 <= k < |s| ==> s[k].mid != id
  {
    if |s| > 0 {
      GetMeans(s[..|s| - 1], id);
      assert s[|s| - 1] == ID2(s[|s| - 1].mid, s[|s| - 1].mptr);
    }
  }

  /** Position of an id that is there, else of the first larger one. */
  ghost predicate SlotFor(s: seq<ID2>, id: Id, x: nat) {
    && 1 <= x <= |s| + 1
    && (forall k :: 0 <= k < x - 1 ==> s[k].mid < id)
    && (forall k :: x - 1 <= k < |s| ==> s[k].mid >= id)
  }

  /** mdb_mid2l_search */
  method Search(ids: array<ID2>, id: Id) returns (cursor: nat)
    requires List(ids) && Asc(Entries(ids))
    ensures SlotFor(Entries(ids), id, cursor)
  {
    var base, val: int, n := 0, 0, ids[0].mid;
    cursor := 1;
    ghost var s := Entries(ids);
    assert forall k :: 1 <= k <= |s| ==> s[k - 1] == ids[k];
    while 0 < n
      invariant 0 <= base && 0 <= n && base + n <= |s|
      invariant forall k :: 0 <= k < base ==> s[k].mid < id
      invariant forall k :: base + n <= k < |s| ==> s[k].mid > id
      invariant n == 0 ==> cursor == (if val > 0 then base else base + 1)
      invariant n == |s| ==> cursor == 1 && val == 0
    {
      var pivot := n / 2;
      cursor := base + pivot + 1;
      assert ids[cursor] == s[cursor - 1];
      val := if id < ids[cursor].mid then -1 else if id > ids[cursor].mid then 1 else 0;
      if val < 0 {
        n := pivot;
      } else if val > 0 {
        base := cursor;
        n := n - (pivot + 1);
      } else {
        return;
      }
    }
    if val > 0 {
      cursor := cursor + 1;
    }
  }

  /** The shift at midl.c:325-327: entries from slot x on move up by one. */
  method OpenSlot(ids: array<ID2>, x: nat)
    requires List(ids) && ids[0].mid + 1 < ids.Length && ids[0].mid < MAXID && 1 <= x <= ids[0].mid + 1
    modifies ids
    ensures List(ids) && ids[0].mid == old(ids[0].mid) + 1
    ensures ids[1..x] == old(ids[1..x]) && ids[x + 1..ids[0].mid + 1] == old(ids[x..ids[0].mid + 1])
  {
    ghost var s := ids[..];
    ids[0] := ids[0].(mid := ids[0].mid + 1);
    var i: nat := ids[0].mid;
    while i > x
      invariant x <= i <= ids[0].mid == s[0].mid + 1
      invariant forall k {:trigger ids[k]} :: 1 <= k < ids.Length ==> ids[k] == if i < k <= ids[0].mid then s[k - 1] else s[k]
    {
      ids[i] := ids[i - 1];
      i := i - 1;
    }
  }

  /** t is s with e put in at slot x, where its page number belongs. */
  ghost predicate Inserted(s: seq<ID2>, t: seq<ID2>, e: ID2, x: nat) {
    SlotFor(s, e.mid, x) && t == s[..x - 1] + [e] + s[x - 1..]
  }

  /** mdb_mid2l_insert: 0, or -1 for an id that is there, or -2 for a full list. */
  method Insert(ids: array<ID2>, id: ID2) returns (rc: int)
    requires List(ids) && ids.Length == MDB_IDL_UM_MAX + 1 && Asc(Entries(ids))
    modifies ids
    ensures List(ids) && (rc == 0 || rc == -1 || rc == -2)
    ensures rc == -1 <==> old(Get(Entries(ids), id.mid)).Some?
    ensures rc == 0 ==> exists x: nat :: Inserted(old(Entries(ids)), Entries(ids), id, x)
    ensures rc == -2 ==> |old(Entries(ids))| == MDB_IDL_UM_MAX
    ensures rc != 0 ==> Entries(ids) == old(Entries(ids))
  {
    var x := Search(ids, id.mid);
    ghost var s := Entries(ids);
    assert x <= |s| ==> ids[x] == s[x - 1];
    GetMeans(s, id.mid);
    if x <= ids[0].mid && ids[x].mid == id.mid {
      return -1;
    }
    if ids[0].mid >= MDB_IDL_UM_MAX {
      return -2;
    }
    assert s[..x - 1] == ids[1..x] && s[x - 1..] == ids[x..|s| + 1];
    OpenSlot(ids, x);
    ids[x] := id;
    assert ids[1..ids[0].mid + 1] == ids[1..x] + [id] + ids[x + 1..ids[0].mid + 1];
    assert Inserted(s, Entries(ids), id, x);
    return 0;
  }

  /** mdb_mid2l_append */
  method Append(ids: array<ID2>, id: ID2) returns (rc: int)
    requires List(ids) && ids.Length == MDB_IDL_UM_MAX + 1
    modifies ids
    ensures List(ids) && rc == if |old(Entries(ids))| == MDB_IDL_UM_MAX then -2 else 0
    ensures Entries(ids) == if rc == 0 then old(Entries(ids)) + [id] else old(Entries(ids))
  {
    if ids[0].mid >= MDB_IDL_UM_MAX {
      return -2;
    }
    ghost var s := Entries(ids);
    ids[0] := ids[0].(mid := ids[0].mid + 1);
    ids[ids[0].mid] := id;
    assert ids[1..ids[0].mid + 1] == s + [id];
    return 0;
  }

  /** Inserting at the slot the search found keeps the list ascending and adds that page only. */
  lemma InsertKeeps(s: seq<ID2>, t: seq<ID2>, e: ID2, x: nat, id: Id)
    requires Asc(s) && Inserted(s, t, e, x) && Get(s, e.mid).None?
    ensures Asc(t) && Get(t, id) == if id == e.mid then Some(e.mptr) else Get(s, id)
  {
    InsertAsc(s, t, e, x);
    InsertGet(s[..x - 1], s[x - 1..], s, t, e, id);
  }

  lemma InsertGet(a: seq<ID2>, b: seq<ID2>, s: seq<ID2>, t: seq<ID2>, e: ID2, id: Id)
    requires s == a + b && t == a + [e] + b && Get(s, e.mid).None?
    ensures Get(t, id) == if id == e.mid then Some(e.mptr) else Get(s, id)
  {
    GetCat(a, b, id);
    GetCat(a + [e], b, id);
    GetCat(a, [e], id);
    GetCat(a, b, e.mid);
  }

  lemma {:induction false} GetCat(a: seq<ID2>, b: seq<ID2>, id: Id)
    ensures Get(a + b, id) == if Get(b, id).Some? then Get(b, id) else Get(a, id)
  {
    if |b| == 0 {
      assert a + b == a;
    } else {
      GetCat(a, b[..|b| - 1], id);
      assert (a + b)[..|a + b| - 1] == a + b[..|b| - 1];
    }
  }

  lemma InsertAsc(s: seq<ID2>, t: seq<ID2>, e: ID2, x: nat)
    requires Asc(s) && Inserted(s, t, e, x) && Get(s, e.mid).None?
    ensures Asc(t)
  {
    GetMeans(s, e.mid);
    forall k | x - 1 <= k < |s| ensures s[k].mid > e.mid {
    }
  }

  lemma {:induction false} Unique(s: seq<ID2>, k: nat)
    requires Asc(s) && k < |s|
    ensures Get(s, s[k].mid) == Some(s[k].mptr)
  {
    if k < |s| - 1 {
      Unique(s[..|s| - 1], k);
    }
  }
}
