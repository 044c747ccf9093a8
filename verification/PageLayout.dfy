/** Where the nodes of a slotted page lie: positions and sizes in 16-bit words. */
module PageLayout {
  import opened SplitPoint

  /** Nodes at positions ws with sizes sz tile the words from up to end: disjoint, inside, no gap. */
  ghost predicate Layout(ws: seq<nat>, sz: seq<nat>, up: nat, end: nat) {
    && |ws| == |sz| && up + Sum(sz) == end
    && (forall i {:trigger Inside(ws[i], sz[i], up, end)} :: 0 <= i < |ws| ==> Inside(ws[i], sz[i], up, end))
    && (forall i, j {:trigger Apart(ws[i], sz[i], ws[j], sz[j])} :: 0 <= i < j < |ws| ==> Apart(ws[i], sz[i], ws[j], sz[j]))
  }

  ghost predicate Inside(w: nat, k: nat, up: nat, end: nat) { up <= w && w + k <= end && k > 0 }

  ghost predicate Apart(w: nat, k: nat, v: nat, j: nat) { w + k <= v || v + j <= w }

  function Insert<T>(s: seq<T>, i: nat, x: T): seq<T>
    requires i <= |s|
  {
    s[..i] + [x] + s[i..]
  }

  function Remove<T>(s: seq<T>, i: nat): seq<T>
    requires i < |s|
  {
    s[..i] + s[i + 1..]
  }

  lemma SumInsert(s: seq<nat>, i: nat, x: nat)
    requires i <= |s|
    ensures Sum(Insert(s, i, x)) == Sum(s) + x
  {
    SumSplit(s, i);
    SumCat(s[..i] + [x], s[i..]);
    SumCat(s[..i], [x]);
    SumOne(x);
  }

  lemma SumRemove(s: seq<nat>, i: nat)
    requires i < |s|
    ensures Sum(Remove(s, i)) == Sum(s) - s[i] && Sum(s) >= s[i]
  {
    SumSplit(s, i);
    SumHead(s, i);
    SumCat(s[..i], s[i + 1..]);
  }

  lemma SumReplace(s: seq<nat>, i: nat, x: nat)
    requires i < |s|
    ensures Sum(s[i := x]) == Sum(s) - s[i] + x
  {
    SumRemove(s, i);
    SumInsert(Remove(s, i), i, x);
    assert Insert(Remove(s, i), i, x) == s[i := x];
  }

  /** A new node directly below the others. */
  lemma LayoutAdd(ws: seq<nat>, sz: seq<nat>, up: nat, end: nat, i: nat, k: nat)
    requires Layout(ws, sz, up, end) && i <= |ws| && 0 < k <= up
    ensures Layout(Insert(ws, i, up - k), Insert(sz, i, k), up - k, end)
  {
    SumInsert(sz, i, k);
    var w, z := Insert(ws, i, up - k), Insert(sz, i, k);
    forall j | 0 <= j < |w| && j != i
      ensures var m := if j < i then j else j - 1; w[j] == ws[m] && z[j] == sz[m] && Inside(ws[m], sz[m], up, end)
    {
    }
    forall a, b | 0 <= a < b < |w| ensures Apart(w[a], z[a], w[b], z[b]) {
      if a != i && b != i {
        assert Apart(ws[if a < i then a else a - 1], sz[if a < i then a else a - 1], w[b], z[b]);
      }
    }
  }

  /** The positions after the nodes below ws[i] have moved up over node i. */
  function Closed(ws: seq<nat>, i: nat, k: nat): seq<nat>
    requires i < |ws|
  {
    seq(|ws|, j requires 0 <= j < |ws| => if ws[j] < ws[i] then ws[j] + k else ws[j])
  }

  /** Deleting node i closes its gap. */
  lemma LayoutDel(ws: seq<nat>, sz: seq<nat>, up: nat, end: nat, i: nat)
    requires Layout(ws, sz, up, end) && i < |ws|
    ensures Layout(Remove(Closed(ws, i, sz[i]), i), Remove(sz, i), up + sz[i], end)
  {
    SumRemove(sz, i);
    var c := Closed(ws, i, sz[i]);
    forall j | 0 <= j < |ws| && j != i ensures Inside(c[j], sz[j], up + sz[i], end) {
      MovedInside(ws, sz, up, end, i, j);
    }
    forall j, k | 0 <= j < k < |ws| && j != i && k != i ensures Apart(c[j], sz[j], c[k], sz[k]) {
      MovedApart(ws, sz, up, end, i, j, k);
    }
    WithoutOne(c, sz, up + sz[i], end, i);
  }

  lemma WithoutOne(c: seq<nat>, sz: seq<nat>, up: nat, end: nat, i: nat)
    requires i < |c| == |sz| && up + Sum(Remove(sz, i)) == end
    requires forall j :: 0 <= j < |c| && j != i ==> Inside(c[j], sz[j], up, end)
    requires forall j, k :: 0 <= j < k < |c| && j != i && k != i ==> Apart(c[j], sz[j], c[k], sz[k])
    ensures Layout(Remove(c, i), Remove(sz, i), up, end)
  {
    var w, z := Remove(c, i), Remove(sz, i);
    forall j | 0 <= j < |w| ensures Inside(w[j], z[j], up, end) {
      var m := if j < i then j else j + 1;
      assert Inside(c[m], sz[m], up, end);
    }
    forall a, b | 0 <= a < b < |w| ensures Apart(w[a], z[a], w[b], z[b]) {
      var m, n := if a < i then a else a + 1, if b < i then b else b + 1;
      assert Apart(c[m], sz[m], c[n], sz[n]);
    }
  }

  lemma MovedInside(ws: seq<nat>, sz: seq<nat>, up: nat, end: nat, i: nat, j: nat)
    requires Layout(ws, sz, up, end) && i < |ws| && j < |ws| && j != i
    ensures Inside(Closed(ws, i, sz[i])[j], sz[j], up + sz[i], end)
  {
    assert Inside(ws[j], sz[j], up, end) && Inside(ws[i], sz[i], up, end);
    assert if j < i then Apart(ws[j], sz[j], ws[i], sz[i]) else Apart(ws[i], sz[i], ws[j], sz[j]);
  }

  lemma MovedApart(ws: seq<nat>, sz: seq<nat>, up: nat, end: nat, i: nat, j: nat, k: nat)
    requires Layout(ws, sz, up, end) && i < |ws| && j < k < |ws| && j != i && k != i
    ensures var c := Closed(ws, i, sz[i]); Apart(c[j], sz[j], c[k], sz[k])
  {
    assert Inside(ws[j], sz[j], up, end) && Inside(ws[k], sz[k], up, end);
    assert Apart(ws[j], sz[j], ws[k], sz[k]);
    assert if j < i then Apart(ws[j], sz[j], ws[i], sz[i]) else Apart(ws[i], sz[i], ws[j], sz[j]);
    assert if k < i then Apart(ws[k], sz[k], ws[i], sz[i]) else Apart(ws[i], sz[i], ws[k], sz[k]);
  }

  /** The positions after node i and those below it have moved down by d, or up when d is negative. */
  function Shifted(ws: seq<nat>, i: nat, d: int): seq<nat>
    requires i < |ws|
  {
    seq(|ws|, j requires 0 <= j < |ws| => if d <= ws[j] <= ws[i] then ws[j] - d else ws[j])
  }

  /** Node i changes its size to k. */
  lemma LayoutResize(ws: seq<nat>, sz: seq<nat>, up: nat, end: nat, i: nat, k: nat)
    requires Layout(ws, sz, up, end) && i < |ws| && k > 0 && up + sz[i] >= k
    ensures Layout(Shifted(ws, i, k - sz[i]), sz[i := k], up + sz[i] - k, end)
  {
    SumReplace(sz, i, k);
    var w, z, u := Shifted(ws, i, k - sz[i]), sz[i := k], up + sz[i] - k;
    forall j | 0 <= j < |ws| ensures Inside(w[j], z[j], u, end) {
      ResizedInside(ws, sz, up, end, i, k, j);
    }
    forall a, b | 0 <= a < b < |ws| ensures Apart(w[a], z[a], w[b], z[b]) {
      ResizedApart(ws, sz, up, end, i, k, a, b);
    }
  }

  lemma ResizedInside(ws: seq<nat>, sz: seq<nat>, up: nat, end: nat, i: nat, k: nat, j: nat)
    requires Layout(ws, sz, up, end) && i < |ws| && k > 0 && up + sz[i] >= k && j < |ws|
    ensures ws[j] >= k - sz[i] && Inside(Shifted(ws, i, k - sz[i])[j], sz[i := k][j], up + sz[i] - k, end)
  {
    assert Inside(ws[j], sz[j], up, end) && Inside(ws[i], sz[i], up, end);
    assert j < i ==> Apart(ws[j], sz[j], ws[i], sz[i]);
    assert j > i ==> Apart(ws[i], sz[i], ws[j], sz[j]);
  }

  lemma ResizedApart(ws: seq<nat>, sz: seq<nat>, up: nat, end: nat, i: nat, k: nat, a: nat, b: nat)
    requires Layout(ws, sz, up, end) && i < |ws| && k > 0 && up + sz[i] >= k && a < b < |ws|
    ensures var w, z := Shifted(ws, i, k - sz[i]), sz[i := k]; Apart(w[a], z[a], w[b], z[b])
  {
    assert Inside(ws[a], sz[a], up, end) && Inside(ws[b], sz[b], up, end) && Inside(ws[i], sz[i], up, end);
    assert Apart(ws[a], sz[a], ws[b], sz[b]);
    assert a < i ==> Apart(ws[a], sz[a], ws[i], sz[i]);
    assert a > i ==> Apart(ws[i], sz[i], ws[a], sz[a]);
    assert b < i ==> Apart(ws[b], sz[b], ws[i], sz[i]);
    assert b > i ==> Apart(ws[i], sz[i], ws[b], sz[b]);
  }
}
