/**
 * Branch and leaf pages as they lie in memory: header words, the pointer array growing up from word 8, nodes growing
 * down from the end.  All offsets the source stores are even, so the page is an array of 16-bit words.
 */
module SlottedPage {
  import opened SplitPoint
  import opened PageLayout

  type Word = n: nat | n < 0x1_0000

  /** mn_lo, mn_hi, mn_flags, mn_ksize; the key and data bytes follow, two to a word. */
  datatype Node = Node(lo: Word, hi: Word, flags: Word, ksize: Word, body: seq<Word>)

  /** The words of the header that hold mp_lower and mp_upper; the pointers begin at word PTRS. */
  const LOWER := 6
  const UPPER := 7
  const PTRS := 8

  function DataSize(leaf: bool, lo: Word, hi: Word, flags: Word): nat {
    if !leaf then 0 else if flags % 2 == 1 then 8 else lo + hi * 0x1_0000
  }

  /** Words that a node with this header takes (mdb.c:6560-6568). */
  function Words(leaf: bool, lo: Word, hi: Word, flags: Word, ksize: Word): nat {
    (8 + ksize + DataSize(leaf, lo, hi, flags) + 1) / 2
  }

  function Image(n: Node): seq<Word> { [n.lo, n.hi, n.flags, n.ksize] + n.body }

  predicate WellFormed(leaf: bool, n: Node) { |Image(n)| == Words(leaf, n.lo, n.hi, n.flags, n.ksize) }

  function Sizes(nodes: seq<Node>): seq<nat> { seq(|nodes|, i requires 0 <= i < |nodes| => |Image(nodes[i])|) }

  /** mp_ptrs: byte offsets of the first n nodes. */
  function Raw(s: seq<Word>, n: nat): seq<Word>
    requires PTRS + n <= |s|
  {
    s[PTRS..PTRS + n]
  }

  /** Byte offsets as word positions. */
  function Halves(r: seq<nat>): seq<nat> { seq(|r|, i requires 0 <= i < |r| => r[i] / 2) }

  ghost predicate EvenAll(r: seq<nat>) { forall i :: 0 <= i < |r| ==> r[i] % 2 == 0 }

  /** Each node's words are where its pointer says. */
  ghost predicate Content(s: seq<Word>, ws: seq<nat>, nodes: seq<Node>) {
    |ws| == |nodes| && forall i {:trigger At(s, ws[i], Image(nodes[i]))} :: 0 <= i < |ws| ==> At(s, ws[i], Image(nodes[i]))
  }

  ghost predicate At(s: seq<Word>, w: nat, img: seq<Word>) { w + |img| <= |s| && s[w..w + |img|] == img }

  ghost predicate AllFormed(leaf: bool, nodes: seq<Node>) { forall i :: 0 <= i < |nodes| ==> WellFormed(leaf, nodes[i]) }

  /** The nodes lie in page s where the pointers say, from word up to its end. */
  ghost predicate Body(s: seq<Word>, leaf: bool, nodes: seq<Node>, raw: seq<nat>, up: nat) {
    && EvenAll(raw) && AllFormed(leaf, nodes) && Layout(Halves(raw), Sizes(nodes), up, |s|) && Content(s, Halves(raw), nodes)
  }

  /** Page s holds this sequence of nodes. */
  ghost predicate Holds(s: seq<Word>, leaf: bool, nodes: seq<Node>) {
    && PTRS + |nodes| <= |s| <= 0x4000 && s[LOWER] == 16 + 2 * |nodes| <= s[UPPER] && s[UPPER] % 2 == 0
    && Body(s, leaf, nodes, Raw(s, |nodes|), s[UPPER] / 2)
  }

  /** A page determines its nodes. */
  lemma HoldsOne(s: seq<Word>, leaf: bool, nodes: seq<Node>, other: seq<Node>)
    requires Holds(s, leaf, nodes) && Holds(s, leaf, other)
    ensures nodes == other
  {
    assert |nodes| == |other|;
    forall i | 0 <= i < |nodes| ensures nodes[i] == other[i] {
      var w := Halves(Raw(s, |nodes|))[i];
      assert At(s, w, Image(nodes[i])) && At(s, w, Image(other[i]));
      SameNode(s, w, leaf, nodes[i], other[i]);
    }
  }

  lemma SameNode(s: seq<Word>, w: nat, leaf: bool, n: Node, m: Node)
    requires At(s, w, Image(n)) && At(s, w, Image(m)) && WellFormed(leaf, n) && WellFormed(leaf, m)
    ensures n == m
  {
    HeaderAt(s, w, n);
    HeaderAt(s, w, m);
    assert n.body == Image(n)[4..] && m.body == Image(m)[4..];
  }

  lemma HeaderAt(s: seq<Word>, w: nat, n: Node)
    requires At(s, w, Image(n))
    ensures s[w] == n.lo && s[w + 1] == n.hi && s[w + 2] == n.flags && s[w + 3] == n.ksize
  {
    var img := s[w..w + |Image(n)|];
    assert img[0] == n.lo && img[1] == n.hi && img[2] == n.flags && img[3] == n.ksize;
  }

  lemma Sub<T>(s: seq<T>, lo: nat, hi: nat, a: nat, b: nat)
    requires lo <= hi <= |s| && a <= b <= hi - lo
    ensures s[lo..hi][a..b] == s[lo + a..lo + b]
  {
    forall k | 0 <= k < b - a ensures s[lo..hi][a..b][k] == s[lo + a..lo + b][k] {
      assert s[lo..hi][a + k] == s[lo + (a + k)];
    }
  }

  /** The words from lo up to hi stand d words further on in t: so does all they hold. */
  lemma AtMoved(s: seq<Word>, t: seq<Word>, lo: nat, hi: nat, d: int, w: nat, img: seq<Word>)
    requires At(s, w, img) && lo <= w && w + |img| <= hi <= |s| && 0 <= lo + d && hi + d <= |t|
    requires t[lo + d..hi + d] == s[lo..hi]
    ensures At(t, w + d, img)
  {
    Sub(s, lo, hi, w - lo, w - lo + |img|);
    Sub(t, lo + d, hi + d, w - lo, w - lo + |img|);
  }

  // ---------------------------------------------------------------- mdb_node_add

  /** The page after a node was put in at index i: pointers, bounds, the node, and the words that stay. */
  ghost predicate Added(s: seq<Word>, t: seq<Word>, n: nat, i: nat, img: seq<Word>)
    requires PTRS + n <= |s|
  {
    && |t| == |s| && i <= n && PTRS + n + 1 <= |s| && 2 * |img| <= s[UPPER] <= 2 * |s|
    && Raw(t, n + 1) == Insert(Raw(s, n), i, s[UPPER] - 2 * |img|)
    && t[LOWER] as int == s[LOWER] as int + 2 && t[UPPER] == s[UPPER] - 2 * |img| && t[LOWER] <= t[UPPER] && At(t, s[UPPER] / 2 - |img|, img)
    && t[s[UPPER] / 2..] == s[s[UPPER] / 2..] && t[..LOWER] == s[..LOWER]
    && PTRS + n + 1 <= s[UPPER] / 2 - |img|
    && t[PTRS + n + 1..s[UPPER] / 2 - |img|] == s[PTRS + n + 1..s[UPPER] / 2 - |img|]
  }

  lemma AddHolds(s: seq<Word>, t: seq<Word>, leaf: bool, nodes: seq<Node>, i: nat, node: Node)
    requires Holds(s, leaf, nodes) && WellFormed(leaf, node) && Added(s, t, |nodes|, i, Image(node))
    ensures Holds(t, leaf, Insert(nodes, i, node))
  {
    var n, up := |nodes|, s[UPPER] / 2;
    AddBody(s, t, leaf, nodes, Raw(s, n), Raw(t, n + 1), i, node, up);
    var raw := Raw(t, n + 1);
    assert Body(t, leaf, Insert(nodes, i, node), raw, t[UPPER] / 2);
  }

  lemma AddBody(s: seq<Word>, t: seq<Word>, leaf: bool, nodes: seq<Node>, raw: seq<nat>, raw2: seq<nat>, i: nat, node: Node, up: nat)
    requires Body(s, leaf, nodes, raw, up) && WellFormed(leaf, node) && i <= |nodes| && |Image(node)| <= up <= |s| == |t|
    requires |raw| == |nodes| && 2 * up < 0x1_0000 && raw2 == Insert(raw, i, 2 * (up - |Image(node)|))
    requires At(t, up - |Image(node)|, Image(node)) && t[up..] == s[up..]
    ensures Body(t, leaf, Insert(nodes, i, node), raw2, up - |Image(node)|)
  {
    var ws := Halves(raw);
    InsertEven(raw, i, 2 * (up - |Image(node)|));
    AddLayout(ws, nodes, up, |s|, i, node);
    AddContent(s, t, ws, nodes, i, node, up);
    InsertFormed(leaf, nodes, i, node);
  }

  lemma AddLayout(ws: seq<nat>, nodes: seq<Node>, up: nat, end: nat, i: nat, node: Node)
    requires Layout(ws, Sizes(nodes), up, end) && i <= |nodes| && |Image(node)| <= up
    ensures Layout(Insert(ws, i, up - |Image(node)|), Sizes(Insert(nodes, i, node)), up - |Image(node)|, end)
    ensures forall j :: 0 <= j < |ws| ==> ws[j] >= up
  {
    LayoutAdd(ws, Sizes(nodes), up, end, i, |Image(node)|);
    assert Sizes(Insert(nodes, i, node)) == Insert(Sizes(nodes), i, |Image(node)|);
    forall j | 0 <= j < |ws| ensures ws[j] >= up {
      assert Inside(ws[j], Sizes(nodes)[j], up, end);
    }
  }

  lemma InsertEven(r: seq<nat>, i: nat, x: nat)
    requires EvenAll(r) && x % 2 == 0 && i <= |r|
    ensures EvenAll(Insert(r, i, x)) && Halves(Insert(r, i, x)) == Insert(Halves(r), i, x / 2)
  {
  }

  lemma InsertFormed(leaf: bool, nodes: seq<Node>, i: nat, node: Node)
    requires AllFormed(leaf, nodes) && WellFormed(leaf, node) && i <= |nodes|
    ensures AllFormed(leaf, Insert(nodes, i, node))
  {
  }

  lemma AddContent(s: seq<Word>, t: seq<Word>, ws: seq<nat>, nodes: seq<Node>, i: nat, node: Node, up: nat)
    requires Content(s, ws, nodes) && |t| == |s| && i <= |nodes| && |Image(node)| <= up <= |s| && t[up..] == s[up..]
    requires At(t, up - |Image(node)|, Image(node)) && forall j :: 0 <= j < |ws| ==> ws[j] >= up
    ensures Content(t, Insert(ws, i, up - |Image(node)|), Insert(nodes, i, node))
  {
    var vs, more := Insert(ws, i, up - |Image(node)|), Insert(nodes, i, node);
    forall j | 0 <= j < |more| ensures At(t, vs[j], Image(more[j])) {
      if j != i {
        var m := if j < i then j else j - 1;
        assert At(s, ws[m], Image(nodes[m]));
        AtMoved(s, t, up, |s|, 0, ws[m], Image(nodes[m]));
      }
    }
  }

  /** mdb.c:6474-6476: pointers from slot indx on move up one slot. */
  method OpenPtr(a: array<Word>, indx: nat, n: nat, ofs: Word)
    requires indx <= n && PTRS + n < a.Length
    modifies a
    ensures Raw(a[..], n + 1) == Insert(old(Raw(a[..], n)), indx, ofs)
    ensures a[..PTRS] == old(a[..PTRS]) && a[PTRS + n + 1..] == old(a[PTRS + n + 1..])
  {
    ghost var s := a[..];
    var i := n;
    while i > indx
      invariant indx <= i <= n
      invariant a[..PTRS + i] == s[..PTRS + i] && a[PTRS + i + 1..PTRS + n + 1] == s[PTRS + i..PTRS + n]
      invariant a[PTRS + n + 1..] == s[PTRS + n + 1..]
    {
      assert a[PTRS + i - 1] == a[..PTRS + i][PTRS + i - 1];
      a[PTRS + i] := a[PTRS + i - 1];
      assert a[PTRS + i..PTRS + n + 1] == [a[PTRS + i]] + a[PTRS + i + 1..PTRS + n + 1];
      i := i - 1;
    }
    a[PTRS + indx] := ofs;
    Opened(s, a[..], indx, n, ofs);
  }

  lemma Opened(s: seq<Word>, t: seq<Word>, i: nat, n: nat, ofs: Word)
    requires i <= n && PTRS + n < |s| == |t| && t[..PTRS + i] == s[..PTRS + i] && t[PTRS + i] == ofs
    requires t[PTRS + i + 1..PTRS + n + 1] == s[PTRS + i..PTRS + n]
    ensures Raw(t, n + 1) == Insert(Raw(s, n), i, ofs) && t[..PTRS] == s[..PTRS]
  {
    assert t[PTRS..PTRS + n + 1] == t[..PTRS + i][PTRS..] + [t[PTRS + i]] + t[PTRS + i + 1..PTRS + n + 1];
    assert Raw(s, n)[..i] == s[..PTRS + i][PTRS..] && Raw(s, n)[i..] == s[PTRS + i..PTRS + n];
    assert t[..PTRS] == t[..PTRS + i][..PTRS] == s[..PTRS];
  }

  method SetBounds(a: array<Word>, lower: Word, upper: Word)
    requires PTRS <= a.Length
    modifies a
    ensures a[..] == old(a[..])[LOWER := lower][UPPER := upper]
  {
    a[LOWER], a[UPPER] := lower, upper;
  }

  /** memcpy into the page. */
  method WriteWords(a: array<Word>, w: nat, img: seq<Word>)
    requires w + |img| <= a.Length
    modifies a
    ensures a[..w] == old(a[..w]) && a[w..w + |img|] == img && a[w + |img|..] == old(a[w + |img|..])
  {
    forall x | 0 <= x < |img| { a[w + x] := img[x]; }
  }

  /** mdb.c:6473-6517: pointer, bounds and node are written. */
  method PutNode(a: array<Word>, indx: nat, n: nat, img: seq<Word>)
    requires indx <= n && PTRS + n + 1 <= a.Length <= 0x4000 && a[LOWER] == 16 + 2 * n && a[UPPER] % 2 == 0
    requires a[UPPER] <= 2 * a.Length && a[LOWER] as int + 2 * |img| + 2 <= a[UPPER] as int
    modifies a
    ensures Added(old(a[..]), a[..], n, indx, img)
  {
    ghost var s := a[..];
    var ofs := a[UPPER] - 2 * |img|;
    OpenPtr(a, indx, n, ofs);
    ghost var u := a[..];
    Bounds(s, u, u, n, |s|);
    SetBounds(a, a[LOWER] + 2, ofs);
    ghost var v := a[..];
    WriteWords(a, ofs / 2, img);
    Writing(s, u, v, a[..], n, indx, img);
  }

  /** mdb_node_add for a node that needs no new overflow page; false is MDB_PAGE_FULL. */
  method NodeAdd(a: array<Word>, leaf: bool, indx: nat, node: Node, ghost nodes: seq<Node>) returns (ok: bool)
    requires Holds(a[..], leaf, nodes) && indx <= |nodes| && WellFormed(leaf, node)
    modifies a
    ensures ok <==> 2 * |Image(node)| + 2 <= old(a[UPPER]) - old(a[LOWER])
    ensures ok ==> Added(old(a[..]), a[..], |nodes|, indx, Image(node)) && Holds(a[..], leaf, Insert(nodes, indx, node))
    ensures !ok ==> a[..] == old(a[..])
  {
    ghost var s := a[..];
    var room: int := a[UPPER] as int - a[LOWER] as int - 2;
    if 2 * |Image(node)| > room {
      return false;
    }
    ok := true;
    PutNode(a, indx, (a[LOWER] - 16) / 2, Image(node));
    AddHolds(s, a[..], leaf, nodes, indx, node);
  }

  lemma Writing(s: seq<Word>, u: seq<Word>, v: seq<Word>, t: seq<Word>, n: nat, i: nat, img: seq<Word>)
    requires |s| == |u| == |v| == |t| && i <= n && PTRS + n + 1 <= |s| && 2 * |img| <= s[UPPER] <= 2 * |s|
    requires s[LOWER] == 16 + 2 * n && s[UPPER] % 2 == 0 && s[LOWER] + 2 <= s[UPPER] - 2 * |img|
    requires Raw(u, n + 1) == Insert(Raw(s, n), i, s[UPPER] - 2 * |img|)
    requires u[..PTRS] == s[..PTRS] && u[PTRS + n + 1..] == s[PTRS + n + 1..]
    requires v == u[LOWER := s[LOWER] + 2][UPPER := s[UPPER] - 2 * |img|]
    requires var w := s[UPPER] / 2 - |img|; t[..w] == v[..w] && t[w..w + |img|] == img && t[w + |img|..] == v[w + |img|..]
    ensures Added(s, t, n, i, img)
  {
    var w, up, lo := s[UPPER] / 2 - |img|, s[UPPER] / 2, PTRS + n + 1;
    Prefix(v, t, w, n + 1);
    assert Raw(v, n + 1) == Raw(u, n + 1);
    SuffixOf(v, t, w + |img|, up);
    SuffixOf(s, u, lo, up);
    Sub(t, 0, w, lo, w);
    Sub(v, 0, w, lo, w);
    SuffixOf(s, u, lo, lo);
    Sub(u, lo, |u|, 0, w - lo);
    Sub(s, lo, |s|, 0, w - lo);
    assert v[lo..w] == u[lo..w] && v[up..] == u[up..] && v[..LOWER] == u[..LOWER];
    Sub(u, 0, PTRS, 0, LOWER);
    Sub(s, 0, PTRS, 0, LOWER);
  }

  /** What agrees from word lo on agrees from a later word on. */
  lemma SuffixOf(s: seq<Word>, t: seq<Word>, lo: nat, hi: nat)
    requires lo <= hi <= |s| == |t| && t[lo..] == s[lo..]
    ensures t[hi..] == s[hi..] && t[lo..|t|] == s[lo..|s|]
  {
    assert t[hi..] == t[lo..][hi - lo..] && s[hi..] == s[lo..][hi - lo..];
  }

  // ---------------------------------------------------------------- mdb_node_del

  /** Offsets below that of node i move up by sz. */
  function ClosedRaw(r: seq<nat>, i: nat, sz: nat): seq<nat>
    requires i < |r|
  {
    seq(|r|, j requires 0 <= j < |r| => if r[j] < r[i] then r[j] + sz else r[j])
  }

  lemma ClosedHalves(r: seq<nat>, i: nat, k: nat)
    requires EvenAll(r) && i < |r|
    ensures EvenAll(ClosedRaw(r, i, 2 * k)) && Halves(ClosedRaw(r, i, 2 * k)) == Closed(Halves(r), i, k)
  {
  }

  /** The page after node i of k words was taken out. */
  ghost predicate Cut(s: seq<Word>, t: seq<Word>, n: nat, i: nat, k: nat)
    requires PTRS + n <= |s| && i < n
  {
    var up, w := s[UPPER] / 2, s[PTRS + i] / 2;
    && |t| == |s| && up <= w && w + k <= |s|
    && Raw(t, n - 1) == Remove(ClosedRaw(Raw(s, n), i, 2 * k), i)
    && t[LOWER] as int == s[LOWER] as int - 2 && t[UPPER] == s[UPPER] + 2 * k
    && t[up + k..w + k] == s[up..w] && t[w + k..] == s[w + k..] && t[..LOWER] == s[..LOWER]
  }

  lemma CutHolds(s: seq<Word>, t: seq<Word>, leaf: bool, nodes: seq<Node>, i: nat)
    requires Holds(s, leaf, nodes) && i < |nodes| && Cut(s, t, |nodes|, i, |Image(nodes[i])|)
    ensures Holds(t, leaf, Remove(nodes, i))
  {
    var n, up := |nodes|, s[UPPER] / 2;
    CutBody(s, t, leaf, nodes, Raw(s, n), Raw(t, n - 1), i, up);
    var raw := Raw(t, n - 1);
    assert Body(t, leaf, Remove(nodes, i), raw, t[UPPER] / 2);
    LayoutEnd(Halves(Raw(s, n)), Sizes(nodes), up, |s|, i);
  }

  lemma LayoutEnd(ws: seq<nat>, sz: seq<nat>, up: nat, end: nat, i: nat)
    requires Layout(ws, sz, up, end) && i < |ws|
    ensures up + sz[i] <= end
  {
    assert Inside(ws[i], sz[i], up, end);
  }

  lemma CutBody(s: seq<Word>, t: seq<Word>, leaf: bool, nodes: seq<Node>, raw: seq<nat>, raw2: seq<nat>, i: nat, up: nat)
    requires Body(s, leaf, nodes, raw, up) && i < |nodes| == |raw| && |t| == |s|
    requires raw2 == Remove(ClosedRaw(raw, i, 2 * |Image(nodes[i])|), i)
    requires var k, w := |Image(nodes[i])|, raw[i] / 2;
      up <= w && w + k <= |s| && t[up + k..w + k] == s[up..w] && t[w + k..] == s[w + k..]
    ensures Body(t, leaf, Remove(nodes, i), raw2, up + |Image(nodes[i])|)
  {
    var ws, k := Halves(raw), |Image(nodes[i])|;
    ClosedHalves(raw, i, k);
    RemoveEven(ClosedRaw(raw, i, 2 * k), i);
    LayoutDel(ws, Sizes(nodes), up, |s|, i);
    assert Sizes(Remove(nodes, i)) == Remove(Sizes(nodes), i);
    CutContent(s, t, ws, nodes, i, up);
    RemoveFormed(leaf, nodes, i);
  }

  lemma RemoveEven(r: seq<nat>, i: nat)
    requires EvenAll(r) && i < |r|
    ensures EvenAll(Remove(r, i)) && Halves(Remove(r, i)) == Remove(Halves(r), i)
  {
  }

  lemma RemoveFormed(leaf: bool, nodes: seq<Node>, i: nat)
    requires AllFormed(leaf, nodes) && i < |nodes|
    ensures AllFormed(leaf, Remove(nodes, i))
  {
  }

  lemma CutContent(s: seq<Word>, t: seq<Word>, ws: seq<nat>, nodes: seq<Node>, i: nat, up: nat)
    requires Content(s, ws, nodes) && Layout(ws, Sizes(nodes), up, |s|) && i < |nodes| && |t| == |s|
    requires var k, w := |Image(nodes[i])|, ws[i];
      up <= w && w + k <= |s| && t[up + k..w + k] == s[up..w] && t[w + k..] == s[w + k..]
    ensures Content(t, Remove(Closed(ws, i, |Image(nodes[i])|), i), Remove(nodes, i))
  {
    var k := |Image(nodes[i])|;
    var vs, rest := Remove(Closed(ws, i, k), i), Remove(nodes, i);
    forall j | 0 <= j < |rest| ensures At(t, vs[j], Image(rest[j])) {
      var m := if j < i then j else j + 1;
      CutOne(s, t, ws, nodes, i, m, up);
    }
  }

  lemma CutOne(s: seq<Word>, t: seq<Word>, ws: seq<nat>, nodes: seq<Node>, i: nat, m: nat, up: nat)
    requires Content(s, ws, nodes) && Layout(ws, Sizes(nodes), up, |s|) && i < |nodes| && m < |nodes| && m != i && |t| == |s|
    requires var k, w := |Image(nodes[i])|, ws[i];
      up <= w && w + k <= |s| && t[up + k..w + k] == s[up..w] && t[w + k..] == s[w + k..]
    ensures At(t, Closed(ws, i, |Image(nodes[i])|)[m], Image(nodes[m]))
  {
    var k, w, sz := |Image(nodes[i])|, ws[i], Sizes(nodes);
    assert At(s, ws[m], Image(nodes[m])) && Inside(ws[m], sz[m], up, |s|);
    assert if m < i then Apart(ws[m], sz[m], ws[i], sz[i]) else Apart(ws[i], sz[i], ws[m], sz[m]);
    if ws[m] < w {
      AtMoved(s, t, up, w, k, ws[m], Image(nodes[m]));
    } else {
      assert t[w + k..|s|] == t[w + k..] && s[w + k..|s|] == s[w + k..];
      AtMoved(s, t, w + k, |s|, 0, ws[m], Image(nodes[m]));
    }
  }

  /** Loop state: pointers before slot i are done; node indx is left out. */
  ghost predicate Closing(t: seq<Word>, s: seq<Word>, cl: seq<nat>, indx: nat, n: nat, i: nat, j: nat) {
    && i <= n == |cl| && indx < n && PTRS + n <= |s| == |t| && j == (if i <= indx then i else i - 1)
    && t[PTRS..PTRS + j] == (if i <= indx then cl[..i] else cl[..indx] + cl[indx + 1..i])
    && t[PTRS + i..] == s[PTRS + i..] && t[..PTRS] == s[..PTRS]
  }

  lemma CloseOne(t: seq<Word>, s: seq<Word>, cl: seq<nat>, indx: nat, n: nat, i: nat, j: nat, x: Word)
    requires Closing(t, s, cl, indx, n, i, j) && i < n && i != indx && x == cl[i]
    ensures Closing(t[PTRS + j := x], s, cl, indx, n, i + 1, j + 1)
  {
    var u := t[PTRS + j := x];
    assert u[PTRS..PTRS + j + 1] == t[PTRS..PTRS + j] + [x];
    assert u[PTRS + i + 1..] == t[PTRS + i..][1..] && s[PTRS + i + 1..] == s[PTRS + i..][1..];
    assert u[..PTRS] == t[..PTRS];
  }

  lemma ClosingAt(t: seq<Word>, s: seq<Word>, cl: seq<nat>, indx: nat, n: nat, i: nat, j: nat)
    requires Closing(t, s, cl, indx, n, i, j) && i < n
    ensures t[PTRS + i] == Raw(s, n)[i]
  {
    assert t[PTRS + i] == t[PTRS + i..][0] == s[PTRS + i..][0];
  }

  lemma CloseSkip(t: seq<Word>, s: seq<Word>, cl: seq<nat>, indx: nat, n: nat, j: nat)
    requires Closing(t, s, cl, indx, n, indx, j)
    ensures Closing(t, s, cl, indx, n, indx + 1, j)
  {
    assert t[PTRS + indx + 1..] == t[PTRS + indx..][1..] && s[PTRS + indx + 1..] == s[PTRS + indx..][1..];
    assert cl[indx + 1..indx + 1] == [];
  }

  /** mdb.c:6570-6578 */
  method ClosePtrs(a: array<Word>, indx: nat, n: nat, ptr: Word, sz: nat)
    requires indx < n && PTRS + n <= a.Length && ptr == a[PTRS + indx]
    requires var cl := ClosedRaw(Raw(a[..], n), indx, sz); forall j :: 0 <= j < n ==> cl[j] < 0x1_0000
    modifies a
    ensures Raw(a[..], n - 1) == Remove(ClosedRaw(old(Raw(a[..], n)), indx, sz), indx)
    ensures a[..PTRS] == old(a[..PTRS]) && a[PTRS + n..] == old(a[PTRS + n..])
  {
    ghost var s := a[..];
    ghost var cl := ClosedRaw(Raw(s, n), indx, sz);
    var i, j := 0, 0;
    while i < n
      invariant Closing(a[..], s, cl, indx, n, i, j)
    {
      j := CloseStep(a, indx, n, i, j, ptr, sz, s, cl);
      i := i + 1;
    }
    ClosingDone(a[..], s, cl, indx, n, j);
  }

  lemma ClosingDone(t: seq<Word>, s: seq<Word>, cl: seq<nat>, indx: nat, n: nat, j: nat)
    requires Closing(t, s, cl, indx, n, n, j)
    ensures Raw(t, n - 1) == Remove(cl, indx) && t[..PTRS] == s[..PTRS] && t[PTRS + n..] == s[PTRS + n..]
  {
  }

  method CloseStep(a: array<Word>, indx: nat, n: nat, i: nat, j0: nat, ptr: Word, sz: nat, ghost s: seq<Word>, ghost cl: seq<nat>)
    returns (j: nat)
    requires Closing(a[..], s, cl, indx, n, i, j0) && i < n && cl == ClosedRaw(Raw(s, n), indx, sz) && ptr == Raw(s, n)[indx]
    requires cl[i] < 0x1_0000
    modifies a
    ensures Closing(a[..], s, cl, indx, n, i + 1, j)
  {
    ghost var t := a[..];
    ClosingAt(t, s, cl, indx, n, i, j0);
    j := j0;
    if i != indx {
      var x := if a[PTRS + i] < ptr then a[PTRS + i] + sz else a[PTRS + i];
      CloseOne(t, s, cl, indx, n, i, j, x);
      a[PTRS + j] := x;
      assert a[..] == t[PTRS + j := x];
      j := j + 1;
    } else {
      CloseSkip(t, s, cl, indx, n, j);
    }
  }

  /** memmove of n words. */
  method MoveWords(a: array<Word>, dst: nat, src: nat, n: nat)
    requires dst + n <= a.Length && src + n <= a.Length
    modifies a
    ensures a[..dst] == old(a[..dst]) && a[dst..dst + n] == old(a[src..src + n]) && a[dst + n..] == old(a[dst + n..])
  {
    forall x | 0 <= x < n { a[dst + x] := a[src + x]; }
  }

  /** The pointers that move up stay inside the page. */
  lemma ClosedFits(s: seq<Word>, leaf: bool, nodes: seq<Node>, i: nat)
    requires Holds(s, leaf, nodes) && i < |nodes|
    ensures var raw, k := Raw(s, |nodes|), |Image(nodes[i])|;
      && s[UPPER] <= raw[i] && raw[i] + 2 * k <= 2 * |s|
      && (forall j :: 0 <= j < |nodes| ==> ClosedRaw(raw, i, 2 * k)[j] < 0x1_0000)
  {
    var raw, sz := Raw(s, |nodes|), Sizes(nodes);
    var ws := Halves(raw);
    assert Inside(ws[i], sz[i], s[UPPER] / 2, |s|);
    forall j | 0 <= j < |nodes| ensures ClosedRaw(raw, i, 2 * sz[i])[j] < 0x1_0000 {
      assert Inside(ws[j], sz[j], s[UPPER] / 2, |s|);
    }
  }

  lemma HeaderOf(s: seq<Word>, leaf: bool, nodes: seq<Node>, i: nat)
    requires Holds(s, leaf, nodes) && i < |nodes|
    ensures var w := s[PTRS + i] / 2;
      && s[PTRS + i] % 2 == 0 && w + 4 <= |s| && At(s, w, Image(nodes[i]))
      && Words(leaf, s[w], s[w + 1], s[w + 2], s[w + 3]) == |Image(nodes[i])|
  {
    var raw := Raw(s, |nodes|);
    var w := Halves(raw)[i];
    assert raw[i] == s[PTRS + i];
    assert At(s, w, Image(nodes[i]));
    HeaderAt(s, w, nodes[i]);
  }

  /** mdb.c:6570-6584: the pointer goes, the nodes below it move up. */
  method CloseGap(a: array<Word>, indx: nat, n: nat, k: nat)
    requires indx < n && PTRS + n <= a.Length <= 0x4000 && a[LOWER] == 16 + 2 * n <= a[UPPER] && a[UPPER] % 2 == 0
    requires a[UPPER] <= a[PTRS + indx] && a[PTRS + indx] + 2 * k <= 2 * a.Length && a[PTRS + indx] % 2 == 0
    requires var cl := ClosedRaw(Raw(a[..], n), indx, 2 * k); forall j :: 0 <= j < n ==> cl[j] < 0x1_0000
    modifies a
    ensures Cut(old(a[..]), a[..], n, indx, k)
  {
    ghost var s := a[..];
    var ptr, up := a[PTRS + indx], a[UPPER] / 2;
    ClosePtrs(a, indx, n, ptr, 2 * k);
    ghost var u := a[..];
    Bounds(s, u, u, n, |s|);
    MoveUp(a, up, ptr / 2, k);
    Cutting(s, u, a[..], n, indx, k, up, ptr / 2);
  }

  /** mdb.c:6580-6584 */
  method MoveUp(a: array<Word>, up: nat, w: nat, k: nat)
    requires PTRS <= up <= w && w + k <= a.Length && a[LOWER] >= 2 && a[UPPER] + 2 * k < 0x1_0000
    modifies a
    ensures a[..up + k] == old(a[..up + k])[LOWER := old(a[LOWER]) - 2][UPPER := old(a[UPPER]) + 2 * k]
    ensures a[up + k..w + k] == old(a[up..w]) && a[w + k..] == old(a[w + k..])
  {
    MoveWords(a, up + k, up, w - up);
    ghost var v := a[..];
    assert v[..up + k][LOWER] == v[LOWER] && v[..up + k][UPPER] == v[UPPER];
    SetBounds(a, a[LOWER] - 2, a[UPPER] + 2 * k);
    assert a[up + k..w + k] == v[up + k..w + k] && a[w + k..] == v[w + k..];
  }

  lemma Bounds(s: seq<Word>, u: seq<Word>, v: seq<Word>, n: nat, hi: nat)
    requires PTRS + n <= hi <= |s| == |u| == |v| && u[..PTRS] == s[..PTRS] && v[..hi] == u[..hi]
    ensures v[LOWER] == u[LOWER] == s[LOWER] && v[UPPER] == u[UPPER] == s[UPPER]
  {
    assert u[LOWER] == u[..PTRS][LOWER] && u[UPPER] == u[..PTRS][UPPER];
    assert v[LOWER] == v[..hi][LOWER] && v[UPPER] == v[..hi][UPPER];
  }

  /** mdb_node_del on a page that is not LEAF2. */
  method NodeDel(a: array<Word>, leaf: bool, indx: nat, ghost nodes: seq<Node>)
    requires Holds(a[..], leaf, nodes) && indx < |nodes|
    modifies a
    ensures Cut(old(a[..]), a[..], |nodes|, indx, |Image(nodes[indx])|) && Holds(a[..], leaf, Remove(nodes, indx))
  {
    ghost var s := a[..];
    var n, w := (a[LOWER] - 16) / 2, a[PTRS + indx] / 2;
    HeaderOf(s, leaf, nodes, indx);
    ClosedFits(s, leaf, nodes, indx);
    var k := Words(leaf, a[w], a[w + 1], a[w + 2], a[w + 3]);
    assert n == |nodes| && k == |Image(nodes[indx])|;
    CloseGap(a, indx, n, k);
    assert Cut(s, a[..], |nodes|, indx, |Image(nodes[indx])|);
    CutHolds(s, a[..], leaf, nodes, indx);
  }

  lemma Cutting(s: seq<Word>, u: seq<Word>, t: seq<Word>, n: nat, i: nat, k: nat, up: nat, w: nat)
    requires i < n && PTRS + n <= |s| == |u| == |t| && s[LOWER] == 16 + 2 * n <= s[UPPER] && s[UPPER] % 2 == 0
    requires up == s[UPPER] / 2 && w == s[PTRS + i] / 2 && up <= w && w + k <= |s| <= 0x4000 && s[UPPER] + 2 * k < 0x1_0000
    requires Raw(u, n - 1) == Remove(ClosedRaw(Raw(s, n), i, 2 * k), i) && u[..PTRS] == s[..PTRS] && u[PTRS + n..] == s[PTRS + n..]
    requires t[..up + k] == u[..up + k][LOWER := s[LOWER] - 2][UPPER := s[UPPER] + 2 * k]
    requires t[up + k..w + k] == u[up..w] && t[w + k..] == u[w + k..]
    ensures Cut(s, t, n, i, k)
  {
    var lo, b := PTRS + n, u[..up + k];
    assert Raw(t, n - 1) == t[..up + k][PTRS..PTRS + (n - 1)] == b[PTRS..PTRS + (n - 1)] == Raw(u, n - 1);
    assert u[up..w] == u[lo..][up - lo..w - lo] == s[lo..][up - lo..w - lo] == s[up..w];
    assert u[w + k..] == u[lo..][w + k - lo..] == s[lo..][w + k - lo..] == s[w + k..];
    assert t[..LOWER] == t[..up + k][..LOWER] == b[..LOWER] == u[..PTRS][..LOWER] == s[..LOWER];
    assert t[LOWER] == t[..up + k][LOWER] && t[UPPER] == t[..up + k][UPPER];
  }

  // ---------------------------------------------------------------- mdb_update_key

  /** Offsets up to that of node i move down by delta, or up when it is negative. */
  function ShiftedRaw(r: seq<nat>, i: nat, delta: int): seq<nat>
    requires i < |r|
  {
    seq(|r|, j requires 0 <= j < |r| => if delta <= r[j] <= r[i] then r[j] - delta else r[j])
  }

  lemma ShiftedHalves(r: seq<nat>, i: nat, d: int)
    requires EvenAll(r) && i < |r|
    ensures EvenAll(ShiftedRaw(r, i, 2 * d)) && Halves(ShiftedRaw(r, i, 2 * d)) == Shifted(Halves(r), i, d)
  {
  }

  /** The page after node i of k words has become node img. */
  ghost predicate Resized(s: seq<Word>, t: seq<Word>, n: nat, i: nat, k: nat, img: seq<Word>)
    requires PTRS + n <= |s| && i < n
  {
    var up, w, d := s[UPPER] / 2, s[PTRS + i] / 2, |img| - k;
    && |t| == |s| && up <= w && w + k <= |s| && up >= d
    && Raw(t, n) == ShiftedRaw(Raw(s, n), i, 2 * d)
    && t[LOWER] == s[LOWER] && t[UPPER] == s[UPPER] - 2 * d && t[LOWER] <= t[UPPER]
    && t[up - d..w - d] == s[up..w] && At(t, w - d, img) && t[w + k..] == s[w + k..] && t[..LOWER] == s[..LOWER]
  }

  lemma ResizedHolds(s: seq<Word>, t: seq<Word>, leaf: bool, nodes: seq<Node>, i: nat, node: Node)
    requires Holds(s, leaf, nodes) && i < |nodes| && WellFormed(leaf, node)
    requires Resized(s, t, |nodes|, i, |Image(nodes[i])|, Image(node))
    ensures Holds(t, leaf, nodes[i := node])
  {
    var n, up := |nodes|, s[UPPER] / 2;
    ResizedBody(s, t, leaf, nodes, Raw(s, n), Raw(t, n), i, up, node);
    var raw := Raw(t, n);
    assert Body(t, leaf, nodes[i := node], raw, t[UPPER] / 2);
  }

  lemma ResizedBody(s: seq<Word>, t: seq<Word>, leaf: bool, nodes: seq<Node>, raw: seq<nat>, raw2: seq<nat>, i: nat, up: nat, node: Node)
    requires Body(s, leaf, nodes, raw, up) && i < |nodes| == |raw| && |t| == |s| && WellFormed(leaf, node)
    requires up + |Image(nodes[i])| >= |Image(node)| && raw2 == ShiftedRaw(raw, i, 2 * (|Image(node)| - |Image(nodes[i])|))
    requires Moving(s, t, up, raw[i] / 2, |Image(nodes[i])|, Image(node))
    ensures Body(t, leaf, nodes[i := node], raw2, up + |Image(nodes[i])| - |Image(node)|)
  {
    var ws, k := Halves(raw), |Image(nodes[i])|;
    ShiftedHalves(raw, i, |Image(node)| - k);
    LayoutResize(ws, Sizes(nodes), up, |s|, i, |Image(node)|);
    assert Sizes(nodes[i := node]) == Sizes(nodes)[i := |Image(node)|];
    ResizedContent(s, t, ws, nodes, i, up, node);
  }

  /** Words up to w, and those behind w + k, are where they belong; the new node is between them. */
  ghost predicate Moving(s: seq<Word>, t: seq<Word>, up: nat, w: nat, k: nat, img: seq<Word>) {
    var d := |img| - k;
    && |t| == |s| && up <= w && w + k <= |s| && up >= d
    && t[up - d..w - d] == s[up..w] && At(t, w - d, img) && t[w + k..] == s[w + k..]
  }

  lemma ResizedContent(s: seq<Word>, t: seq<Word>, ws: seq<nat>, nodes: seq<Node>, i: nat, up: nat, node: Node)
    requires Content(s, ws, nodes) && Layout(ws, Sizes(nodes), up, |s|) && i < |nodes|
    requires Moving(s, t, up, ws[i], |Image(nodes[i])|, Image(node))
    ensures Content(t, Shifted(ws, i, |Image(node)| - |Image(nodes[i])|), nodes[i := node])
  {
    var vs, more := Shifted(ws, i, |Image(node)| - |Image(nodes[i])|), nodes[i := node];
    forall m | 0 <= m < |more| ensures At(t, vs[m], Image(more[m])) {
      if m != i {
        ResizedOne(s, t, ws, nodes, i, m, up, Image(node));
      }
    }
  }

  lemma ResizedOne(s: seq<Word>, t: seq<Word>, ws: seq<nat>, nodes: seq<Node>, i: nat, m: nat, up: nat, img: seq<Word>)
    requires Content(s, ws, nodes) && Layout(ws, Sizes(nodes), up, |s|) && i < |nodes| && m < |nodes| && m != i
    requires Moving(s, t, up, ws[i], |Image(nodes[i])|, img)
    ensures At(t, Shifted(ws, i, |img| - |Image(nodes[i])|)[m], Image(nodes[m]))
  {
    var k, w, sz := |Image(nodes[i])|, ws[i], Sizes(nodes);
    assert At(s, ws[m], Image(nodes[m])) && Inside(ws[m], sz[m], up, |s|) && Inside(ws[i], sz[i], up, |s|);
    assert if m < i then Apart(ws[m], sz[m], ws[i], sz[i]) else Apart(ws[i], sz[i], ws[m], sz[m]);
    if ws[m] < w {
      AtMoved(s, t, up, w, k - |img|, ws[m], Image(nodes[m]));
    } else {
      assert t[w + k..|s|] == t[w + k..] && s[w + k..|s|] == s[w + k..];
      AtMoved(s, t, w + k, |s|, 0, ws[m], Image(nodes[m]));
    }
  }

  /** mdb.c:6898-6902 */
  method ShiftPtrs(a: array<Word>, indx: nat, n: nat, delta: int)
    requires indx < n && PTRS + n <= a.Length
    requires var raw := Raw(a[..], n); forall j :: 0 <= j < n && raw[j] <= raw[indx] ==> 0 <= raw[j] - delta < 0x1_0000
    modifies a
    ensures Raw(a[..], n) == ShiftedRaw(old(Raw(a[..], n)), indx, delta)
    ensures a[..PTRS] == old(a[..PTRS]) && a[PTRS + n..] == old(a[PTRS + n..])
  {
    ghost var s := a[..];
    ghost var sh := ShiftedRaw(Raw(s, n), indx, delta);
    var ptr, i := a[PTRS + indx], 0;
    assert ptr == Raw(s, n)[indx];
    while i < n
      invariant i <= n && a[PTRS..PTRS + i] == sh[..i] && a[PTRS + i..] == s[PTRS + i..] && a[..PTRS] == s[..PTRS]
    {
      ghost var t := a[..];
      assert a[PTRS + i] == t[PTRS + i..][0] == s[PTRS + i..][0] == s[PTRS + i] == Raw(s, n)[i];
      if a[PTRS + i] <= ptr {
        a[PTRS + i] := a[PTRS + i] - delta;
      }
      ShiftNext(t, a[..], s, sh, i);
      i := i + 1;
    }
  }

  lemma ShiftNext(t: seq<Word>, u: seq<Word>, s: seq<Word>, sh: seq<nat>, i: nat)
    requires i < |sh| && PTRS + i < |s| == |t| == |u| && u == t[PTRS + i := u[PTRS + i]] && u[PTRS + i] == sh[i]
    requires t[PTRS..PTRS + i] == sh[..i] && t[PTRS + i..] == s[PTRS + i..] && t[..PTRS] == s[..PTRS]
    ensures u[PTRS..PTRS + i + 1] == sh[..i + 1] && u[PTRS + i + 1..] == s[PTRS + i + 1..] && u[..PTRS] == s[..PTRS]
  {
    assert u[PTRS..PTRS + i + 1] == t[PTRS..PTRS + i] + [u[PTRS + i]];
    assert u[PTRS + i + 1..] == t[PTRS + i..][1..] && s[PTRS + i + 1..] == s[PTRS + i..][1..];
    assert u[..PTRS] == t[..PTRS];
  }

  /** The nodes below node i and its own header have moved down by d words, or up when d is negative. */
  ghost predicate Slid(s: seq<Word>, t: seq<Word>, n: nat, i: nat, d: int, k: nat)
    requires PTRS + n <= |s| && i < n
  {
    var up, w := s[UPPER] / 2, s[PTRS + i] / 2;
    && |t| == |s| && up <= w && w + k <= |s| && up >= d && k >= 4 && d + k >= 4 && PTRS + n <= up - d
    && Raw(t, n) == ShiftedRaw(Raw(s, n), i, 2 * d) && t[LOWER] == s[LOWER] && t[UPPER] == s[UPPER] - 2 * d
    && t[up - d..w - d + 4] == s[up..w + 4] && t[w + k..] == s[w + k..] && t[..LOWER] == s[..LOWER]
  }

  /** mdb.c:6898-6909 */
  method Slide(a: array<Word>, indx: nat, n: nat, d: int, k: nat)
    requires indx < n && PTRS + n <= a.Length <= 0x4000 && a[LOWER] == 16 + 2 * n && a[UPPER] % 2 == 0 && k >= 4 && d + k >= 4
    requires var ptr := a[PTRS + indx]; a[UPPER] <= ptr && ptr % 2 == 0 && ptr + 2 * k <= 2 * a.Length
    requires a[LOWER] as int <= a[UPPER] as int - 2 * d && a[LOWER] <= a[UPPER]
    requires var raw := Raw(a[..], n); forall j :: 0 <= j < n && raw[j] <= raw[indx] ==> 0 <= raw[j] - 2 * d < 0x1_0000
    modifies a
    ensures Slid(old(a[..]), a[..], n, indx, d, k)
  {
    ghost var s := a[..];
    var up, w := a[UPPER] / 2, a[PTRS + indx] / 2;
    ShiftPtrs(a, indx, n, 2 * d);
    ghost var u := a[..];
    Bounds(s, u, u, n, |s|);
    SlideNodes(a, up, w, d);
    Sliding(s, u, a[..], n, indx, d, k, up, w);
  }

  /** mdb.c:6904-6907 */
  method SlideNodes(a: array<Word>, up: nat, w: nat, d: int)
    requires PTRS <= up <= w && PTRS <= up - d && w + 4 <= a.Length && w - d + 4 <= a.Length && 0 <= a[UPPER] - 2 * d < 0x1_0000
    modifies a
    ensures a[..up - d] == old(a[..up - d])[UPPER := old(a[UPPER]) - 2 * d]
    ensures a[up - d..w - d + 4] == old(a[up..w + 4]) && a[w - d + 4..] == old(a[w - d + 4..])
  {
    MoveWords(a, up - d, up, w - up + 4);
    ghost var v := a[..];
    assert v[..up - d][UPPER] == v[UPPER];
    a[UPPER] := a[UPPER] - 2 * d;
    assert a[up - d..w - d + 4] == v[up - d..w - d + 4] && a[w - d + 4..] == v[w - d + 4..];
  }

  lemma Sliding(s: seq<Word>, u: seq<Word>, t: seq<Word>, n: nat, i: nat, d: int, k: nat, up: nat, w: nat)
    requires i < n && PTRS + n <= |s| == |u| == |t| <= 0x4000 && s[LOWER] == 16 + 2 * n && s[UPPER] % 2 == 0
    requires up == s[UPPER] / 2 && w == s[PTRS + i] / 2 && up <= w && w + k <= |s| && PTRS + n <= up - d && PTRS + n <= up
    requires k >= 4 && d + k >= 4 && 0 <= s[UPPER] - 2 * d < 0x1_0000
    requires Raw(u, n) == ShiftedRaw(Raw(s, n), i, 2 * d) && u[..PTRS] == s[..PTRS] && u[PTRS + n..] == s[PTRS + n..]
    requires t[..up - d] == u[..up - d][UPPER := s[UPPER] - 2 * d]
    requires t[up - d..w - d + 4] == u[up..w + 4] && t[w - d + 4..] == u[w - d + 4..]
    ensures Slid(s, t, n, i, d, k)
  {
    var lo, b := PTRS + n, u[..up - d];
    assert Raw(t, n) == t[..up - d][PTRS..lo] == b[PTRS..lo] == Raw(u, n);
    assert u[up..w + 4] == u[lo..][up - lo..w + 4 - lo] == s[lo..][up - lo..w + 4 - lo] == s[up..w + 4];
    assert t[w + k..] == t[w - d + 4..][k + d - 4..] == u[w - d + 4..][k + d - 4..] == u[w + k..];
    assert u[w + k..] == u[lo..][w + k - lo..] == s[lo..][w + k - lo..] == s[w + k..];
    assert t[..LOWER] == t[..up - d][..LOWER] == b[..LOWER] == u[..PTRS][..LOWER] == s[..LOWER];
    assert t[LOWER] == t[..up - d][LOWER] == b[LOWER] == u[..PTRS][LOWER] && t[UPPER] == t[..up - d][UPPER];
  }

  lemma NotSlid(s: seq<Word>, n: nat, i: nat, k: nat)
    requires i < n && PTRS + n <= |s| && PTRS + n <= s[UPPER] / 2 <= s[PTRS + i] / 2 && s[PTRS + i] / 2 + k <= |s| && k >= 4
    ensures Slid(s, s, n, i, 0, k)
  {
    assert ShiftedRaw(Raw(s, n), i, 0) == Raw(s, n);
  }

  /** The slid header with the new key size, and the new key behind it. */
  lemma NewImage(v: seq<Word>, t: seq<Word>, head: seq<Word>, img: seq<Word>, x: nat)
    requires |head| == 4 <= |img| && x + |img| <= |v| == |t| && v[x..x + 4] == head && img[..3] == head[..3]
    requires t[..x + 3] == v[..x + 3] && t[x + 3..x + |img|] == img[3..]
    ensures At(t, x, img)
  {
    assert t[x..x + 3] == t[..x + 3][x..] == v[x..x + 4][..3];
    assert t[x..x + |img|] == t[x..x + 3] + t[x + 3..x + |img|];
    assert img == img[..3] + img[3..];
  }

  lemma NewKey(s: seq<Word>, v: seq<Word>, t: seq<Word>, n: nat, i: nat, k: nat, img: seq<Word>, up: nat, w: nat, x: nat)
    requires i < n && PTRS + n <= |s| && s[UPPER] == 2 * up && w == s[PTRS + i] / 2 && |img| >= 4 && s[LOWER] == 16 + 2 * n
    requires Slid(s, v, n, i, |img| - k, k) && |t| == |v| && x == w + k - |img| && At(t, x, img)
    requires t[..x + 3] == v[..x + 3] && t[x + |img|..] == v[x + |img|..]
    ensures Resized(s, t, n, i, k, img)
  {
    Prefix(v, t, x + 3, n);
    KeptBelow(s, v, t, up, w, |img| - k, x);
  }

  /** Pages that agree up to word hi agree on header and pointers. */
  lemma Prefix(v: seq<Word>, t: seq<Word>, hi: nat, n: nat)
    requires PTRS + n <= hi <= |v| && |t| == |v| && t[..hi] == v[..hi]
    ensures Raw(t, n) == Raw(v, n) && t[..LOWER] == v[..LOWER] && t[LOWER] == v[LOWER] && t[UPPER] == v[UPPER]
  {
    Sub(t, 0, hi, PTRS, PTRS + n);
    Sub(v, 0, hi, PTRS, PTRS + n);
    Sub(t, 0, hi, 0, LOWER);
    Sub(v, 0, hi, 0, LOWER);
    assert t[LOWER] == t[..hi][LOWER] && t[UPPER] == t[..hi][UPPER];
  }

  lemma KeptBelow(s: seq<Word>, v: seq<Word>, t: seq<Word>, up: nat, w: nat, d: int, x: nat)
    requires |t| == |v| == |s| && up <= w && w + 4 <= |s| && d <= up && x == w - d && x + 4 <= |v|
    requires v[up - d..w - d + 4] == s[up..w + 4] && t[..x + 3] == v[..x + 3]
    ensures t[up - d..x] == s[up..w]
  {
    Sub(t, 0, x + 3, up - d, x);
    Sub(v, 0, x + 3, up - d, x);
    Sub(v, up - d, w - d + 4, 0, w - up);
    Sub(s, up, w + 4, 0, w - up);
  }

  lemma SlidHeader(s: seq<Word>, v: seq<Word>, n: nat, i: nat, d: int, k: nat, up: nat, w: nat)
    requires i < n && PTRS + n <= |s| && up == s[UPPER] / 2 && w == s[PTRS + i] / 2 && Slid(s, v, n, i, d, k)
    requires s[PTRS + i] % 2 == 0
    ensures v[w - d..w - d + 4] == s[w..w + 4] && v[PTRS + i] == s[PTRS + i] - 2 * d
  {
    Sub(v, up - d, w - d + 4, w - up, w - up + 4);
    Sub(s, up, w + 4, w - up, w - up + 4);
    assert Raw(v, n)[i] == v[PTRS + i] && Raw(s, n)[i] == s[PTRS + i];
  }

  lemma SlideFits(s: seq<Word>, leaf: bool, nodes: seq<Node>, i: nat, d: int)
    requires Holds(s, leaf, nodes) && i < |nodes| && s[LOWER] as int <= s[UPPER] as int - 2 * d && d + |Image(nodes[i])| >= 4
    ensures var raw := Raw(s, |nodes|);
      forall j :: 0 <= j < |nodes| && raw[j] <= raw[i] ==> 0 <= raw[j] - 2 * d < 0x1_0000
  {
    var raw, sz := Raw(s, |nodes|), Sizes(nodes);
    var ws := Halves(raw);
    assert Inside(ws[i], sz[i], s[UPPER] / 2, |s|);
    forall j | 0 <= j < |nodes| && raw[j] <= raw[i] ensures 0 <= raw[j] - 2 * d < 0x1_0000 {
      assert Inside(ws[j], sz[j], s[UPPER] / 2, |s|);
    }
  }

  /** The key size and the key are written. */
  method WriteKey(a: array<Word>, x: nat, ksize: Word, body: seq<Word>)
    requires x + 4 + |body| <= a.Length
    modifies a
    ensures a[..x + 3] == old(a[..x + 3]) && a[x + 3..x + 4 + |body|] == [ksize] + body
    ensures a[x + 4 + |body|..] == old(a[x + 4 + |body|..])
  {
    WriteWords(a, x + 3, [ksize] + body);
  }

  method SlideIfNeeded(a: array<Word>, indx: nat, n: nat, d: int, k: nat)
    requires indx < n && PTRS + n <= a.Length <= 0x4000 && a[LOWER] == 16 + 2 * n && a[UPPER] % 2 == 0 && k >= 4 && d + k >= 4
    requires var ptr := a[PTRS + indx]; a[UPPER] <= ptr && ptr % 2 == 0 && ptr + 2 * k <= 2 * a.Length
    requires a[LOWER] as int <= a[UPPER] as int - 2 * d && a[LOWER] <= a[UPPER]
    requires var raw := Raw(a[..], n); forall j :: 0 <= j < n && raw[j] <= raw[indx] ==> 0 <= raw[j] - 2 * d < 0x1_0000
    modifies a
    ensures Slid(old(a[..]), a[..], n, indx, d, k)
  {
    if d != 0 {
      Slide(a, indx, n, d, k);
    } else {
      NotSlid(a[..], n, indx, k);
    }
  }

  /** mdb.c:6888-6917 */
  method ReplaceKey(a: array<Word>, indx: nat, n: nat, k: nat, ksize: Word, body: seq<Word>, ghost img: seq<Word>)
    requires indx < n && PTRS + n <= a.Length <= 0x4000 && a[LOWER] == 16 + 2 * n <= a[UPPER] && a[UPPER] % 2 == 0 && k >= 4
    requires var ptr := a[PTRS + indx]; a[UPPER] <= ptr && ptr % 2 == 0 && ptr + 2 * k <= 2 * a.Length
    requires |img| == 4 + |body| && img[3..] == [ksize] + body && img[..3] == a[a[PTRS + indx] / 2..a[PTRS + indx] / 2 + 4][..3]
    requires a[LOWER] as int <= a[UPPER] as int - 2 * (|img| - k)
    requires var raw := Raw(a[..], n);
      forall j :: 0 <= j < n && raw[j] <= raw[indx] ==> 0 <= raw[j] - 2 * (|img| - k) < 0x1_0000
    modifies a
    ensures Resized(old(a[..]), a[..], n, indx, k, img)
  {
    ghost var s := a[..];
    var d, w := 4 + |body| - k, a[PTRS + indx] / 2;
    SlideIfNeeded(a, indx, n, d, k);
    SlidHeader(s, a[..], n, indx, d, k, s[UPPER] / 2, w);
    PutKey(a, indx, n, k, ksize, body, img, s, w);
  }

  /** mdb.c:6912-6917 */
  method PutKey(a: array<Word>, indx: nat, n: nat, k: nat, ksize: Word, body: seq<Word>, ghost img: seq<Word>, ghost s: seq<Word>, ghost w: nat)
    requires indx < n && PTRS + n <= |s| == a.Length && s[LOWER] == 16 + 2 * n && s[UPPER] % 2 == 0 && s[PTRS + indx] == 2 * w
    requires Slid(s, a[..], n, indx, |img| - k, k) && |img| == 4 + |body| && img[3..] == [ksize] + body && img[..3] == s[w..w + 4][..3]
    requires a[PTRS + indx] == 2 * (w + k - |img|) && a[w + k - |img|..w + k - |img| + 4] == s[w..w + 4]
    modifies a
    ensures Resized(s, a[..], n, indx, k, img)
  {
    ghost var v := a[..];
    var x := a[PTRS + indx] / 2;
    WriteKey(a, x, ksize, body);
    NewImage(v, a[..], s[w..w + 4], img, x);
    NewKey(s, v, a[..], n, indx, k, img, s[UPPER] / 2, w, x);
  }

  /**
   * mdb_update_key, up to the case where the page has no room for a longer key and the source goes on to delete the
   * node and split: false, and the page is as it was.  body holds the bytes of the new key.
   */
  method UpdateKey(a: array<Word>, indx: nat, ksize: Word, body: seq<Word>, ghost nodes: seq<Node>) returns (ok: bool)
    requires Holds(a[..], false, nodes) && indx < |nodes| && |body| == (ksize + 1) / 2
    modifies a
    ensures ok <==> 2 * (4 + |body|) <= 2 * |Image(nodes[indx])| + (old(a[UPPER]) as int - old(a[LOWER]) as int)
    ensures ok ==> var node := nodes[indx].(ksize := ksize, body := body);
      && Resized(old(a[..]), a[..], |nodes|, indx, |Image(nodes[indx])|, Image(node)) && Holds(a[..], false, nodes[indx := node])
    ensures !ok ==> a[..] == old(a[..])
  {
    ghost var s := a[..];
    ok := true;
    var n, w, room := (a[LOWER] - 16) / 2, a[PTRS + indx] / 2, a[UPPER] as int - a[LOWER] as int;
    HeaderOf(s, false, nodes, indx);
    ghost var node := nodes[indx].(ksize := ksize, body := body);
    var k, d := Words(false, a[w], a[w + 1], a[w + 2], a[w + 3]), (ksize + 1) / 2 - (a[w + 3] + 1) / 2;
    if d > 0 && room < 2 * d {
      return false;
    }
    FitKey(a, indx, n, k, ksize, body, nodes, node);
  }

  /** The page has room for the new key. */
  method FitKey(a: array<Word>, indx: nat, n: nat, k: nat, ksize: Word, body: seq<Word>, ghost nodes: seq<Node>, ghost node: Node)
    requires Holds(a[..], false, nodes) && indx < |nodes| == n && k == |Image(nodes[indx])| && |body| == (ksize + 1) / 2
    requires node == nodes[indx].(ksize := ksize, body := body) && a[LOWER] as int <= a[UPPER] as int - 2 * (|Image(node)| - k)
    modifies a
    ensures Resized(old(a[..]), a[..], n, indx, k, Image(node)) && Holds(a[..], false, nodes[indx := node])
  {
    ghost var s := a[..];
    ReadyToReplace(s, nodes, indx, node, |Image(node)| - k);
    ReplaceKey(a, indx, n, k, ksize, body, Image(node));
    ghost var t := a[..];
    assert Resized(s, t, n, indx, k, Image(node));
    ResizedHolds(s, t, false, nodes, indx, node);
  }

  lemma ReadyToReplace(s: seq<Word>, nodes: seq<Node>, i: nat, node: Node, d: int)
    requires Holds(s, false, nodes) && i < |nodes| && node == nodes[i].(ksize := node.ksize, body := node.body)
    requires d == |Image(node)| - |Image(nodes[i])| && s[LOWER] as int <= s[UPPER] as int - 2 * d
    ensures var raw, w := Raw(s, |nodes|), s[PTRS + i] / 2;
      && s[UPPER] <= s[PTRS + i] && s[PTRS + i] + 2 * |Image(nodes[i])| <= 2 * |s| && s[PTRS + i] % 2 == 0
      && Image(node)[3..] == [node.ksize] + node.body && Image(node)[..3] == s[w..w + 4][..3]
      && forall j :: 0 <= j < |nodes| && raw[j] <= raw[i] ==> 0 <= raw[j] - 2 * d < 0x1_0000
  {
    var w := s[PTRS + i] / 2;
    HeaderOf(s, false, nodes, i);
    HeaderAt(s, w, nodes[i]);
    ClosedFits(s, false, nodes, i);
    SlideFits(s, false, nodes, i, d);
    assert Raw(s, |nodes|)[i] == s[PTRS + i];
    assert s[w..w + 4] == [nodes[i].lo, nodes[i].hi, nodes[i].flags, nodes[i].ksize];
  }
}
