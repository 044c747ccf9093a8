/**
 * mdb_page_split's move of the nodes.  The temporary page is at once the list of pointers still to be read and the
 * page that the left half is built on.
 */
module SplitMove {
  import opened SplitPoint
  import opened PageLayout
  import opened SlottedPage

  /** On a branch page the first node has no key. */
  function NoKey(leaf: bool, first: bool, n: Node): Node {
    if !leaf && first then n.(ksize := 0, body := []) else n
  }

  /** A page's worth of nodes as they are put on a new page. */
  function Fresh(leaf: bool, nodes: seq<Node>): seq<Node> {
    if |nodes| == 0 then [] else [NoKey(leaf, true, nodes[0])] + nodes[1..]
  }

  /** What the nodes take of a page, with their pointers (bytes). */
  function Footprint(nodes: seq<Node>): nat { 2 * Sum(Sizes(nodes)) + 2 * |nodes| }

  lemma NoKeyFormed(leaf: bool, first: bool, n: Node)
    requires WellFormed(leaf, n)
    ensures WellFormed(leaf, NoKey(leaf, first, n)) && |Image(NoKey(leaf, first, n))| <= |Image(n)|
  {
  }

  lemma FreshNext(leaf: bool, nodes: seq<Node>, j: nat)
    requires j < |nodes|
    ensures Fresh(leaf, nodes[..j + 1]) == Fresh(leaf, nodes[..j]) + [NoKey(leaf, j == 0, nodes[j])]
  {
    if j > 0 { assert nodes[..j + 1][1..] == nodes[..j][1..] + [nodes[j]]; }
  }

  lemma FootprintNext(a: seq<Node>, n: Node)
    ensures Footprint(a + [n]) == Footprint(a) + 2 * |Image(n)| + 2
  {
    assert Sizes(a + [n]) == Sizes(a) + [|Image(n)|];
    SumCat(Sizes(a), [|Image(n)|]);
    SumOne(|Image(n)|);
  }

  /** Free bytes on a page follow from its nodes. */
  lemma RoomLeft(s: seq<Word>, leaf: bool, nodes: seq<Node>)
    requires Holds(s, leaf, nodes)
    ensures s[UPPER] as int - s[LOWER] as int == 2 * |s| - 16 - Footprint(nodes)
  {
  }

  /** p lists the pointers of the old page with a gap at newindx. */
  ghost predicate Listed(p: seq<Word>, raw: seq<Word>, newindx: nat) {
    |p| == |raw| + 1 && newindx <= |raw| && p[..newindx] == raw[..newindx] && p[newindx + 1..] == raw[newindx..]
  }

  /** The pointers from j up to split have not been overwritten. */
  ghost predicate Unread(t: seq<Word>, p: seq<Word>, j: nat, split: nat) {
    split <= |p| && PTRS + |p| <= |t| && forall x :: PTRS + j <= x < PTRS + split ==> t[x] == p[x - PTRS]
  }

  /** The pointers from j up to split have not been overwritten, as far as they lie below the nodes. */
  ghost predicate Survive(t: seq<Word>, p: seq<Word>, j: nat, split: nat) {
    && split <= |p| && PTRS + |p| <= |t|
    && forall x :: PTRS + j <= x < PTRS + split && x < t[UPPER] / 2 ==> t[x] == p[x - PTRS]
  }

  /** The node that comes at position i: the new one, or the one of the old page that the pointer leads to. */
  method Fetch(mp: array<Word>, copy: array<Word>, leaf: bool, i: nat, newindx: nat, node: Node, ghost nodes: seq<Node>, ghost p: seq<Word>)
    returns (n: Node)
    requires Holds(mp[..], leaf, nodes) && newindx <= |nodes| && i <= |nodes| && PTRS + i < copy.Length
    requires Listed(p, Raw(mp[..], |nodes|), newindx) && (i != newindx ==> copy[PTRS + i] == p[i])
    ensures n == Insert(nodes, newindx, node)[i]
  {
    if i == newindx {
      return node;
    }
    ghost var m := if i < newindx then i else i - 1;
    ListedAt(p, Raw(mp[..], |nodes|), newindx, i);
    n := ReadNode(mp, leaf, copy[PTRS + i], m, nodes);
  }

  lemma ListedAt(p: seq<Word>, raw: seq<Word>, newindx: nat, i: nat)
    requires Listed(p, raw, newindx) && i < |p| && i != newindx
    ensures p[i] == raw[if i < newindx then i else i - 1]
  {
    if i < newindx {
      assert p[i] == p[..newindx][i];
    } else {
      assert p[i] == p[newindx + 1..][i - newindx - 1];
    }
  }

  /** The node at a pointer. */
  method ReadNode(mp: array<Word>, leaf: bool, ptr: Word, ghost m: nat, ghost nodes: seq<Node>) returns (n: Node)
    requires Holds(mp[..], leaf, nodes) && m < |nodes| && ptr == mp[PTRS + m]
    ensures n == nodes[m]
  {
    HeaderOf(mp[..], leaf, nodes, m);
    var w := ptr / 2;
    var k := Words(leaf, mp[w], mp[w + 1], mp[w + 2], mp[w + 3]);
    n := Node(mp[w], mp[w + 1], mp[w + 2], mp[w + 3], mp[w + 4..w + k]);
    ReadAt(mp[..], w, k, nodes[m]);
  }

  lemma ReadAt(s: seq<Word>, w: nat, k: nat, n: Node)
    requires At(s, w, Image(n)) && |Image(n)| == k
    ensures Node(s[w], s[w + 1], s[w + 2], s[w + 3], s[w + 4..w + k]) == n
  {
    HeaderAt(s, w, n);
    Sub(s, w, w + k, 4, k);
    assert n.body == Image(n)[4..k];
  }

  /** Appending one node; on the page that lists unread pointers those below the node survive. */
  method Append(a: array<Word>, leaf: bool, j: nat, node: Node, ghost have: seq<Node>, ghost p: seq<Word>, ghost split: nat) returns (ok: bool)
    requires Holds(a[..], leaf, have) && |have| == j && WellFormed(leaf, node)
    requires j < split ==> Survive(a[..], p, j, split)
    modifies a
    ensures ok <==> Footprint(have + [NoKey(leaf, j == 0, node)]) + 16 <= 2 * a.Length
    ensures ok ==> Holds(a[..], leaf, have + [NoKey(leaf, j == 0, node)])
    ensures ok && j < split ==> Survive(a[..], p, j + 1, split)
    ensures ok ==> a[UPPER] == a[PTRS + j]
  {
    ghost var s := a[..];
    var n := NoKey(leaf, j == 0, node);
    NoKeyFormed(leaf, j == 0, node);
    RoomLeft(s, leaf, have);
    FootprintNext(have, n);
    ok := NodeAdd(a, leaf, j, n, have);
    if ok {
      assert Insert(have, j, n) == have + [n];
      LastPointer(s, a[..], j, Image(n));
      if j < split { StillUnread(s, a[..], p, j, split, Image(n)); }
    }
  }

  lemma LastPointer(s: seq<Word>, t: seq<Word>, j: nat, img: seq<Word>)
    requires PTRS + j <= |s| && Added(s, t, j, j, img)
    ensures t[UPPER] == t[PTRS + j]
  {
    assert Raw(t, j + 1)[j] == t[PTRS + j];
  }

  /** Adding a node to the page that lists the pointers overwrites none that lies below the node. */
  lemma StillUnread(s: seq<Word>, t: seq<Word>, p: seq<Word>, j: nat, split: nat, img: seq<Word>)
    requires PTRS + j <= |s| && Added(s, t, j, j, img) && j < split && Survive(s, p, j, split)
    ensures Survive(t, p, j + 1, split)
  {
    var w := s[UPPER] / 2 - |img|;
    forall x | PTRS + j + 1 <= x < PTRS + split && x < t[UPPER] / 2 ensures t[x] == p[x - PTRS] {
      assert t[x] == t[PTRS + j + 1..w][x - (PTRS + j + 1)] == s[PTRS + j + 1..w][x - (PTRS + j + 1)] == s[x];
    }
  }

  // ---------------------------------------------------------------- the loop

  /** mdb.c:7661-7672: the temporary page gets an empty header, and the old pointers with a gap. */
  method CopyPtrs(mp: array<Word>, copy: array<Word>, newindx: nat, n: nat)
    requires mp != copy && newindx <= n && PTRS + n < copy.Length && PTRS + n <= mp.Length && 2 * copy.Length < 0x1_0000
    modifies copy
    ensures copy[LOWER] == 16 && copy[UPPER] == 2 * copy.Length && Listed(Raw(copy[..], n + 1), Raw(mp[..], n), newindx)
  {
    copy[LOWER], copy[UPPER] := 16, 2 * copy.Length;
    ghost var raw := Raw(mp[..], n);
    var i, j := 0, 0;
    while i < n
      invariant i <= n && j == (if i <= newindx then i else i + 1) && copy[LOWER] == 16 && copy[UPPER] == 2 * copy.Length
      invariant Listing(copy[PTRS..PTRS + j], raw, newindx, i)
    {
      ghost var was := copy[PTRS..PTRS + j];
      if i == newindx {
        copy[PTRS + j] := 0;
        j := j + 1;
        assert copy[PTRS..PTRS + j] == was + [0];
      }
      ghost var had := copy[PTRS..PTRS + j];
      copy[PTRS + j] := mp[PTRS + i];
      assert mp[PTRS + i] == raw[i];
      j := j + 1;
      assert copy[PTRS..PTRS + j] == had + [raw[i]];
      ListingNext(was, raw, newindx, i);
      i := i + 1;
    }
    ghost var p := Raw(copy[..], n + 1);
    assert copy[PTRS..PTRS + j] == p[..j];
    if newindx == n { assert p[n + 1..] == raw[n..] == []; } else { assert p[..j] == p; }
  }

  /** The list after i pointers. */
  ghost predicate Listing(q: seq<Word>, raw: seq<Word>, newindx: nat, i: nat) {
    && i <= |raw| && newindx <= |raw| && |q| == (if i <= newindx then i else i + 1)
    && if i <= newindx then q == raw[..i] else q[..newindx] == raw[..newindx] && q[newindx + 1..] == raw[newindx..i]
  }

  lemma ListingNext(q: seq<Word>, raw: seq<Word>, newindx: nat, i: nat)
    requires Listing(q, raw, newindx, i) && i < |raw|
    ensures Listing((if i == newindx then q + [0] else q) + [raw[i]], raw, newindx, i + 1)
  {
    var r := (if i == newindx then q + [0] else q) + [raw[i]];
    if i >= newindx { assert r[newindx + 1..] == (if i == newindx then [] else q[newindx + 1..]) + [raw[i]]; }
    if i > newindx { assert r[..newindx] == q[..newindx]; }
  }

  /** An empty page. */
  lemma EmptyHolds(s: seq<Word>, leaf: bool)
    requires PTRS <= |s| <= 0x4000 && s[LOWER] == 16 && s[UPPER] == 2 * |s|
    ensures Holds(s, leaf, [])
  {
  }

  lemma {:induction false} AtLeastFour(nodes: seq<Node>)
    ensures Sum(Sizes(nodes)) >= 4 * |nodes|
  {
    if |nodes| > 0 {
      AtLeastFour(nodes[..|nodes| - 1]);
      assert Sizes(nodes)[..|nodes| - 1] == Sizes(nodes[..|nodes| - 1]);
    }
  }

  /** Node i goes to the right page. */
  method StepRight(mp: array<Word>, rp: array<Word>, copy: array<Word>, leaf: bool, i: nat, j: nat, newindx: nat, split: nat,
      node: Node, ghost nodes: seq<Node>, ghost p: seq<Word>) returns (ok: bool)
    requires mp != rp && copy != rp && split <= i <= |nodes| && newindx <= |nodes| && j == i - split
    requires Holds(mp[..], leaf, nodes) && WellFormed(leaf, node)
    requires Listed(p, Raw(mp[..], |nodes|), newindx) && Unread(copy[..], p, 0, |p|)
    requires Holds(rp[..], leaf, Fresh(leaf, Insert(nodes, newindx, node)[split..][..j]))
    modifies rp
    ensures ok <==> Footprint(Fresh(leaf, Insert(nodes, newindx, node)[split..][..j + 1])) + 16 <= 2 * rp.Length
    ensures ok ==> Holds(rp[..], leaf, Fresh(leaf, Insert(nodes, newindx, node)[split..][..j + 1]))
  {
    ghost var right := Insert(nodes, newindx, node)[split..];
    var n := Fetch(mp, copy, leaf, i, newindx, node, nodes, p);
    InsertFormed(leaf, nodes, newindx, node);
    FreshNext(leaf, right, j);
    ok := Append(rp, leaf, j, n, Fresh(leaf, right[..j]), p, 0);
  }

  /** What the bytes at some offset of a page say, at odd offsets too. */
  function WordAt(s: seq<Word>, b: nat): Word
    requires b + 2 <= 2 * |s|
  {
    if b % 2 == 0 then s[b / 2] else s[b / 2] / 0x100 + s[b / 2 + 1] % 0x100 * 0x100
  }

  /** The bytes of a node with the header found at a pointer, which mdb_node_add compares with the room. */
  function HeaderSize(s: seq<Word>, leaf: bool, ptr: Word, noKey: bool): nat
    requires ptr + 8 <= 2 * |s|
  {
    2 * Words(leaf, WordAt(s, ptr), WordAt(s, ptr + 2), WordAt(s, ptr + 4), if noKey then 0 else WordAt(s, ptr + 6))
  }

  /** Done, MDB_PAGE_FULL, or a node header is read outside the old page. */
  datatype Outcome = Done | Full | Strayed

  /** The pointer that is read when k nodes are on the left page has been overwritten by the last of them. */
  ghost predicate Exact(leaf: bool, left: seq<Node>, newindx: nat, k: nat, length: nat) {
    1 <= k < |left| && k != newindx && Footprint(Fresh(leaf, left[..k])) + 16 == 2 * length
  }

  /** Node j goes to the left page, which is the temporary page.  followed: its pointer was overwritten. */
  method StepLeft(mp: array<Word>, copy: array<Word>, leaf: bool, j: nat, newindx: nat, split: nat,
      node: Node, ghost nodes: seq<Node>, ghost p: seq<Word>) returns (r: Outcome, ghost followed: bool)
    requires mp != copy && mp.Length == copy.Length && j < split <= |nodes| && newindx <= |nodes|
    requires Holds(mp[..], leaf, nodes) && AllFormed(leaf, nodes) && WellFormed(leaf, node)
    requires Listed(p, Raw(mp[..], |nodes|), newindx) && Survive(copy[..], p, j, split)
    requires Holds(copy[..], leaf, Fresh(leaf, Insert(nodes, newindx, node)[..split][..j]))
    modifies copy
    ensures r.Done? <==> Footprint(Fresh(leaf, Insert(nodes, newindx, node)[..split][..j + 1])) + 16 <= 2 * copy.Length
    ensures r.Done? ==> Survive(copy[..], p, j + 1, split) && copy[UPPER] == copy[PTRS + j]
    ensures r.Done? ==> Holds(copy[..], leaf, Fresh(leaf, Insert(nodes, newindx, node)[..split][..j + 1]))
    ensures followed <==> old(copy[UPPER]) == old(copy[LOWER]) && j != newindx
    ensures r.Strayed? <==> followed && old(copy[PTRS + j]) + 8 > 2 * mp.Length
  {
    ghost var left := Insert(nodes, newindx, node)[..split];
    InsertFormed(leaf, nodes, newindx, node);
    FreshNext(leaf, left, j);
    followed := copy[UPPER] == copy[LOWER] && j != newindx;
    if j != newindx {
      var ptr := copy[PTRS + j];
      StepFacts(copy[..], mp[..], leaf, nodes, newindx, node, j, split, p);
      if ptr + 8 > 2 * mp.Length {
        return Strayed, followed;
      }
      if HeaderSize(mp[..], leaf, ptr, !leaf && j == 0) + 2 > copy[UPPER] as int - copy[LOWER] as int {
        return Full, followed;
      }
    }
    var n := Fetch(mp, copy, leaf, j, newindx, node, nodes, p);
    var ok := Append(copy, leaf, j, n, Fresh(leaf, left[..j]), p, split);
    r := if ok then Done else Full;
  }

  /**
   * A pointer that was not overwritten leads to its node, and mdb_node_add compares that node's size with the room.
   * One that was leaves no room, whatever it leads to.
   */
  lemma StepFacts(cs: seq<Word>, s: seq<Word>, leaf: bool, nodes: seq<Node>, newindx: nat, node: Node, j: nat, split: nat, p: seq<Word>)
    requires |cs| == |s| && j < split <= |nodes| && newindx <= |nodes| && j != newindx
    requires Holds(s, leaf, nodes) && Listed(p, Raw(s, |nodes|), newindx) && Survive(cs, p, j, split)
    requires var left := Insert(nodes, newindx, node)[..split];
      && Holds(cs, leaf, Fresh(leaf, left[..j]))
      && Fresh(leaf, left[..j + 1]) == Fresh(leaf, left[..j]) + [NoKey(leaf, j == 0, left[j])]
    ensures cs[UPPER] == cs[LOWER] ==> Footprint(Fresh(leaf, Insert(nodes, newindx, node)[..split][..j + 1])) + 16 > 2 * |cs|
    ensures cs[UPPER] != cs[LOWER] ==>
      && cs[PTRS + j] == p[j] && p[j] + 8 <= 2 * |s|
      && HeaderSize(s, leaf, p[j], !leaf && j == 0) == 2 * |Image(NoKey(leaf, j == 0, Insert(nodes, newindx, node)[j]))|
      && (HeaderSize(s, leaf, p[j], !leaf && j == 0) + 2 <= cs[UPPER] as int - cs[LOWER] as int <==>
          Footprint(Fresh(leaf, Insert(nodes, newindx, node)[..split][..j + 1])) + 16 <= 2 * |cs|)
  {
    var left := Insert(nodes, newindx, node)[..split];
    RoomLeft(cs, leaf, Fresh(leaf, left[..j]));
    FootprintNext(Fresh(leaf, left[..j]), NoKey(leaf, j == 0, left[j]));
    if cs[UPPER] != cs[LOWER] {
      var m := if j < newindx then j else j - 1;
      assert cs[LOWER] == 16 + 2 * j;
      assert cs[PTRS + j] == p[j];
      ListedAt(p, Raw(s, |nodes|), newindx, j);
      assert Insert(nodes, newindx, node)[j] == nodes[m];
      SizeAt(s, leaf, nodes, m, !leaf && j == 0);
    }
  }

  lemma SizeAt(s: seq<Word>, leaf: bool, nodes: seq<Node>, m: nat, noKey: bool)
    requires Holds(s, leaf, nodes) && m < |nodes| && (noKey ==> !leaf)
    ensures var ptr := Raw(s, |nodes|)[m];
      ptr + 8 <= 2 * |s| && HeaderSize(s, leaf, ptr, noKey) == 2 * |Image(NoKey(leaf, noKey, nodes[m]))|
  {
    HeaderOf(s, leaf, nodes, m);
    assert WellFormed(leaf, nodes[m]);
    var ptr := Raw(s, |nodes|)[m];
    assert ptr == s[PTRS + m];
  }

  /** The nodes still to come take at least their pointers. */
  lemma {:induction false} RestFits(leaf: bool, nodes: seq<Node>, j: nat)
    requires j <= |nodes|
    ensures Footprint(Fresh(leaf, nodes[..j])) + 2 * (|nodes| - j) <= Footprint(Fresh(leaf, nodes))
    decreases |nodes| - j
  {
    if j < |nodes| {
      FreshNext(leaf, nodes, j);
      FootprintNext(Fresh(leaf, nodes[..j]), NoKey(leaf, j == 0, nodes[j]));
      RestFits(leaf, nodes, j + 1);
    } else {
      assert nodes[..j] == nodes;
    }
  }

  /** What the pages hold when the next node to move is i, number j on its page. */
  ghost predicate Round(rs: seq<Word>, cs: seq<Word>, leaf: bool, all: seq<Node>, split: nat, p: seq<Word>, i: nat, j: nat, onRight: bool) {
    && 1 <= split < |all| == |p|
    && if onRight then
      && split <= i < |all| && j == i - split && Unread(cs, p, 0, |p|)
      && Holds(rs, leaf, Fresh(leaf, all[split..][..j])) && Holds(cs, leaf, [])
    else
      && i == j < split && Survive(cs, p, j, split) && Holds(cs, leaf, Fresh(leaf, all[..split][..j]))
      && (j > 0 ==> cs[UPPER] == cs[PTRS + (j - 1)]) && Moved(rs, leaf, all[split..])
  }

  ghost predicate Moved(s: seq<Word>, leaf: bool, half: seq<Node>) {
    Holds(s, leaf, Fresh(leaf, half)) && Footprint(Fresh(leaf, half)) + 16 <= 2 * |s|
  }

  /** The left half is complete on the temporary page. */
  ghost predicate AllMoved(rs: seq<Word>, cs: seq<Word>, leaf: bool, all: seq<Node>, split: nat) {
    && 1 <= split <= |all| && PTRS + split <= |cs| && Moved(rs, leaf, all[split..])
    && Holds(cs, leaf, Fresh(leaf, all[..split])) && cs[UPPER] == cs[PTRS + (split - 1)]
  }

  method RightRound(mp: array<Word>, rp: array<Word>, copy: array<Word>, leaf: bool, newindx: nat, split: nat, node: Node,
      i: nat, j: nat, nkeys: nat, ghost nodes: seq<Node>, ghost p: seq<Word>) returns (ok: bool, i1: nat, j1: nat, onRight: bool)
    requires mp != rp && copy != rp && newindx <= |nodes| == nkeys
    requires Holds(mp[..], leaf, nodes) && WellFormed(leaf, node) && Listed(p, Raw(mp[..], |nodes|), newindx)
    requires Round(rp[..], copy[..], leaf, Insert(nodes, newindx, node), split, p, i, j, true)
    modifies rp
    ensures !ok ==> Footprint(Fresh(leaf, Insert(nodes, newindx, node)[split..])) + 16 > 2 * rp.Length
    ensures ok ==> i1 != split && Round(rp[..], copy[..], leaf, Insert(nodes, newindx, node), split, p, i1, j1, onRight)
    ensures if i == nkeys then i1 == 0 && !onRight else i1 == i + 1 && onRight
  {
    ghost var cs := copy[..];
    ok := StepRight(mp, rp, copy, leaf, i, j, newindx, split, node, nodes, p);
    assert copy[..] == cs;
    RestFits(leaf, Insert(nodes, newindx, node)[split..], j + 1);
    if ok { RightMoved(rp[..], cs, leaf, Insert(nodes, newindx, node), split, p, i, j); }
    if i == nkeys {
      i1, j1, onRight := 0, 0, false;
    } else {
      i1, j1, onRight := i + 1, j + 1, true;
    }
  }

  lemma RightMoved(rs: seq<Word>, cs: seq<Word>, leaf: bool, all: seq<Node>, split: nat, p: seq<Word>, i: nat, j: nat)
    requires 1 <= split <= i < |all| == |p| && j == i - split && Unread(cs, p, 0, |p|) && Holds(cs, leaf, [])
    requires Holds(rs, leaf, Fresh(leaf, all[split..][..j + 1]))
    requires Footprint(Fresh(leaf, all[split..][..j + 1])) + 16 <= 2 * |rs|
    ensures if i == |all| - 1 then Round(rs, cs, leaf, all, split, p, 0, 0, false)
            else Round(rs, cs, leaf, all, split, p, i + 1, j + 1, true)
  {
    if i == |all| - 1 {
      assert all[split..][..j + 1] == all[split..];
      assert all[..split][..0] == [];
    }
  }

  /** Whether and how the left half fails. */
  ghost predicate LeftResult(r: Outcome, followed: bool, leaf: bool, left: seq<Node>, newindx: nat, length: nat) {
    && (r.Done? <==> Footprint(Fresh(leaf, left)) + 16 <= 2 * length)
    && (followed <==> exists k :: Exact(leaf, left, newindx, k, length))
    && (r.Strayed? <==> exists k :: Exact(leaf, left, newindx, k, length) && left[k - 1].lo + 8 > 2 * length)
  }

  /** Only the last round can be the one whose pointer was overwritten. */
  lemma ExactAt(leaf: bool, left: seq<Node>, newindx: nat, j: nat, length: nat, k: nat)
    requires j < |left| && Footprint(Fresh(leaf, left[..j])) + 16 <= 2 * length && Exact(leaf, left, newindx, k, length)
    requires Footprint(Fresh(leaf, left[..j + 1])) + 16 > 2 * length || j + 1 == |left|
    requires j + 1 == |left| && k == |left| ==> Footprint(Fresh(leaf, left)) + 16 <= 2 * length
    ensures k == j
  {
    if k < j {
      Growing(leaf, left, k, j);
    } else if k > j {
      Growing(leaf, left, j + 1, k);
    }
  }

  lemma Growing(leaf: bool, nodes: seq<Node>, a: nat, b: nat)
    requires a <= b <= |nodes|
    ensures Footprint(Fresh(leaf, nodes[..a])) + 2 * (b - a) <= Footprint(Fresh(leaf, nodes[..b]))
  {
    RestFits(leaf, nodes[..b], a);
    assert nodes[..b][..a] == nodes[..a];
  }

  method LeftRound(mp: array<Word>, rp: array<Word>, copy: array<Word>, leaf: bool, newindx: nat, split: nat, node: Node,
      j: nat, ghost nodes: seq<Node>, ghost p: seq<Word>) returns (r: Outcome, j1: nat, ghost followed: bool)
    requires mp != copy && rp != copy && mp.Length == copy.Length && newindx <= |nodes|
    requires Holds(mp[..], leaf, nodes) && WellFormed(leaf, node) && Listed(p, Raw(mp[..], |nodes|), newindx)
    requires Round(rp[..], copy[..], leaf, Insert(nodes, newindx, node), split, p, j, j, false)
    modifies copy
    ensures j1 == j + 1
    ensures r.Done? && j1 < split ==> Round(rp[..], copy[..], leaf, Insert(nodes, newindx, node), split, p, j1, j1, false)
    ensures r.Done? && j1 == split ==> AllMoved(rp[..], copy[..], leaf, Insert(nodes, newindx, node), split)
    ensures !r.Done? || j1 == split ==>
      LeftResult(r, followed, leaf, Insert(nodes, newindx, node)[..split], newindx, copy.Length)
  {
    ghost var rs, cs, all := rp[..], copy[..], Insert(nodes, newindx, node);
    LastWord(cs, leaf, all[..split], j);
    r, followed := StepLeft(mp, copy, leaf, j, newindx, split, node, nodes, p);
    assert rp[..] == rs;
    j1 := j + 1;
    LeftAfter(rs, cs, copy[..], r, followed, leaf, all, newindx, split, p, j);
  }

  lemma LeftAfter(rs: seq<Word>, cs: seq<Word>, ct: seq<Word>, r: Outcome, followed: bool, leaf: bool, all: seq<Node>,
      newindx: nat, split: nat, p: seq<Word>, j: nat)
    requires Round(rs, cs, leaf, all, split, p, j, j, false) && |ct| == |cs| && PTRS + j < |cs|
    requires cs[UPPER] == cs[LOWER] ==> j > 0 && cs[PTRS + j] == all[..split][j - 1].lo
    requires r.Done? <==> Footprint(Fresh(leaf, all[..split][..j + 1])) + 16 <= 2 * |cs|
    requires r.Done? ==> Survive(ct, p, j + 1, split) && ct[UPPER] == ct[PTRS + j]
    requires r.Done? ==> Holds(ct, leaf, Fresh(leaf, all[..split][..j + 1]))
    requires followed <==> cs[UPPER] == cs[LOWER] && j != newindx
    requires r.Strayed? <==> followed && cs[PTRS + j] + 8 > 2 * |cs|
    ensures r.Done? && j + 1 < split ==> Round(rs, ct, leaf, all, split, p, j + 1, j + 1, false)
    ensures r.Done? && j + 1 == split ==> AllMoved(rs, ct, leaf, all, split)
    ensures !r.Done? || j + 1 == split ==> LeftResult(r, followed, leaf, all[..split], newindx, |cs|)
  {
    if r.Done? { LeftMoved(rs, ct, leaf, all, split, p, j + 1); }
    if !r.Done? || j + 1 == split { LeftEnds(cs, r, followed, leaf, all[..split], newindx, j); }
  }

  /** On a full page the word behind the pointers is the first one of the node added last. */
  lemma LastWord(cs: seq<Word>, leaf: bool, left: seq<Node>, j: nat)
    requires j < |left| && PTRS + j < |cs| && Holds(cs, leaf, Fresh(leaf, left[..j]))
    requires j > 0 ==> cs[UPPER] == cs[PTRS + (j - 1)]
    ensures cs[UPPER] == cs[LOWER] ==> j > 0 && cs[PTRS + j] == left[j - 1].lo
  {
    var have := Fresh(leaf, left[..j]);
    if cs[UPPER] == cs[LOWER] {
      RoomLeft(cs, leaf, have);
      if j > 0 {
        assert Raw(cs, j)[j - 1] == cs[PTRS + (j - 1)] == cs[LOWER] == 2 * (PTRS + j);
        HeaderOf(cs, leaf, have, j - 1);
        assert have[j - 1].lo == left[j - 1].lo;
      }
    }
  }

  lemma LeftEnds(cs: seq<Word>, r: Outcome, followed: bool, leaf: bool, left: seq<Node>, newindx: nat, j: nat)
    requires j < |left| && Holds(cs, leaf, Fresh(leaf, left[..j])) && PTRS + j < |cs|
    requires cs[UPPER] == cs[LOWER] ==> j > 0 && cs[PTRS + j] == left[j - 1].lo
    requires r.Done? <==> Footprint(Fresh(leaf, left[..j + 1])) + 16 <= 2 * |cs|
    requires followed <==> cs[UPPER] == cs[LOWER] && j != newindx
    requires r.Strayed? <==> followed && cs[PTRS + j] + 8 > 2 * |cs|
    requires !r.Done? || j + 1 == |left|
    ensures LeftResult(r, followed, leaf, left, newindx, |cs|)
  {
    RoomLeft(cs, leaf, Fresh(leaf, left[..j]));
    RestFits(leaf, left, j + 1);
    assert left[..|left|] == left;
    assert followed <==> Exact(leaf, left, newindx, j, |cs|);
    forall k | Exact(leaf, left, newindx, k, |cs|) ensures k == j {
      ExactAt(leaf, left, newindx, j, |cs|, k);
    }
  }

  lemma LeftMoved(rs: seq<Word>, cs: seq<Word>, leaf: bool, all: seq<Node>, split: nat, p: seq<Word>, j: nat)
    requires 1 <= j <= split < |all| == |p| && Survive(cs, p, j, split) && Holds(cs, leaf, Fresh(leaf, all[..split][..j]))
    requires Moved(rs, leaf, all[split..]) && PTRS + j <= |cs| && cs[UPPER] == cs[PTRS + (j - 1)]
    ensures if j == split then AllMoved(rs, cs, leaf, all, split) else Round(rs, cs, leaf, all, split, p, j, j, false)
  {
    if j == split { assert all[..split][..j] == all[..split]; }
  }

  /** The right half fits on its page. */
  ghost predicate RightFits(leaf: bool, right: seq<Node>, length: nat) { Footprint(Fresh(leaf, right)) + 16 <= 2 * length }

  /** The loop at mdb.c:7781-7828: from split to the last node, then round to the first and up to split. */
  method MoveAround(mp: array<Word>, rp: array<Word>, copy: array<Word>, leaf: bool, newindx: nat, split: nat, node: Node,
      nkeys: nat, ghost nodes: seq<Node>, ghost p: seq<Word>) returns (r: Outcome, ghost followed: bool)
    requires mp != rp && mp != copy && rp != copy && mp.Length == copy.Length && newindx <= |nodes| == nkeys
    requires Holds(mp[..], leaf, nodes) && WellFormed(leaf, node) && Listed(p, Raw(mp[..], |nodes|), newindx)
    requires Round(rp[..], copy[..], leaf, Insert(nodes, newindx, node), split, p, split, 0, true)
    modifies rp, copy
    ensures r.Done? ==> AllMoved(rp[..], copy[..], leaf, Insert(nodes, newindx, node), split)
    ensures if RightFits(leaf, Insert(nodes, newindx, node)[split..], rp.Length) then
        LeftResult(r, followed, leaf, Insert(nodes, newindx, node)[..split], newindx, copy.Length)
      else r == Full && !followed
  {
    var i, j, onRight, ok := split, 0, true, true;
    followed := false;
    while true
      invariant Round(rp[..], copy[..], leaf, Insert(nodes, newindx, node), split, p, i, j, onRight)
      decreases onRight, |nodes| + 1 - i
    {
      if onRight {
        ok, i, j, onRight := RightRound(mp, rp, copy, leaf, newindx, split, node, i, j, nkeys, nodes, p);
        if !ok {
          return Full, false;
        }
      } else {
        r, j, followed := LeftRound(mp, rp, copy, leaf, newindx, split, node, j, nodes, p);
        i := j;
        if !r.Done? || i == split {
          return;
        }
      }
    }
  }

  /** memcpy between pages. */
  method CopyWords(dst: array<Word>, src: array<Word>, at: nat, n: nat)
    requires dst != src && at + n <= dst.Length && at + n <= src.Length
    modifies dst
    ensures dst[..at] == old(dst[..at]) && dst[at..at + n] == src[at..at + n] && dst[at + n..] == old(dst[at + n..])
  {
    forall x | 0 <= x < n { dst[at + x] := src[at + x]; }
  }

  /** The left half, from the temporary page back to the old one (mdb.c:7830-7836). */
  method CopyBack(mp: array<Word>, copy: array<Word>, leaf: bool, nkeys: nat, ghost left: seq<Node>)
    requires mp != copy && mp.Length == copy.Length && |left| == nkeys > 0 && Holds(copy[..], leaf, left)
    requires copy[UPPER] == copy[PTRS + (nkeys - 1)]
    modifies mp
    ensures Holds(mp[..], leaf, left)
  {
    ghost var s := copy[..];
    CopyWords(mp, copy, PTRS, nkeys);
    ghost var u := mp[..];
    SetBounds(mp, copy[LOWER], copy[UPPER]);
    ghost var v := mp[..];
    var up := copy[PTRS + nkeys - 1] / 2;
    CopyWords(mp, copy, up, copy.Length - up);
    CopiedBack(s, u, v, mp[..], nkeys, up);
    SameHolds(s, mp[..], leaf, left);
  }

  lemma CopiedBack(s: seq<Word>, u: seq<Word>, v: seq<Word>, t: seq<Word>, n: nat, up: nat)
    requires |s| == |u| == |v| == |t| && PTRS + n <= up <= |s| && u[PTRS..PTRS + n] == s[PTRS..PTRS + n]
    requires v == u[LOWER := s[LOWER]][UPPER := s[UPPER]] && t[..up] == v[..up] && t[up..|s|] == s[up..|s|]
    ensures t[LOWER] == s[LOWER] && t[UPPER] == s[UPPER] && Raw(t, n) == Raw(s, n) && t[up..] == s[up..]
  {
    assert t[LOWER] == t[..up][LOWER] && t[UPPER] == t[..up][UPPER];
    assert Raw(t, n) == t[..up][PTRS..PTRS + n] == v[..up][PTRS..PTRS + n] == Raw(v, n) == Raw(u, n);
  }

  /** Words between the pointers and the nodes do not matter. */
  lemma SameHolds(s: seq<Word>, t: seq<Word>, leaf: bool, nodes: seq<Node>)
    requires Holds(s, leaf, nodes) && |t| == |s| && t[LOWER] == s[LOWER] && t[UPPER] == s[UPPER]
    requires Raw(t, |nodes|) == Raw(s, |nodes|) && t[s[UPPER] / 2..] == s[s[UPPER] / 2..]
    ensures Holds(t, leaf, nodes)
  {
    var ws, up, sz := Halves(Raw(s, |nodes|)), s[UPPER] / 2, Sizes(nodes);
    forall i | 0 <= i < |ws| ensures At(t, ws[i], Image(nodes[i])) {
      assert At(s, ws[i], Image(nodes[i])) && Inside(ws[i], sz[i], up, |s|);
      assert t[up..|s|] == t[up..] && s[up..|s|] == s[up..];
      AtMoved(s, t, up, |s|, 0, ws[i], Image(nodes[i]));
    }
  }

  /**
   * The move of mdb_page_split.  When both halves fit mp and rp hold exactly the old nodes with the new one at newindx,
   * cut at split; otherwise it fails and mp is as it was.  A pointer is followed after it was overwritten exactly when
   * some proper prefix of the left half takes all of a page (and the new node does not come next).  There is no room
   * left then, so that what is read makes no difference, but it can be read outside the old page.
   */
  method MoveNodes(mp: array<Word>, rp: array<Word>, copy: array<Word>, leaf: bool, newindx: nat, split: nat, node: Node,
      ghost nodes: seq<Node>) returns (r: Outcome, ghost followed: bool)
    requires mp != rp && mp != copy && rp != copy && 2048 <= mp.Length == copy.Length == rp.Length <= 0x4000
    requires Holds(mp[..], leaf, nodes) && WellFormed(leaf, node) && newindx <= |nodes| && 1 <= split <= |nodes|
    requires Holds(rp[..], leaf, [])
    modifies mp, rp, copy
    ensures if RightFits(leaf, Insert(nodes, newindx, node)[split..], rp.Length) then
        LeftResult(r, followed, leaf, Insert(nodes, newindx, node)[..split], newindx, mp.Length)
      else r == Full && !followed
    ensures r.Done? ==> Holds(rp[..], leaf, Fresh(leaf, Insert(nodes, newindx, node)[split..]))
    ensures r.Done? ==> Holds(mp[..], leaf, Fresh(leaf, Insert(nodes, newindx, node)[..split]))
    ensures !r.Done? ==> mp[..] == old(mp[..])
  {
    ghost var n := |nodes|;
    AtLeastFour(nodes);
    RoomLeft(mp[..], leaf, nodes);
    var nkeys := (mp[LOWER] - 16) / 2;
    CopyPtrs(mp, copy, newindx, nkeys);
    ghost var p := Raw(copy[..], n + 1);
    EmptyHolds(copy[..], leaf);
    StartsRight(rp[..], copy[..], leaf, Insert(nodes, newindx, node), split, p);
    r, followed := MoveAround(mp, rp, copy, leaf, newindx, split, node, nkeys, nodes, p);
    if r.Done? {
      CopyBack(mp, copy, leaf, split, Fresh(leaf, Insert(nodes, newindx, node)[..split]));
    }
  }

  lemma StartsRight(rs: seq<Word>, cs: seq<Word>, leaf: bool, all: seq<Node>, split: nat, p: seq<Word>)
    requires 1 <= split < |all| == |p| && PTRS + |p| <= |cs| && p == cs[PTRS..PTRS + |p|]
    requires Holds(rs, leaf, []) && Holds(cs, leaf, [])
    ensures Round(rs, cs, leaf, all, split, p, split, 0, true)
  {
    assert all[split..][..0] == [];
  }

  // ---------------------------------------------------------------- with the split point of SplitPoint

  /** The sizes that the search for the split point adds up. */
  function Feet(nodes: seq<Node>): seq<nat> { seq(|nodes|, i requires 0 <= i < |nodes| => 2 * |Image(nodes[i])| + 2) }

  lemma {:induction false} FeetSum(nodes: seq<Node>)
    ensures Sum(Feet(nodes)) == Footprint(nodes)
  {
    if |nodes| > 0 {
      var n := |nodes| - 1;
      FeetSum(nodes[..n]);
      FootprintNext(nodes[..n], nodes[n]);
      assert nodes == nodes[..n] + [nodes[n]];
      assert Feet(nodes)[..n] == Feet(nodes[..n]);
    }
  }

  lemma FreshSmaller(leaf: bool, nodes: seq<Node>)
    ensures Footprint(Fresh(leaf, nodes)) <= Footprint(nodes)
  {
    if |nodes| > 0 {
      var a, b := Sizes(nodes), Sizes(Fresh(leaf, nodes));
      assert a[1..] == b[1..];
      SumHead(a, 0);
      SumHead(b, 0);
      assert a[0..] == a && b[0..] == b;
    }
  }

  /** Whenever the split point is searched by size both halves fit, and the move succeeds. */
  lemma CheckedSplitMoves(length: nat, leaf: bool, nodes: seq<Node>, newindx: nat, node: Node)
    requires newindx <= |nodes| && length >= 8
    requires OverFull(2 * length - 16, Feet(Insert(nodes, newindx, node)), newindx)
    requires |nodes| >= 2 && Checked(2 * length - 16, Feet(Insert(nodes, newindx, node)), newindx)
    ensures var all := Insert(nodes, newindx, node);
      var split := SplitIndex(2 * length - 16, Feet(all), newindx);
      && 1 <= split <= |nodes| && Footprint(Fresh(leaf, all[..split])) + 16 <= 2 * length
      && Footprint(Fresh(leaf, all[split..])) + 16 <= 2 * length
  {
    var all := Insert(nodes, newindx, node);
    CheckedSplitFits(2 * length - 16, Feet(all), newindx);
    BothFit(leaf, all, SplitIndex(2 * length - 16, Feet(all), newindx), 2 * length - 16);
  }

  lemma BothFit(leaf: bool, all: seq<Node>, split: nat, pmax: nat)
    requires split <= |all| && Sum(Feet(all)[..split]) <= pmax && Sum(Feet(all)[split..]) <= pmax
    ensures Footprint(Fresh(leaf, all[..split])) <= pmax && Footprint(Fresh(leaf, all[split..])) <= pmax
  {
    HalfFits(leaf, all, 0, split);
    HalfFits(leaf, all, split, |all|);
    assert all[0..split] == all[..split] && all[split..|all|] == all[split..];
    assert Feet(all)[0..split] == Feet(all)[..split] && Feet(all)[split..|all|] == Feet(all)[split..];
  }

  lemma HalfFits(leaf: bool, all: seq<Node>, lo: nat, hi: nat)
    requires lo <= hi <= |all|
    ensures Footprint(Fresh(leaf, all[lo..hi])) <= Sum(Feet(all)[lo..hi])
  {
    assert Feet(all)[lo..hi] == Feet(all[lo..hi]);
    FeetSum(all[lo..hi]);
    FreshSmaller(leaf, all[lo..hi]);
  }

  // ---------------------------------------------------------------- a split whose left half does not fit

  /** Every sequence of nodes that fits on a page is what some page holds. */
  lemma {:induction false} PageFor(length: nat, leaf: bool, nodes: seq<Node>) returns (s: seq<Word>)
    requires PTRS <= length <= 0x4000 && AllFormed(leaf, nodes) && Footprint(nodes) + 16 <= 2 * length
    ensures |s| == length && Holds(s, leaf, nodes)
  {
    if |nodes| == 0 {
      s := seq(length, i => 0)[LOWER := 16][UPPER := 2 * length];
      EmptyHolds(s, leaf);
    } else {
      var n := |nodes| - 1;
      assert nodes == nodes[..n] + [nodes[n]];
      FootprintNext(nodes[..n], nodes[n]);
      var t := PageFor(length, leaf, nodes[..n]);
      RoomLeft(t, leaf, nodes[..n]);
      s := AddedPage(t, n, Image(nodes[n]));
      AddHolds(t, s, leaf, nodes[..n], n, nodes[n]);
      assert Insert(nodes[..n], n, nodes[n]) == nodes;
    }
  }

  lemma AddedPage(s: seq<Word>, n: nat, img: seq<Word>) returns (t: seq<Word>)
    requires PTRS + n < |s| <= 0x4000 && s[LOWER] == 16 + 2 * n && s[UPPER] % 2 == 0
    requires s[LOWER] + 2 * |img| + 2 <= s[UPPER] <= 2 * |s|
    ensures Added(s, t, n, n, img)
  {
    var w, ofs: Word := s[UPPER] / 2 - |img|, s[UPPER] - 2 * |img|;
    var low := s[..PTRS + n][LOWER := s[LOWER] + 2][UPPER := ofs];
    t := low + [ofs] + s[PTRS + n + 1..w] + img + s[w + |img|..];
    assert Raw(t, n + 1) == Raw(s, n) + [ofs];
    assert t[..LOWER] == low[..LOWER] == s[..LOWER];
  }

  /** n nodes alike. */
  function Alike(n: nat, x: Node): seq<Node> { seq(n, i => x) }

  lemma {:induction false} AlikeFoot(n: nat, x: Node)
    ensures Footprint(Alike(n, x)) == n * (2 * |Image(x)| + 2)
  {
    if n > 0 {
      AlikeFoot(n - 1, x);
      assert Alike(n, x) == Alike(n - 1, x) + [x];
      FootprintNext(Alike(n - 1, x), x);
    }
  }

  lemma {:induction false} FootprintCat(a: seq<Node>, b: seq<Node>)
    ensures Footprint(a + b) == Footprint(a) + Footprint(b)
  {
    if |b| > 0 {
      var n := |b| - 1;
      FootprintCat(a, b[..n]);
      assert a + b == (a + b[..n]) + [b[n]] && b == b[..n] + [b[n]];
      FootprintNext(a + b[..n], b[n]);
      FootprintNext(b[..n], b[n]);
    } else {
      assert a + b == a && Sizes(b) == [];
    }
  }

  lemma FreshLeaf(nodes: seq<Node>)
    ensures Fresh(true, nodes) == nodes
  {
  }

  /** A leaf node with that many bytes of key and data. */
  function LeafNode(ksize: Word, dsize: Word): Node
    requires (ksize + dsize) % 2 == 0
  {
    Node(dsize, 0, 0, ksize, seq((ksize + dsize) / 2, i => 0))
  }

  /** A leaf node with a key of 468 bytes whose data of that size is on overflow pages. */
  function BigNode(dsize: Word): Node { Node(dsize, 0, 1, 468, seq(238, i => 0)) }

  function Nodes(): seq<Node> {
    Alike(4, LeafNode(8, 466)) + Alike(4, BigNode(60000)) + Alike(12, LeafNode(1, 1))
  }

  function NewOne(): Node { LeafNode(8, 182) }

  /**
   * A page of 4096 bytes and a new node for index 3 for which mdb_page_split does not search the split point, and moves
   * a left half that does not fit.  The first nine nodes fill the temporary page, the ninth overwrites pointer 9, and its
   * data size stands where the pointer was: mdb.c:7796 leads outside the page.
   */
  lemma PointerOverwritten() returns (s: seq<Word>)
    ensures |s| == 2048 && Holds(s, true, Nodes()) && WellFormed(true, NewOne())
    ensures var all := Insert(Nodes(), 3, NewOne());
      && OverFull(4080, Feet(all), 3) && !Checked(4080, Feet(all), 3) && SplitIndex(4080, Feet(all), 3) == 10
      && RightFits(true, all[10..], 2048) && !RightFits(true, all[..10], 2048)
      && Exact(true, all[..10], 3, 9, 2048) && all[..10][8].lo + 8 > 2 * 2048
  {
    NodesFoot();
    NodesFormed();
    s := PageFor(2048, true, Nodes());
    SplitFeet();
    var all := Insert(Nodes(), 3, NewOne());
    NotSearched(all);
    FreshLeaf(all[..10]);
    FreshLeaf(all[10..]);
    FreshLeaf(all[..10][..9]);
  }

  lemma NodesFormed()
    ensures AllFormed(true, Nodes()) && WellFormed(true, NewOne())
  {
    assert WellFormed(true, LeafNode(8, 466)) && WellFormed(true, BigNode(60000)) && WellFormed(true, LeafNode(1, 1));
  }

  lemma NotSearched(all: seq<Node>)
    requires |all| == 21 && all[3] == NewOne() && Footprint(all) == 4224
    requires forall i :: 0 <= i < 21 ==> 0 < 2 * |Image(all[i])| + 2 <= 486
    ensures OverFull(4080, Feet(all), 3) && !Checked(4080, Feet(all), 3) && SplitIndex(4080, Feet(all), 3) == 10
  {
    FeetSum(all);
    assert Feet(all)[3] == 200;
  }

  lemma NodesFoot()
    ensures Footprint(Nodes()) == 4 * 484 + 4 * 486 + 12 * 12 && |Nodes()| == 20
  {
    var a, b, c := Alike(4, LeafNode(8, 466)), Alike(4, BigNode(60000)), Alike(12, LeafNode(1, 1));
    FootprintCat(a + b, c);
    FootprintCat(a, b);
    AlikeFoot(4, LeafNode(8, 466));
    AlikeFoot(4, BigNode(60000));
    AlikeFoot(12, LeafNode(1, 1));
  }

  /** The halves: three nodes, the new one, one, four big ones, one small one; and the other small ones. */
  lemma SplitFeet()
    ensures var all := Insert(Nodes(), 3, NewOne());
      && |all| == 21 && Footprint(all[..10][..9]) == 4080 && Footprint(all[..10]) == 4092 && Footprint(all[10..]) == 132
      && Footprint(all) == 4224 && all[..10][8].lo == 60000 && all[3] == NewOne()
    ensures forall i :: 0 <= i < 21 ==> 0 < 2 * |Image(Insert(Nodes(), 3, NewOne())[i])| + 2 <= 486
  {
    var all, x, y, z := Insert(Nodes(), 3, NewOne()), LeafNode(8, 466), BigNode(60000), LeafNode(1, 1);
    var nine := Alike(3, x) + [NewOne()] + Alike(1, x) + Alike(4, y);
    NineFoot(x, y);
    assert all == nine + [z] + Alike(11, z);
    assert all[..10][..9] == nine && all[..10] == nine + [z] && all[10..] == Alike(11, z);
    FootprintNext(nine, z);
    FootprintCat(nine + [z], Alike(11, z));
    AlikeFoot(11, z);
  }

  lemma NineFoot(x: Node, y: Node)
    requires x == LeafNode(8, 466) && y == BigNode(60000)
    ensures Footprint(Alike(3, x) + [NewOne()] + Alike(1, x) + Alike(4, y)) == 4080
  {
    FootprintCat(Alike(3, x) + [NewOne()] + Alike(1, x), Alike(4, y));
    FootprintCat(Alike(3, x) + [NewOne()], Alike(1, x));
    FootprintNext(Alike(3, x), NewOne());
    AlikeFoot(3, x);
    AlikeFoot(1, x);
    AlikeFoot(4, y);
  }
}
