/** LEAF2 pages: fixed-size keys side by side, without pointers or node headers (DUPFIXED sub-databases). */
module Leaf2 {
  import opened PageLayout

  /** The bytes of one key, md_pad of them. */
  type Key = seq<nat>

  class Page {
    /** One slot for each md_pad bytes behind the header. */
    var slots: array<Key>
    /** mp_lower and mp_upper; no pointers or nodes lie there, they only count. */
    var lower: int
    var upper: int
    const psize: nat
    const ksize: nat

    ghost predicate Valid()
      reads this
    {
      && Area(slots.Length, ksize) <= psize - 16 && ksize >= 1 && 16 <= lower && lower % 2 == 0 && NumKeys() <= slots.Length
      && upper == psize - Area(NumKeys(), ksize - 2)
    }

    /** NUMKEYS */
    function NumKeys(): int
      reads this
    {
      (lower - 16) / 2
    }

    ghost function Keys(): (s: seq<Key>)
      requires Valid()
      reads this, slots
      ensures |s| == NumKeys()
    {
      slots[..NumKeys()]
    }

    constructor (psize: nat, ksize: nat, capacity: nat)
      requires ksize >= 1 && Area(capacity, ksize) <= psize - 16
      ensures Valid() && fresh(slots) && slots.Length == capacity && NumKeys() == 0
      ensures this.psize == psize && this.ksize == ksize
    {
      this.psize, this.ksize, lower, upper := psize, ksize, 16, psize;
      slots := new Key[capacity](i => []);
    }

    /** Counting n keys more, or fewer when n is negative. */
    method Count(n: int)
      requires lower % 2 == 0 && lower >= 16 && 0 <= NumKeys() + n
      modifies this`lower, this`upper
      ensures lower == old(lower) + 2 * n && upper == old(upper) - Area(n, ksize - 2)
      ensures old(upper) == psize - Area(old(NumKeys()), ksize - 2) ==> upper == psize - Area(NumKeys(), ksize - 2)
      ensures NumKeys() == old(NumKeys()) + n
    {
      ghost var k := NumKeys();
      lower, upper := lower + 2 * n, upper - Area(n, ksize - 2);
      Distribute(k, n, ksize - 2);
    }

    /** mdb_node_add on a LEAF2 page (mdb.c:6427-6441). */
    method Add(indx: nat, key: Key)
      requires Valid() && indx <= NumKeys() < slots.Length
      modifies this`lower, this`upper, slots
      ensures Valid() && Keys() == Insert(old(Keys()), indx, key)
    {
      ghost var s := Keys();
      var dif := NumKeys() - indx;
      if dif > 0 {
        MoveKeys(slots, indx + 1, indx, dif);
      }
      slots[indx] := key;
      Count(1);
      assert slots[indx + 1..NumKeys()] == s[indx..] && slots[..indx] == s[..indx];
      assert slots[..NumKeys()] == slots[..indx] + [key] + slots[indx + 1..NumKeys()];
    }

    /** mdb_node_del on a LEAF2 page (mdb.c:6550-6558). */
    method Del(indx: nat)
      requires Valid() && indx < NumKeys()
      modifies this`lower, this`upper, slots
      ensures Valid() && Keys() == Remove(old(Keys()), indx)
    {
      ghost var s := Keys();
      var x := NumKeys() - 1 - indx;
      if x > 0 {
        MoveKeys(slots, indx, indx + 1, x);
      }
      Count(-1);
      assert slots[indx..NumKeys()] == s[indx + 1..] && slots[..indx] == s[..indx];
      assert slots[..NumKeys()] == slots[..indx] + slots[indx..NumKeys()];
    }

    /**
     * The LEAF2 branch of mdb_page_split (mdb.c:7607-7646): this page keeps the first half, rp gets the second, and
     * the new key goes where its index falls; sep is the separator for the parent.
     */
    method Split(rp: Page, newindx: nat, newkey: Key) returns (sep: Key)
      requires Valid() && rp.Valid() && rp != this && rp.slots != slots && rp.NumKeys() == 0
      requires rp.psize == psize && rp.ksize == ksize && rp.slots.Length == slots.Length
      requires 2 <= NumKeys() && newindx <= NumKeys()
      modifies this`lower, this`upper, slots, rp`lower, rp`upper, rp.slots
      ensures Valid() && rp.Valid() && Keys() + rp.Keys() == Insert(old(Keys()), newindx, newkey)
      ensures |rp.Keys()| > 0 && sep == rp.Keys()[0]
      ensures |Keys()| == (old(NumKeys()) + 1) / 2 + (if newindx < (old(NumKeys()) + 1) / 2 then 1 else 0)
    {
      var split := (NumKeys() + 1) / 2;
      sep := if newindx == split then newkey else slots[split];
      if newindx < split {
        KeepNew(rp, split, newindx, newkey);
      } else {
        GiveNew(rp, split, newindx, newkey);
      }
    }

    /** The new key stays here (mdb.c:7628-7635). */
    method KeepNew(rp: Page, split: nat, newindx: nat, newkey: Key)
      requires Valid() && rp.Valid() && rp != this && rp.slots != slots && rp.NumKeys() == 0
      requires rp.psize == psize && rp.ksize == ksize && rp.slots.Length == slots.Length && newindx < split < NumKeys()
      modifies this`lower, this`upper, slots, rp`lower, rp`upper, rp.slots
      ensures Valid() && rp.Valid() && NumKeys() == split + 1 && rp.NumKeys() == old(NumKeys()) - split
      ensures Keys() + rp.Keys() == Insert(old(Keys()), newindx, newkey) && rp.slots[0] == old(slots[split])
    {
      var nkeys := NumKeys();
      Count(split - nkeys);
      rp.Count(nkeys - split);
      SplitLeft(slots, rp.slots, split, nkeys, newindx, newkey);
      Count(1);
    }

    /** The new key goes to the right page (mdb.c:7636-7645). */
    method GiveNew(rp: Page, split: nat, newindx: nat, newkey: Key)
      requires Valid() && rp.Valid() && rp != this && rp.slots != slots && rp.NumKeys() == 0 && 0 < split < NumKeys()
      requires rp.psize == psize && rp.ksize == ksize && rp.slots.Length == slots.Length && split <= newindx <= NumKeys()
      modifies this`lower, this`upper, rp`lower, rp`upper, rp.slots
      ensures Valid() && rp.Valid() && NumKeys() == split && rp.NumKeys() == old(NumKeys()) - split + 1
      ensures Keys() + rp.Keys() == Insert(old(Keys()), newindx, newkey)
      ensures rp.slots[0] == if newindx == split then newkey else slots[split]
    {
      var nkeys := NumKeys();
      Count(split - nkeys);
      rp.Count(nkeys - split);
      SplitRight(slots, rp.slots, split, nkeys, newindx, newkey);
      rp.Count(1);
    }
  }

  /** The new key stays on the left page. */
  method SplitLeft(mp: array<Key>, rp: array<Key>, split: nat, nkeys: nat, newindx: nat, newkey: Key)
    requires mp != rp && newindx < split < nkeys <= mp.Length == rp.Length
    modifies mp, rp
    ensures mp[..split + 1] + rp[..nkeys - split] == Insert(old(mp[..nkeys]), newindx, newkey)
    ensures rp[0] == old(mp[split])
  {
    ghost var s := mp[..nkeys];
    assert s[split..] == mp[split..nkeys] && s[newindx..split] == mp[newindx..split];
    CopyKeys(rp, 0, mp, split, nkeys - split);
    assert rp[..nkeys - split] == s[split..];
    MoveKeys(mp, newindx + 1, newindx, split - newindx);
    assert mp[..newindx] == mp[..newindx + 1][..newindx] == s[..newindx];
    mp[newindx] := newkey;
    assert mp[..split + 1] == s[..newindx] + [newkey] + s[newindx..split];
    LeftHalf(s, split, newindx, newkey);
  }

  lemma LeftHalf(s: seq<Key>, split: nat, i: nat, x: Key)
    requires i < split < |s|
    ensures (s[..i] + [x] + s[i..split]) + s[split..] == Insert(s, i, x)
  {
  }

  /** The new key goes to the right page. */
  method SplitRight(mp: array<Key>, rp: array<Key>, split: nat, nkeys: nat, newindx: nat, newkey: Key)
    requires mp != rp && split <= newindx <= nkeys <= mp.Length == rp.Length && split < nkeys && 0 < split
    modifies rp
    ensures mp[..split] + rp[..nkeys - split + 1] == Insert(mp[..nkeys], newindx, newkey)
    ensures rp[0] == if newindx == split then newkey else mp[split]
  {
    ghost var m := mp[..];
    var x := newindx - split;
    CopyKeys(rp, 0, mp, split, x);
    rp[x] := newkey;
    assert rp[..x + 1] == m[split..newindx] + [newkey];
    CopyKeys(rp, x + 1, mp, newindx, nkeys - newindx);
    assert rp[..nkeys - split + 1] == rp[..x + 1] + rp[x + 1..nkeys - split + 1];
    assert rp[x + 1..nkeys - split + 1] == m[newindx..nkeys];
    RightParts(m, split, newindx, nkeys, newkey);
  }

  lemma RightParts(m: seq<Key>, split: nat, i: nat, n: nat, x: Key)
    requires split <= i <= n <= |m|
    ensures m[..split] + ((m[split..i] + [x]) + m[i..n]) == Insert(m[..n], i, x)
  {
    assert m[..i] == m[..split] + m[split..i];
    RightHalf(m[..split], m[split..i], m[i..n], x);
    assert m[..n][..i] == m[..i] && m[..n][i..] == m[i..n];
  }

  lemma RightHalf(a: seq<Key>, b: seq<Key>, c: seq<Key>, x: Key)
    ensures a + ((b + [x]) + c) == ((a + b) + [x]) + c
  {
  }

  /** Bytes of n keys. */
  function Area(n: int, size: int): int { n * size }

  /** The two counters leave exactly the room that the keys do not take. */
  lemma RoomLeft(p: Page)
    requires p.Valid()
    ensures p.upper - p.lower == p.psize - 16 - Area(p.NumKeys(), p.ksize) >= 0
  {
    Distribute(p.NumKeys(), p.slots.Length - p.NumKeys(), p.ksize);
    NotNegative(p.slots.Length - p.NumKeys(), p.ksize);
    assert Area(p.NumKeys(), p.ksize - 2) == Area(p.NumKeys(), p.ksize) - 2 * p.NumKeys();
  }

  lemma NotNegative(n: int, size: int)
    requires n >= 0 && size >= 0
    ensures Area(n, size) >= 0
  {
  }

  lemma Distribute(k: int, n: int, c: int)
    ensures Area(k, c) + Area(n, c) == Area(k + n, c)
  {
  }

  /** memmove of n keys. */
  method MoveKeys(a: array<Key>, dst: nat, src: nat, n: nat)
    requires dst + n <= a.Length && src + n <= a.Length
    modifies a
    ensures a[..dst] == old(a[..dst]) && a[dst..dst + n] == old(a[src..src + n]) && a[dst + n..] == old(a[dst + n..])
  {
    forall i | 0 <= i < n { a[dst + i] := a[src + i]; }
  }

  /** memcpy of n keys between pages. */
  method CopyKeys(a: array<Key>, dst: nat, b: array<Key>, src: nat, n: nat)
    requires a != b && dst + n <= a.Length && src + n <= b.Length
    modifies a
    ensures a[..dst] == old(a[..dst]) && a[dst..dst + n] == b[src..src + n] && a[dst + n..] == old(a[dst + n..])
  {
    forall i | 0 <= i < n { a[dst + i] := b[src + i]; }
  }
}
