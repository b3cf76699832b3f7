/** The link updates of `insert_large_chunk` and `unlink_large_chunk`, proved to store the edited trie. */
module TreeEdits {
  import opened SizeClasses
  import opened Trie
  import opened TreeLinks

  // ---------- rings ----------

  /** Links `x` into the ring of `t`, right behind `t`. */
  function ChainBehind(links: Links, t: int, x: int, index: nat): Links
    requires t in links && links[t].fd in links
  {
    var f := links[t].fd;
    var l1 := links[t := links[t].(fd := x)];
    var l2 := l1[f := l1[f].(bk := x)];
    l2[x := Link(f, t, 0, 0, 0, index)]
  }

  lemma ChainMember(sizes: Binned, links: Links, ring: seq<int>, size: nat, x: int, i: nat)
    requires RingAt(sizes, links, ring, size) && x !in sizes && x > 0 && i <= |ring|
    requires ring != [] && ring[0] in links && links[ring[0]].fd in links
    ensures Member(sizes[x := size], ChainBehind(links, ring[0], x, BinOf(size)), Behind(ring, x), size, i)
  {
    hide BinOf, RingAt;
    var n := |ring|;
    RingMember(sizes, links, ring, size, 0);
    RingMember(sizes, links, ring, size, Next(0, n));
    RingDiffers(sizes, links, ring, size, 0, Next(0, n));
    if i >= 2 {
      RingMember(sizes, links, ring, size, i - 1);
      RingDiffers(sizes, links, ring, size, 0, i - 1);
      RingDiffers(sizes, links, ring, size, Next(0, n), i - 1);
    }
  }

  lemma ChainRing(sizes: Binned, links: Links, ring: seq<int>, size: nat, x: int)
    requires RingAt(sizes, links, ring, size) && x !in sizes && x > 0
    ensures ring[0] in links && links[ring[0]].fd in links
    ensures RingAt(sizes[x := size], ChainBehind(links, ring[0], x, BinOf(size)), Behind(ring, x), size)
  {
    assert Member(sizes, links, ring, size, 0);
    assert Member(sizes, links, ring, size, Next(0, |ring|));
    var sizes', links', ring' := sizes[x := size], ChainBehind(links, ring[0], x, BinOf(size)), Behind(ring, x);
    forall i: nat | i < |ring'|
      ensures Member(sizes', links', ring', size, i)
    {
      ChainMember(sizes, links, ring, size, x, i);
    }
    forall j: nat | j < |ring|
      ensures ring[j] != x
    {
      assert Member(sizes, links, ring, size, j);
    }
  }

  /** Takes `x` out of its ring. */
  function Unchain(links: Links, x: int): Links
    requires x in links && links[x].fd in links && links[x].bk in links
  {
    var f, r := links[x].fd, links[x].bk;
    var l1 := links[f := links[f].(bk := r)];
    l1[r := l1[r].(fd := f)]
  }

  /** Where the `i`-th chunk of a ring without its `j`-th chunk came from. */
  function Origin(i: nat, j: nat, n: nat): (k: nat)
    requires i < n - 1 && j < n
    ensures k < n && k != j
  {
    if j == 0 then (if i == 0 then n - 1 else i) else (if i < j then i else i + 1)
  }

  lemma DropOrigin(ring: seq<int>, x: int, j: nat, i: nat)
    requires |ring| > 1 && j < |ring| && ring[j] == x && i < |ring| - 1
    requires IndexOf(ring, x) == j
    ensures Drop(ring, x)[i] == ring[Origin(i, j, |ring|)]
  {
  }

  /** Neighbours in a ring without its `j`-th chunk are the old ones, except around the gap. */
  lemma OriginNeighbours(i: nat, j: nat, n: nat)
    requires i < n - 1 && j < n
    ensures var k := Origin(i, j, n);
            && Origin(Next(i, n - 1), j, n) == (if k == Prev(j, n) then Next(j, n) else Next(k, n))
            && Origin(Prev(i, n - 1), j, n) == (if k == Next(j, n) then Prev(j, n) else Prev(k, n))
  {
  }

  lemma UnchainLink(links: Links, x: int, q: int)
    requires x in links && links[x].fd in links && links[x].bk in links && q in links
    ensures q in Unchain(links, x)
    ensures Unchain(links, x)[q] == links[q].(
              fd := if q == links[x].bk then links[x].fd else links[q].fd,
              bk := if q == links[x].fd then links[x].bk else links[q].bk)
  {
  }

  lemma DropMember(sizes: Binned, links: Links, ring: seq<int>, size: nat, x: int, i: nat)
    requires RingAt(sizes, links, ring, size) && x in ring && |ring| > 1 && i < |ring| - 1
    requires x in links && links[x].fd in links && links[x].bk in links
    ensures Member(sizes - {x}, Unchain(links, x), Drop(ring, x), size, i)
  {
    hide BinOf, RingAt, Unchain, Drop, Origin, IndexOf;
    var n, j := |ring|, IndexOf(ring, x);
    var k := Origin(i, j, n);
    RingMember(sizes, links, ring, size, j);
    RingMember(sizes, links, ring, size, k);
    RingDiffers(sizes, links, ring, size, j, k);
    RingDiffers(sizes, links, ring, size, Next(j, n), k);
    RingDiffers(sizes, links, ring, size, Prev(j, n), k);
    UnchainLink(links, x, ring[k]);
    OriginNeighbours(i, j, n);
    DropOrigin(ring, x, j, i);
    DropOrigin(ring, x, j, Next(i, n - 1));
    DropOrigin(ring, x, j, Prev(i, n - 1));
    OriginFirst(i, j, n);
  }

  lemma OriginFirst(i: nat, j: nat, n: nat)
    requires i < n - 1 && j < n
    ensures i > 0 ==> Origin(i, j, n) > 0
  {
  }

  lemma DropDistinct(ring: seq<int>, x: int)
    requires |ring| > 1 && x in ring && Distinct(ring)
    ensures Distinct(Drop(ring, x))
  {
    var j := IndexOf(ring, x);
    hide IndexOf, Drop;
    forall a, b | 0 <= a < b < |ring| - 1
      ensures Drop(ring, x)[a] != Drop(ring, x)[b]
    {
      DropOrigin(ring, x, j, a);
      DropOrigin(ring, x, j, b);
    }
  }

  lemma DropRing(sizes: Binned, links: Links, ring: seq<int>, size: nat, x: int)
    requires RingAt(sizes, links, ring, size) && x in ring && |ring| > 1
    ensures x in links && links[x].fd in links && links[x].bk in links
    ensures RingAt(sizes - {x}, Unchain(links, x), Drop(ring, x), size)
  {
    var n, j := |ring|, IndexOf(ring, x);
    assert Member(sizes, links, ring, size, j);
    assert Member(sizes, links, ring, size, Next(j, n));
    assert Member(sizes, links, ring, size, Prev(j, n));
    var sizes', links', ring' := sizes - {x}, Unchain(links, x), Drop(ring, x);
    forall i: nat | i < |ring'|
      ensures Member(sizes', links', ring', size, i)
    {
      DropMember(sizes, links, ring, size, x, i);
    }
    DropDistinct(ring, x);
  }

  // ---------- insertion ----------

  /** A new leaf below the node above the place, or at the root of the bin. */
  function Attach(links: Links, r: Spot, x: int, index: nat): Links {
    var l1 := links[x := Link(x, x, 0, 0, r.parent, index)];
    if r.parent in links then l1[r.parent := SetChild(links[r.parent], r.right, x)] else l1
  }

  lemma LeafStored(sizes: Binned, links: Links, s: nat, x: int, parent: int)
    requires x > 0 && x in sizes && sizes[x] == s && x in links && parent != 0
    requires links[x] == Link(x, x, 0, 0, parent, BinOf(s))
    ensures TreeAt(sizes, links, Node(s, [x], Nil, Nil), x, parent)
  {
    hide BinOf;
    assert Member(sizes, links, [x], s, 0);
  }

  lemma AttachStores(sizes: Binned, links: Links, t: Tree, p: int, parent: int, s: nat, lo: nat, n: nat, x: int)
    requires TreeAt(sizes, links, t, p, parent) && Ordered(t, lo, n) && InRange(s, lo, n)
    requires Linked(sizes, links) && parent < 0 && parent !in links && x > 0 && x !in sizes
    requires Reach(t, s, lo, n, parent, false).sub.Nil?
    ensures var r := Reach(t, s, lo, n, parent, false);
            TreeAt(sizes[x := s], Attach(links, r, x, BinOf(s)), Insert(t, s, x, lo, n),
                   if t.Nil? then x else p, parent)
  {
    hide BinOf;
    var r := Reach(t, s, lo, n, parent, false);
    var sizes', links' := sizes[x := s], Attach(links, r, x, BinOf(s));
    var sub := Node(s, [x], Nil, Nil);
    ReachParent(sizes, links, t, p, parent, false, s, lo, n);
    ReachAgrees(t, s, lo, n, parent);
    LeafStored(sizes', links', s, x, r.parent);
    Plug(sizes, links, sizes', links', t, p, parent, false, s, lo, n, sub, x);
  }

  lemma ChainStores(sizes: Binned, links: Links, t: Tree, p: int, parent: int, s: nat, lo: nat, n: nat, x: int, y: int)
    requires TreeAt(sizes, links, t, p, parent) && Ordered(t, lo, n) && InRange(s, lo, n)
    requires Linked(sizes, links) && parent < 0 && parent !in links && x > 0 && x !in sizes
    requires var r := Reach(t, s, lo, n, parent, false); r.sub.Node? && r.sub.ring != [] && y == r.sub.ring[0]
    ensures y in links && links[y].fd in links
    ensures TreeAt(sizes[x := s], ChainBehind(links, y, x, BinOf(s)), Insert(t, s, x, lo, n), p, parent)
  {
    hide BinOf;
    var r := Reach(t, s, lo, n, parent, false);
    ReachSpot(t, s, lo, n, parent, false);
    ReachAgrees(t, s, lo, n, parent);
    var rp := ReachStored(sizes, links, t, p, parent, false, s, lo, n);
    ChainRing(sizes, links, r.sub.ring, s, x);
    var sizes', links' := sizes[x := s], ChainBehind(links, r.sub.ring[0], x, BinOf(s));
    var sub := InsertHere(r.sub, s, x);
    ChainKeeps(sizes, links, r.sub.ring, s, x);
    TreeFrame(sizes, links, sizes', links', r.sub.left, links[rp].left, rp);
    TreeFrame(sizes, links, sizes', links', r.sub.right, links[rp].right, rp);
    assert TreeAt(sizes', links', sub, rp, r.parent);
    Plug(sizes, links, sizes', links', t, p, parent, false, s, lo, n, sub, rp);
  }

  /** Chaining touches only chunks of that size, and of the tree node only its `fd` and `bk`. */
  lemma ChainKeeps(sizes: Binned, links: Links, ring: seq<int>, size: nat, x: int)
    requires RingAt(sizes, links, ring, size) && x !in sizes && Linked(sizes, links)
    requires ring[0] in links && links[ring[0]].fd in links
    ensures var links' := ChainBehind(links, ring[0], x, BinOf(size));
            && (forall q | q in sizes && sizes[q] != size :: Same(sizes, links, sizes[x := size], links', q))
            && links'[ring[0]].left == links[ring[0]].left && links'[ring[0]].right == links[ring[0]].right
            && links'[ring[0]].parent == links[ring[0]].parent
  {
    assert Member(sizes, links, ring, size, 0);
    assert Member(sizes, links, ring, size, Next(0, |ring|));
  }

  // ---------- removal of a chained chunk ----------

  /** Unchaining touches only chunks of that size, and of any chunk only `fd` and `bk`. */
  lemma UnchainKeeps(sizes: Binned, links: Links, ring: seq<int>, size: nat, x: int, q: int)
    requires RingAt(sizes, links, ring, size) && x in ring && Linked(sizes, links)
    requires x in links && links[x].fd in links && links[x].bk in links
    requires q in links && (q in sizes ==> sizes[q] != size)
    ensures q in Unchain(links, x) && Unchain(links, x)[q] == links[q]
  {
    hide BinOf;
    var n, j := |ring|, IndexOf(ring, x);
    RingMember(sizes, links, ring, size, j);
    RingMember(sizes, links, ring, size, Next(j, n));
    RingMember(sizes, links, ring, size, Prev(j, n));
    hide RingAt;
    UnchainLink(links, x, q);
  }

  lemma UnchainStores(sizes: Binned, links: Links, t: Tree, p: int, parent: int, s: nat, lo: nat, n: nat, x: int)
    requires TreeAt(sizes, links, t, p, parent) && Ordered(t, lo, n) && InRange(s, lo, n)
    requires Linked(sizes, links) && parent < 0 && parent !in links
    requires x in sizes && sizes[x] == s && x in Lookup(t, s, lo, n) && links[x].parent == 0
    ensures links[x].fd in links && links[x].bk in links && links[x].bk != x
    ensures TreeAt(sizes - {x}, Unchain(links, x), Remove(t, s, x, lo, n), p, parent)
  {
    hide BinOf;
    ReachSpot(t, s, lo, n, parent, false);
    ReachAgrees(t, s, lo, n, parent);
    SubstLookup(t, s, lo, n, parent, false, Nil);
    var r := Reach(t, s, lo, n, parent, false);
    var y := ReachStored(sizes, links, t, p, parent, false, s, lo, n);
    ChainedBehind(sizes, links, r.sub, y, r.parent, x);
    var sub := RemoveHere(r.sub, x);
    UnchainSub(sizes, links, r.sub, y, r.parent, x, r.lo, r.n);
    UnchainFrame(sizes, links, t, r, s, x, y);
    Plug(sizes, links, sizes - {x}, Unchain(links, x), t, p, parent, false, s, lo, n, sub, y);
  }

  /** A chunk without parent is not the tree node of its ring, so it has a different predecessor. */
  lemma ChainedBehind(sizes: Binned, links: Links, sub: Tree, y: int, parent: int, x: int)
    requires sub.Node? && TreeAt(sizes, links, sub, y, parent) && x in sub.ring
    requires x in links && links[x].parent == 0
    ensures |sub.ring| > 1 && x != y && links[x].fd in links && links[x].bk in links && links[x].bk != x
  {
    hide BinOf;
    var n, j := |sub.ring|, IndexOf(sub.ring, x);
    RingMember(sizes, links, sub.ring, sub.size, 0);
    RingMember(sizes, links, sub.ring, sub.size, j);
    RingMember(sizes, links, sub.ring, sub.size, Next(j, n));
    RingMember(sizes, links, sub.ring, sub.size, Prev(j, n));
    RingDiffers(sizes, links, sub.ring, sub.size, j, Prev(j, n));
  }

  lemma UnchainSub(sizes: Binned, links: Links, sub: Tree, y: int, parent: int, x: int, lo: nat, n: nat)
    requires sub.Node? && TreeAt(sizes, links, sub, y, parent) && x in sub.ring && |sub.ring| > 1 && x != y
    requires Ordered(sub, lo, n) && Linked(sizes, links)
    requires x in links && links[x].fd in links && links[x].bk in links
    ensures TreeAt(sizes - {x}, Unchain(links, x), RemoveHere(sub, x), y, parent)
  {
    hide BinOf;
    var links' := Unchain(links, x);
    DropRing(sizes, links, sub.ring, sub.size, x);
    assert Drop(sub.ring, x)[0] == y;
    RingMember(sizes, links, sub.ring, sub.size, 0);
    RingMember(sizes, links, sub.ring, sub.size, IndexOf(sub.ring, x));
    UnchainLink(links, x, y);
    UnchainHalf(sizes, links, sub, x, sub.left, links[y].left, y);
    UnchainHalf(sizes, links, sub, x, sub.right, links[y].right, y);
  }

  lemma UnchainHalf(sizes: Binned, links: Links, sub: Tree, x: int, half: Tree, p: int, parent: int)
    requires sub.Node? && RingAt(sizes, links, sub.ring, sub.size) && x in sub.ring && Linked(sizes, links)
    requires x in links && links[x].fd in links && links[x].bk in links && x in sizes && sizes[x] == sub.size
    requires TreeAt(sizes, links, half, p, parent) && !Holds(half, sub.size)
    ensures TreeAt(sizes - {x}, Unchain(links, x), half, p, parent)
  {
    hide BinOf;
    forall q | q in sizes && Holds(half, sizes[q])
      ensures Same(sizes, links, sizes - {x}, Unchain(links, x), q)
    {
      UnchainKeeps(sizes, links, sub.ring, sub.size, x, q);
    }
    hide RingAt;
    TreeFrame(sizes, links, sizes - {x}, Unchain(links, x), half, p, parent);
  }

  lemma UnchainFrame(sizes: Binned, links: Links, t: Tree, r: Spot, s: nat, x: int, y: int)
    requires Linked(sizes, links) && r.sub.Node? && r.sub.size == s && RingAt(sizes, links, r.sub.ring, s)
             && x in r.sub.ring
    requires x in links && links[x].fd in links && links[x].bk in links && x in sizes && sizes[x] == s
    requires r.parent in links ==> y == if r.right then links[r.parent].right else links[r.parent].left
    ensures PlugFrame(sizes, links, sizes - {x}, Unchain(links, x), t, r, y)
  {
    hide BinOf;
    forall q | q in sizes && Holds(t, sizes[q]) && !Holds(r.sub, sizes[q])
      ensures q in links && q in Unchain(links, x) && Unchain(links, x)[q] == links[q]
    {
      UnchainKeeps(sizes, links, r.sub.ring, s, x, q);
    }
  }
}
