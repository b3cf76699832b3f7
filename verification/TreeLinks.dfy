/**
 The tree bins in memory. Every binned chunk has a record of links; equal sizes form a circular doubly linked
 ring of which one chunk, with a nonzero parent, sits in the tree. Predicates tie the records to a `Trie` value.
 `sizes` maps every binned chunk to its size, so that records of different sizes can never coincide.
 */
module TreeLinks {
  import opened Words
  import opened SizeClasses
  import opened Trie

  datatype Link = Link(fd: int, bk: int, left: int, right: int, parent: int, index: nat)

  type Links = map<int, Link>
  type Binned = map<int, nat>

  function Next(i: nat, n: nat): (r: nat)
    requires i < n
    ensures r < n
  {
    if i + 1 == n then 0 else i + 1
  }

  function Prev(i: nat, n: nat): (r: nat)
    requires i < n
    ensures r < n
  {
    if i == 0 then n - 1 else i - 1
  }

  predicate Distinct(ring: seq<int>) {
    forall i, j | 0 <= i < j < |ring| :: ring[i] != ring[j]
  }

  /** The record of the `i`-th chunk of a ring: only the first one may hang in the tree. */
  predicate Member(sizes: Binned, links: Links, ring: seq<int>, size: nat, i: nat)
    requires i < |ring|
  {
    var q := ring[i];
    && q > 0 && q in sizes && sizes[q] == size
    && q in links && links[q].index == BinOf(size)
    && links[q].fd == ring[Next(i, |ring|)] && links[q].bk == ring[Prev(i, |ring|)]
    && (i > 0 ==> links[q].parent == 0 && links[q].left == 0 && links[q].right == 0)
  }

  ghost predicate RingAt(sizes: Binned, links: Links, ring: seq<int>, size: nat) {
    && ring != [] && Distinct(ring)
    && forall i: nat | i < |ring| :: Member(sizes, links, ring, size, i)
  }

  lemma RingMember(sizes: Binned, links: Links, ring: seq<int>, size: nat, i: nat)
    requires RingAt(sizes, links, ring, size) && i < |ring|
    ensures Member(sizes, links, ring, size, i)
  {
  }

  lemma RingDiffers(sizes: Binned, links: Links, ring: seq<int>, size: nat, i: nat, j: nat)
    requires RingAt(sizes, links, ring, size) && i < |ring| && j < |ring|
    ensures ring[i] == ring[j] ==> i == j
  {
  }

  /** The trie `t` is stored at `p` with parent link `parent`. */
  ghost predicate TreeAt(sizes: Binned, links: Links, t: Tree, p: int, parent: int)
    decreases t
  {
    if t.Nil? then p == 0
    else
      && RingAt(sizes, links, t.ring, t.size)
      && p == t.ring[0] && p in links && links[p].parent == parent && parent != 0
      && TreeAt(sizes, links, t.left, links[p].left, p)
      && TreeAt(sizes, links, t.right, links[p].right, p)
  }

  /** Every binned chunk has a record. */
  ghost predicate Linked(sizes: Binned, links: Links) {
    forall q | q in sizes :: q > 0 && q in links
  }

  /** Chunk `q` keeps its size and its record. */
  predicate Same(sizes: Binned, links: Links, sizes': Binned, links': Links, q: int) {
    && q in sizes && q in sizes' && sizes'[q] == sizes[q]
    && q in links && q in links' && links'[q] == links[q]
  }

  ghost predicate Kept(sizes: Binned, links: Links, sizes': Binned, links': Links, t: Tree) {
    forall q | q in sizes && Holds(t, sizes[q]) :: Same(sizes, links, sizes', links', q)
  }

  lemma RingFrame(sizes: Binned, links: Links, sizes': Binned, links': Links, ring: seq<int>, size: nat)
    requires RingAt(sizes, links, ring, size)
    requires forall q | q in sizes && sizes[q] == size :: Same(sizes, links, sizes', links', q)
    ensures RingAt(sizes', links', ring, size)
  {
    forall i: nat | i < |ring|
      ensures Member(sizes', links', ring, size, i)
    {
      assert Member(sizes, links, ring, size, i);
      assert Same(sizes, links, sizes', links', ring[i]);
    }
  }

  /** A stored trie does not depend on the records of chunks of other sizes. */
  lemma {:induction false} TreeFrame(sizes: Binned, links: Links, sizes': Binned, links': Links, t: Tree, p: int,
                                     parent: int)
    requires TreeAt(sizes, links, t, p, parent)
    requires Kept(sizes, links, sizes', links', t)
    ensures TreeAt(sizes', links', t, p, parent)
    decreases t
  {
    if t.Node? {
      RingFrame(sizes, links, sizes', links', t.ring, t.size);
      assert Member(sizes, links, t.ring, t.size, 0);
      assert Same(sizes, links, sizes', links', p);
      TreeFrame(sizes, links, sizes', links', t.left, links[p].left, p);
      TreeFrame(sizes, links, sizes', links', t.right, links[p].right, p);
    }
  }

  function SetChild(link: Link, right: bool, v: int): Link {
    if right then link.(right := v) else link.(left := v)
  }

  /** All chunks of `t` outside the place `r` are kept, except that the node above now points to `v`. */
  ghost predicate PlugFrame(sizes: Binned, links: Links, sizes': Binned, links': Links, t: Tree, r: Spot, v: int) {
    forall q | q in sizes && Holds(t, sizes[q]) && !Holds(r.sub, sizes[q]) ::
      && q in links && q in sizes' && q in links' && sizes'[q] == sizes[q]
      && links'[q] == if q == r.parent then SetChild(links[q], r.right, v) else links[q]
  }

  /** The node above a place deeper than the root is a chunk of the trie, not one of the place. */
  lemma {:induction false} ReachParent(sizes: Binned, links: Links, t: Tree, p: int, parent: int, right: bool, s: nat,
                                       lo: nat, n: nat)
    requires TreeAt(sizes, links, t, p, parent) && Ordered(t, lo, n) && InRange(s, lo, n)
    ensures var r := Reach(t, s, lo, n, parent, right);
            if Ends(t, s, n) then r.parent == parent
            else r.parent in sizes && r.parent in links && Holds(t, sizes[r.parent]) && !Holds(r.sub, sizes[r.parent])
    decreases t
  {
    if !Ends(t, s, n) {
      var h := Half(t, s, lo, n);
      RootSize(sizes, links, t, p, parent);
      hide RingAt;
      ReachParent(sizes, links, h, if GoesRight(s, lo, n) then links[p].right else links[p].left, p,
                  GoesRight(s, lo, n), s, HalfLo(s, lo, n), n - 1);
      ReachHolds(h, s, HalfLo(s, lo, n), n - 1, p, GoesRight(s, lo, n), t.size);
    }
  }

  /** The ring of a node survives when its records change at most in the child links of the first chunk. */
  lemma PlugRing(sizes: Binned, links: Links, sizes': Binned, links': Links, t: Tree, r: Spot, v: int)
    requires t.Node? && RingAt(sizes, links, t.ring, t.size) && !Holds(r.sub, t.size)
    requires PlugFrame(sizes, links, sizes', links', t, r, v)
    requires r.parent in sizes && sizes[r.parent] == t.size ==> r.parent == t.ring[0]
    ensures RingAt(sizes', links', t.ring, t.size)
  {
    forall i: nat | i < |t.ring|
      ensures Member(sizes', links', t.ring, t.size, i)
    {
      assert Member(sizes, links, t.ring, t.size, i);
    }
  }

  /** The half that the descent does not enter is untouched. */
  lemma OtherHalf(sizes: Binned, links: Links, sizes': Binned, links': Links, t: Tree, s: nat, lo: nat, n: nat,
                  r: Spot, v: int)
    requires t.Node? && n > 0 && Ordered(t, lo, n) && InRange(s, lo, n)
    requires PlugFrame(sizes, links, sizes', links', t, r, v)
    requires forall k: nat | Holds(r.sub, k) :: Holds(Half(t, s, lo, n), k)
    requires r.parent in sizes ==> sizes[r.parent] == t.size || Holds(Half(t, s, lo, n), sizes[r.parent])
    ensures Kept(sizes, links, sizes', links', if GoesRight(s, lo, n) then t.left else t.right)
  {
    var other := if GoesRight(s, lo, n) then t.left else t.right;
    forall q | q in sizes && Holds(other, sizes[q])
      ensures Same(sizes, links, sizes', links', q)
    {
      var k := sizes[q];
      HoldsInRange(other, if GoesRight(s, lo, n) then lo else lo + Pow2(n - 1), n - 1, k);
      if Holds(Half(t, s, lo, n), k) {
        HoldsInRange(Half(t, s, lo, n), HalfLo(s, lo, n), n - 1, k);
      }
    }
  }

  /** Replacing the subtree at the place of `s` by one stored at `v` stores the trie with that place replaced. */
  lemma {:induction false} Plug(sizes: Binned, links: Links, sizes': Binned, links': Links, t: Tree, p: int,
                                parent: int,
                                right: bool, s: nat, lo: nat, n: nat, sub: Tree, v: int)
    requires TreeAt(sizes, links, t, p, parent) && Ordered(t, lo, n) && InRange(s, lo, n)
    requires var r := Reach(t, s, lo, n, parent, right);
             && TreeAt(sizes', links', sub, v, r.parent)
             && PlugFrame(sizes, links, sizes', links', t, r, v)
    ensures TreeAt(sizes', links', Subst(t, s, lo, n, sub), if Ends(t, s, n) then v else p, parent)
    decreases t
  {
    if !Ends(t, s, n) {
      hide RingAt;
      var h := Half(t, s, lo, n);
      var hp := if GoesRight(s, lo, n) then links[p].right else links[p].left;
      Plug(sizes, links, sizes', links', h, hp, p, GoesRight(s, lo, n), s, HalfLo(s, lo, n), n - 1, sub, v);
      PlugNode(sizes, links, sizes', links', t, p, parent, right, s, lo, n, v);
    }
  }

  /** The node step of `Plug`: its ring, its other half and its links. */
  lemma PlugNode(sizes: Binned, links: Links, sizes': Binned, links': Links, t: Tree, p: int, parent: int,
                 right: bool, s: nat, lo: nat, n: nat, v: int)
    requires TreeAt(sizes, links, t, p, parent) && Ordered(t, lo, n) && InRange(s, lo, n) && !Ends(t, s, n)
    requires PlugFrame(sizes, links, sizes', links', t, Reach(t, s, lo, n, parent, right), v)
    ensures RingAt(sizes', links', t.ring, t.size) && p in links' && p in links && links'[p].parent == parent
    ensures if GoesRight(s, lo, n) then TreeAt(sizes', links', t.left, links'[p].left, p)
            else TreeAt(sizes', links', t.right, links'[p].right, p)
    ensures var q := if GoesRight(s, lo, n) then links'[p].right else links'[p].left;
            q == if Ends(Half(t, s, lo, n), s, n - 1) then v
                 else if GoesRight(s, lo, n) then links[p].right else links[p].left
  {
    var r := Reach(t, s, lo, n, parent, right);
    var h := Half(t, s, lo, n);
    var hp := if GoesRight(s, lo, n) then links[p].right else links[p].left;
    assert Member(sizes, links, t.ring, t.size, 0);
    ReachParent(sizes, links, h, hp, p, GoesRight(s, lo, n), s, HalfLo(s, lo, n), n - 1);
    forall k: nat | Holds(r.sub, k)
      ensures Holds(h, k)
    {
      ReachHolds(h, s, HalfLo(s, lo, n), n - 1, p, GoesRight(s, lo, n), k);
    }
    PlugRing(sizes, links, sizes', links', t, r, v);
    OtherHalf(sizes, links, sizes', links', t, s, lo, n, r, v);
    if GoesRight(s, lo, n) {
      TreeFrame(sizes, links, sizes', links', t.left, links[p].left, p);
    } else {
      TreeFrame(sizes, links, sizes', links', t.right, links[p].right, p);
    }
  }

  /** The subtree at a place is stored below the node above it. */
  lemma {:induction false} ReachStored(sizes: Binned, links: Links, t: Tree, p: int, parent: int, right: bool, s: nat,
                                       lo: nat, n: nat)
    returns (v: int)
    requires TreeAt(sizes, links, t, p, parent) && Ordered(t, lo, n)
    ensures var r := Reach(t, s, lo, n, parent, right);
            && TreeAt(sizes, links, r.sub, v, r.parent)
            && (if Ends(t, s, n) then v == p
                else r.parent in links && v == if r.right then links[r.parent].right else links[r.parent].left)
    decreases t
  {
    if Ends(t, s, n) {
      v := p;
    } else {
      v := ReachStored(sizes, links, Half(t, s, lo, n), if GoesRight(s, lo, n) then links[p].right else links[p].left,
                       p, GoesRight(s, lo, n), s, HalfLo(s, lo, n), n - 1);
    }
  }

  lemma RootSize(sizes: Binned, links: Links, t: Tree, p: int, parent: int)
    requires TreeAt(sizes, links, t, p, parent)
    ensures t.Node? <==> p != 0
    ensures t.Node? ==> p > 0 && p in sizes && sizes[p] == t.size && p in links && links[p].parent == parent
  {
    if t.Node? {
      RingMember(sizes, links, t.ring, t.size, 0);
    }
  }

  /** Of the node above a place only the child link on the side of the place points there. */
  lemma {:induction false} ReachSide(sizes: Binned, links: Links, t: Tree, p: int, parent: int, right: bool, s: nat,
                                     lo: nat, n: nat, v: int)
    requires TreeAt(sizes, links, t, p, parent) && Ordered(t, lo, n) && InRange(s, lo, n) && !Ends(t, s, n)
    requires v in sizes && sizes[v] == s && v != 0
    ensures var r := Reach(t, s, lo, n, parent, right);
            r.parent in links && v != if r.right then links[r.parent].left else links[r.parent].right
    decreases t
  {
    hide RingAt;
    var h := Half(t, s, lo, n);
    var other := if GoesRight(s, lo, n) then t.left else t.right;
    if Ends(h, s, n - 1) {
      RootSize(sizes, links, other, if GoesRight(s, lo, n) then links[p].left else links[p].right, p);
      if other.Node? {
        HoldsInRange(other, if GoesRight(s, lo, n) then lo else lo + Pow2(n - 1), n - 1, other.size);
      }
    } else {
      ReachSide(sizes, links, h, if GoesRight(s, lo, n) then links[p].right else links[p].left, p,
                GoesRight(s, lo, n), s, HalfLo(s, lo, n), n - 1, v);
    }
  }
}
