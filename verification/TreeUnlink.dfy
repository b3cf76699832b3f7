/** Removal of a chunk that sits in the tree: its successor in the ring, or else a leaf from below, takes its place. */
module TreeUnlink {
  import opened Words
  import opened SizeClasses
  import opened Trie
  import opened TreeLinks
  import opened TreeEdits

  function First(t: Tree): int
    requires t.Node?
  {
    if t.ring == [] then 0 else t.ring[0]
  }

  /** A leaf and the child link that points to it. */
  datatype Tail = Tail(leaf: int, parent: int, right: bool)

  predicate IsLeaf(t: Tree) {
    t.Node? && t.left.Nil? && t.right.Nil?
  }

  /** The leaf that the walk of `unlink_large_chunk` ends at: right whenever possible, else left. */
  function Rightmost(t: Tree, parent: int, right: bool): Tail
    requires t.Node?
  {
    if t.right.Node? then Rightmost(t.right, First(t), true)
    else if t.left.Node? then Rightmost(t.left, First(t), false)
    else Tail(First(t), parent, right)
  }

  /** The leaf is a tree node without children; the node above it belongs to the trie unless the trie is a leaf. */
  lemma {:induction false} RightmostIs(sizes: Binned, links: Links, t: Tree, p: int, parent: int, right: bool)
    requires t.Node? && TreeAt(sizes, links, t, p, parent)
    ensures var w, leaf := Rightmost(t, parent, right), Pull(t).leaf;
            && w.leaf in sizes && sizes[w.leaf] == leaf.size && w.leaf in links && w.leaf > 0
            && links[w.leaf].left == 0 && links[w.leaf].right == 0
            && RingAt(sizes, links, leaf.ring, leaf.size) && leaf.ring[0] == w.leaf
            && (if IsLeaf(t) then w == Tail(p, parent, right)
                else w.parent in sizes && w.parent in links && Holds(t, sizes[w.parent]) && w.parent > 0)
    decreases t
  {
    hide BinOf;
    RootSize(sizes, links, t, p, parent);
    hide RingAt;
    if t.right.Node? {
      RightmostIs(sizes, links, t.right, links[p].right, p, true);
    } else if t.left.Node? {
      RightmostIs(sizes, links, t.left, links[p].left, p, false);
    }
  }

  /** Clearing one child link of chunk `a`. */
  function Detach(links: Links, a: int, right: bool): Links
    requires a in links
  {
    links[a := SetChild(links[a], right, 0)]
  }

  lemma DetachRing(sizes: Binned, links: Links, ring: seq<int>, size: nat, a: int, right: bool)
    requires RingAt(sizes, links, ring, size) && a in links
    requires a in sizes && sizes[a] == size ==> a == ring[0]
    ensures RingAt(sizes, Detach(links, a, right), ring, size)
  {
    hide BinOf;
    forall i: nat | i < |ring|
      ensures Member(sizes, Detach(links, a, right), ring, size, i)
    {
      assert Member(sizes, links, ring, size, i);
    }
  }

  /** A trie does not notice the record of a chunk of another size. */
  lemma OtherRecord(sizes: Binned, links: Links, t: Tree, p: int, parent: int, a: int, v: Link)
    requires TreeAt(sizes, links, t, p, parent) && Linked(sizes, links)
    requires a in sizes ==> !Holds(t, sizes[a])
    ensures TreeAt(sizes, links[a := v], t, p, parent)
  {
    TreeFrame(sizes, links, sizes, links[a := v], t, p, parent);
  }

  lemma OtherRing(sizes: Binned, links: Links, ring: seq<int>, size: nat, a: int, v: Link)
    requires RingAt(sizes, links, ring, size) && Linked(sizes, links)
    requires a in sizes ==> sizes[a] != size
    ensures RingAt(sizes, links[a := v], ring, size)
  {
    RingFrame(sizes, links, sizes, links[a := v], ring, size);
  }

  /** Cutting the leaf off stores the rest of the trie. */
  lemma {:induction false} DetachStores(sizes: Binned, links: Links, t: Tree, p: int, parent: int, right: bool,
                                        lo: nat, n: nat)
    requires t.Node? && !IsLeaf(t) && TreeAt(sizes, links, t, p, parent) && Ordered(t, lo, n) && Linked(sizes, links)
    ensures var w := Rightmost(t, parent, right);
            w.parent in links && TreeAt(sizes, Detach(links, w.parent, w.right), Pull(t).rest, p, parent)
    decreases t
  {
    hide BinOf;
    RootSize(sizes, links, t, p, parent);
    RightmostIs(sizes, links, t, p, parent, right);
    var w := Rightmost(t, parent, right);
    var down := t.right.Node?;
    var h, hp := if down then t.right else t.left, if down then links[p].right else links[p].left;
    RightmostIs(sizes, links, h, hp, p, down);
    DetachRing(sizes, links, t.ring, t.size, w.parent, w.right);
    hide RingAt;
    DetachSibling(sizes, links, t, p, lo, n, w.parent, w.right);
    if !IsLeaf(h) {
      DetachStores(sizes, links, h, hp, p, down, if down then lo + Pow2(n - 1) else lo, n - 1);
    }
  }

  lemma DetachSibling(sizes: Binned, links: Links, t: Tree, p: int, lo: nat, n: nat, a: int, right: bool)
    requires t.Node? && Ordered(t, lo, n) && n > 0 && Linked(sizes, links) && p in links && a in links && a in sizes
    requires TreeAt(sizes, links, t.left, links[p].left, p)
    requires sizes[a] == t.size || Holds(if t.right.Node? then t.right else t.left, sizes[a])
    ensures t.right.Node? ==> TreeAt(sizes, Detach(links, a, right), t.left, links[p].left, p)
  {
    if t.right.Node? {
      if Holds(t.left, sizes[a]) {
        HoldsInRange(t.left, lo, n - 1, sizes[a]);
        HoldsInRange(t.right, lo + Pow2(n - 1), n - 1, sizes[a]);
      }
      OtherRecord(sizes, links, t.left, links[p].left, p, a, SetChild(links[a], right, 0));
    }
  }

  // ---------- taking over the place of a tree node ----------

  /**
   The trie `u` waits to take the place of the tree node `x`: its ring is complete, its subtrees still hang off `x`.
   */
  ghost predicate Ready(sizes: Binned, links: Links, x: int, u: Tree, r: int) {
    if u.Nil? then r == 0
    else
      && RingAt(sizes, links, u.ring, u.size) && r == u.ring[0] && r in links && links[r].left == 0
         && links[r].right == 0
      && x in links
      && TreeAt(sizes, links, u.left, links[x].left, x)
      && TreeAt(sizes, links, u.right, links[x].right, x)
  }

  /** `r` takes over the parent and the children of `x`. */
  function Adopt(links: Links, x: int, r: int, parent: int): Links
    requires r in links && x in links
    requires (links[x].left != 0 ==> links[x].left in links) && (links[x].right != 0 ==> links[x].right in links)
  {
    var l1 := links[r := links[r].(parent := parent)];
    var c0 := links[x].left;
    var l2 := if c0 == 0 then l1 else AdoptChild(l1, r, false, c0);
    var c1 := links[x].right;
    if c1 == 0 then l2 else AdoptChild(l2, r, true, c1)
  }

  function AdoptChild(links: Links, r: int, right: bool, c: int): Links
    requires r in links && c in links
  {
    var l1 := links[r := SetChild(links[r], right, c)];
    l1[c := l1[c].(parent := r)]
  }

  lemma Reparent(sizes: Binned, links: Links, links': Links, t: Tree, p: int, parent: int, parent': int)
    requires t.Node? && TreeAt(sizes, links, t, p, parent) && parent' != 0
    requires !Holds(t.left, t.size) && !Holds(t.right, t.size)
    requires p in links && p in links' && links'[p] == links[p].(parent := parent')
    requires forall q | q in sizes && Holds(t, sizes[q]) && q != p :: Same(sizes, links, sizes, links', q)
    ensures TreeAt(sizes, links', t, p, parent')
  {
    hide BinOf;
    RootSize(sizes, links, t, p, parent);
    forall i: nat | i < |t.ring|
      ensures Member(sizes, links', t.ring, t.size, i)
    {
      RingMember(sizes, links, t.ring, t.size, i);
      RingDiffers(sizes, links, t.ring, t.size, 0, i);
    }
    TreeFrame(sizes, links, sizes, links', t.left, links[p].left, p);
    TreeFrame(sizes, links, sizes, links', t.right, links[p].right, p);
  }

  /** Adopting one child moves its subtree under `r` and leaves all other sizes alone. */
  lemma AdoptChildStores(sizes: Binned, links: Links, r: int, right: bool, t: Tree, c: int, x: int, lo: nat, n: nat)
    requires t.Node? && Ordered(t, lo, n) && TreeAt(sizes, links, t, c, x) && Linked(sizes, links)
    requires r > 0 && r in links && (r in sizes ==> !Holds(t, sizes[r]))
    ensures c in links && TreeAt(sizes, AdoptChild(links, r, right, c), t, c, r)
    ensures c != r && AdoptChild(links, r, right, c)[r] == SetChild(links[r], right, c)
    ensures forall q | q in links && q != r && (q in sizes ==> sizes[q] != t.size) ::
              AdoptChild(links, r, right, c)[q] == links[q]
  {
    RootSize(sizes, links, t, c, x);
    Reparent(sizes, links, AdoptChild(links, r, right, c), t, c, x, r);
  }

  /** `links` with one child of `x` adopted by `r`, unless there is none. */
  function Adopt1(links: Links, r: int, right: bool, c: int): Links
    requires r in links && (c != 0 ==> c in links)
  {
    if c == 0 then links else AdoptChild(links, r, right, c)
  }

  /** Two tries and a ring of pairwise different sizes. */
  predicate Apart(t: Tree, other: Tree, size: nat) {
    && !Holds(t, size) && !Holds(other, size)
    && (t.Node? ==> !Holds(other, t.size))
  }

  lemma {:induction false} AdoptStep(sizes: Binned, links: Links, r: int, right: bool, t: Tree, c: int, x: int,
                                     lo: nat, n: nat,
                  other: Tree, op: int, oparent: int, ring: seq<int>, size: nat)
    requires Ordered(t, lo, n) && TreeAt(sizes, links, t, c, x) && Linked(sizes, links)
    requires TreeAt(sizes, links, other, op, oparent) && Apart(t, other, size)
    requires RingAt(sizes, links, ring, size) && r == ring[0] && r in links
    requires if right then links[r].right == 0 else links[r].left == 0
    ensures c != 0 ==> c in links
    ensures var links' := Adopt1(links, r, right, c);
            && Linked(sizes, links') && r in links' && links'[r] == SetChild(links[r], right, c)
            && TreeAt(sizes, links', t, c, r)
            && TreeAt(sizes, links', other, op, oparent)
            && RingAt(sizes, links', ring, size)
  {
    hide BinOf;
    RingMember(sizes, links, ring, size, 0);
    RootSize(sizes, links, t, c, x);
    if t.Node? {
      AdoptChildStores(sizes, links, r, right, t, c, x, lo, n);
      var links' := AdoptChild(links, r, right, c);
      AdoptRing(sizes, links, r, right, t.size, c, ring, size);
      hide RingAt, AdoptChild;
      TreeFrame(sizes, links, sizes, links', other, op, oparent);
    }
  }

  lemma AdoptRing(sizes: Binned, links: Links, r: int, right: bool, csize: nat, c: int, ring: seq<int>, size: nat)
    requires RingAt(sizes, links, ring, size) && r == ring[0] && r in links
    requires c in links && c in sizes && sizes[c] == csize && csize != size
    ensures RingAt(sizes, AdoptChild(links, r, right, c), ring, size)
  {
    hide BinOf;
    forall i: nat | i < |ring|
      ensures Member(sizes, AdoptChild(links, r, right, c), ring, size, i)
    {
      RingMember(sizes, links, ring, size, i);
      RingDiffers(sizes, links, ring, size, 0, i);
    }
  }

  lemma NewParentRing(sizes: Binned, links: Links, ring: seq<int>, size: nat, parent: int)
    requires RingAt(sizes, links, ring, size) && ring[0] in links
    ensures RingAt(sizes, links[ring[0] := links[ring[0]].(parent := parent)], ring, size)
  {
    hide BinOf;
    var links' := links[ring[0] := links[ring[0]].(parent := parent)];
    forall i: nat | i < |ring|
      ensures Member(sizes, links', ring, size, i)
    {
      RingMember(sizes, links, ring, size, i);
      RingDiffers(sizes, links, ring, size, 0, i);
    }
  }

  /** After the adoption `u` is stored in place of `x`. */
  lemma {:induction false} AdoptStores(sizes: Binned, links: Links, x: int, u: Tree, r: int, parent: int, lo: nat,
                                       n: nat)
    requires u.Node? && Ready(sizes, links, x, u, r) && Ordered(u, lo, n) && Linked(sizes, links)
    requires x !in sizes && x in links && parent != 0
    ensures links[x].left != 0 ==> links[x].left in links
    ensures links[x].right != 0 ==> links[x].right in links
    ensures TreeAt(sizes, Adopt(links, x, r, parent), u, r, parent)
  {
    hide BinOf;
    RingMember(sizes, links, u.ring, u.size, 0);
    RootSize(sizes, links, u.left, links[x].left, x);
    RootSize(sizes, links, u.right, links[x].right, x);
    var c0, c1 := links[x].left, links[x].right;
    var l1 := links[r := links[r].(parent := parent)];
    NewParentRing(sizes, links, u.ring, u.size, parent);
    OtherRecord(sizes, links, u.left, c0, x, r, l1[r]);
    OtherRecord(sizes, links, u.right, c1, x, r, l1[r]);
    hide RingAt;
    if n == 0 {
    } else {
      HalvesApart(u, lo, n);
      AdoptStep(sizes, l1, r, false, u.left, c0, x, lo, n - 1, u.right, c1, x, u.ring, u.size);
      var l2 := Adopt1(l1, r, false, c0);
      AdoptStep(sizes, l2, r, true, u.right, c1, x, lo + Pow2(n - 1), n - 1, u.left, c0, r, u.ring, u.size);
    }
  }

  lemma HalvesApart(u: Tree, lo: nat, n: nat)
    requires u.Node? && Ordered(u, lo, n) && n > 0
    ensures Apart(u.left, u.right, u.size) && Apart(u.right, u.left, u.size)
  {
    if u.left.Node? && Holds(u.right, u.left.size) {
      HoldsInRange(u.right, lo + Pow2(n - 1), n - 1, u.left.size);
    }
    if u.right.Node? && Holds(u.left, u.right.size) {
      HoldsInRange(u.left, lo, n - 1, u.right.size);
    }
  }

  /** Only chunks of the sizes of `sub` have changed. */
  ghost predicate Confined(sizes: Binned, links: Links, links': Links, sub: Tree) {
    && links.Keys <= links'.Keys
    && forall q | q in links && (q in sizes ==> !Holds(sub, sizes[q])) :: links'[q] == links[q]
  }

  /** Case 1: another chunk of the ring takes over. */
  lemma ReadyFromRing(sizes: Binned, links: Links, sub: Tree, x: int, parent: int, lo: nat, n: nat)
    requires sub.Node? && |sub.ring| > 1 && Ordered(sub, lo, n) && TreeAt(sizes, links, sub, x, parent)
             && Linked(sizes, links)
    ensures links[x].bk != x && links[x].fd in links && links[x].bk in links
    ensures Ready(sizes - {x}, Unchain(links, x), x, RemoveHere(sub, x), links[x].bk)
    ensures Confined(sizes, links, Unchain(links, x), sub)
  {
    hide BinOf;
    var m := |sub.ring|;
    RingMember(sizes, links, sub.ring, sub.size, 0);
    RingMember(sizes, links, sub.ring, sub.size, m - 1);
    RingMember(sizes, links, sub.ring, sub.size, 1);
    RingDiffers(sizes, links, sub.ring, sub.size, 0, m - 1);
    DropRing(sizes, links, sub.ring, sub.size, x);
    UnchainLink(links, x, x);
    UnchainLink(links, x, links[x].bk);
    UnchainHalf(sizes, links, sub, x, sub.left, links[x].left, x);
    UnchainHalf(sizes, links, sub, x, sub.right, links[x].right, x);
    forall q | q in links && (q in sizes ==> !Holds(sub, sizes[q]))
      ensures Unchain(links, x)[q] == links[q]
    {
      UnchainKeeps(sizes, links, sub.ring, sub.size, x, q);
    }
  }

  /** Forgetting the chunk `x` does not matter to tries and rings of other sizes. */
  lemma ForgetTree(sizes: Binned, links: Links, t: Tree, p: int, parent: int, x: int)
    requires TreeAt(sizes, links, t, p, parent) && Linked(sizes, links) && (x in sizes ==> !Holds(t, sizes[x]))
    ensures TreeAt(sizes - {x}, links, t, p, parent)
  {
    TreeFrame(sizes, links, sizes - {x}, links, t, p, parent);
  }

  lemma ForgetRing(sizes: Binned, links: Links, ring: seq<int>, size: nat, x: int)
    requires RingAt(sizes, links, ring, size) && Linked(sizes, links) && (x in sizes ==> sizes[x] != size)
    ensures RingAt(sizes - {x}, links, ring, size)
  {
    RingFrame(sizes, links, sizes - {x}, links, ring, size);
  }

  /** Where the walk for a replacement leaf starts: the right child if there is one, else the left. */
  function Below(sub: Tree): Tree
    requires sub.Node?
  {
    if sub.right.Node? then sub.right else sub.left
  }

  /** Case 2: the last chunk of its size is replaced by the leaf `w` from below. */
  lemma ReadyFromLeaf(sizes: Binned, links: Links, sub: Tree, x: int, parent: int, lo: nat, n: nat, w: Tail)
    requires sub.Node? && |sub.ring| == 1 && Ordered(sub, lo, n) && TreeAt(sizes, links, sub, x, parent)
             && Linked(sizes, links)
    requires Below(sub).Node? && w == Rightmost(Below(sub), x, sub.right.Node?)
    ensures w.parent in links && links[x].bk == x
    ensures Ready(sizes - {x}, Detach(links, w.parent, w.right), x, RemoveHere(sub, x), w.leaf)
    ensures Confined(sizes, links, Detach(links, w.parent, w.right), sub)
  {
    hide BinOf;
    RingMember(sizes, links, sub.ring, sub.size, 0);
    var h, hp := Below(sub), if sub.right.Node? then links[x].right else links[x].left;
    var hlo := if sub.right.Node? then lo + Pow2(n - 1) else lo;
    hide RingAt;
    RightmostIs(sizes, links, h, hp, x, sub.right.Node?);
    PullHolds(h, sub.size);
    PullOrdered(h, hlo, n - 1);
    ReadyRest(sizes, links, sub, x, parent, lo, n, w);
    ReadyLeafRing(sizes, links, sub, x, h, hp, lo, n, w);
    var leaf := Pull(h).leaf;
    ForgetRing(sizes, Detach(links, w.parent, w.right), leaf.ring, leaf.size, x);
    var links' := Detach(links, w.parent, w.right);
    ForgetTree(sizes, links', RemoveHere(sub, x).left, links'[x].left, x, x);
    ForgetTree(sizes, links', RemoveHere(sub, x).right, links'[x].right, x, x);
  }

  lemma ReadyLeafRing(sizes: Binned, links: Links, sub: Tree, x: int, h: Tree, hp: int, lo: nat, n: nat, w: Tail)
    requires sub.Node? && Ordered(sub, lo, n) && Linked(sizes, links) && n > 0
    requires x in sizes && sizes[x] == sub.size && x in links
    requires h == Below(sub) && h.Node? && TreeAt(sizes, links, h, hp, x)
    requires w == Rightmost(h, x, sub.right.Node?)
    ensures w.parent in links
    ensures var leaf, links' := Pull(h).leaf, Detach(links, w.parent, w.right);
            && RingAt(sizes, links', leaf.ring, leaf.size) && w.leaf == leaf.ring[0]
            && w.leaf in links' && links'[w.leaf].left == 0 && links'[w.leaf].right == 0
            && leaf.size != sub.size
  {
    hide BinOf;
    RightmostIs(sizes, links, h, hp, x, sub.right.Node?);
    var leaf := Pull(h).leaf;
    PullHolds(h, 0);
    RingMember(sizes, links, leaf.ring, leaf.size, 0);
    RightmostAbove(sizes, links, h, hp, x, sub.right.Node?, if sub.right.Node? then lo + Pow2(n - 1) else lo, n - 1);
    OtherRing(sizes, links, leaf.ring, leaf.size, w.parent, SetChild(links[w.parent], w.right, 0));
  }

  /** The node above the leaf has another size than the leaf. */
  lemma {:induction false} RightmostAbove(sizes: Binned, links: Links, t: Tree, p: int, parent: int, right: bool,
                                          lo: nat, n: nat)
    requires t.Node? && TreeAt(sizes, links, t, p, parent) && Ordered(t, lo, n)
    ensures var w := Rightmost(t, parent, right);
            !IsLeaf(t) ==> w.parent in sizes && sizes[w.parent] != Pull(t).leaf.size
    decreases t
  {
    hide BinOf;
    RootSize(sizes, links, t, p, parent);
    hide RingAt;
    if t.right.Node? {
      PullHolds(t.right, 0);
      RightmostAbove(sizes, links, t.right, links[p].right, p, true, lo + Pow2(n - 1), n - 1);
    } else if t.left.Node? {
      PullHolds(t.left, 0);
      RightmostAbove(sizes, links, t.left, links[p].left, p, false, lo, n - 1);
    }
  }

  /** Below `x` the rest of the trie is stored once the leaf is cut off. */
  lemma ReadyRest(sizes: Binned, links: Links, sub: Tree, x: int, parent: int, lo: nat, n: nat, w: Tail)
    requires sub.Node? && |sub.ring| == 1 && Ordered(sub, lo, n) && TreeAt(sizes, links, sub, x, parent)
             && Linked(sizes, links)
    requires Below(sub).Node? && w == Rightmost(Below(sub), x, sub.right.Node?) && w.parent in links
    ensures var u, links' := RemoveHere(sub, x), Detach(links, w.parent, w.right);
            && x in links' && x in sub.ring
            && TreeAt(sizes, links', u.left, links'[x].left, x)
            && TreeAt(sizes, links', u.right, links'[x].right, x)
  {
    hide BinOf;
    RingMember(sizes, links, sub.ring, sub.size, 0);
    hide RingAt;
    var h, hp := Below(sub), if sub.right.Node? then links[x].right else links[x].left;
    RightmostIs(sizes, links, h, hp, x, sub.right.Node?);
    DetachSibling(sizes, links, sub, x, lo, n, w.parent, w.right);
    if !IsLeaf(h) {
      DetachStores(sizes, links, h, hp, x, sub.right.Node?, if sub.right.Node? then lo + Pow2(n - 1) else lo, n - 1);
    }
  }

  // ---------- the whole removal of a tree node ----------

  /** The node above now points to `r` where it pointed to `x`. */
  function Redirect(links: Links, parent: int, x: int, r: int): Links
    requires parent in links
  {
    links[parent := SetChild(links[parent], links[parent].left != x, r)]
  }

  /** `links1` after the parent link and then the adoption, as `unlink_large_chunk` orders them. */
  function TakeOver(links1: Links, x: int, parent: int, r: int): Links
    requires x in links1 && parent != x && (r != 0 ==> r in links1)
    requires (links1[x].left != 0 ==> links1[x].left in links1) && (links1[x].right != 0 ==> links1[x].right in links1)
  {
    var l := if parent in links1 then Redirect(links1, parent, x, r) else links1;
    if r == 0 then l else Adopt(l, x, r, parent)
  }

  lemma ReadyRedirect(sizes: Binned, links1: Links, x: int, u: Tree, r: int, parent: int, v: Link)
    requires Ready(sizes, links1, x, u, r) && Linked(sizes, links1) && parent in links1 && parent != x
    requires parent in sizes ==> !Holds(u, sizes[parent])
    ensures Ready(sizes, links1[parent := v], x, u, r)
  {
    hide BinOf;
    if u.Node? {
      RingMember(sizes, links1, u.ring, u.size, 0);
      OtherRing(sizes, links1, u.ring, u.size, parent, v);
      OtherRecord(sizes, links1, u.left, links1[x].left, x, parent, v);
      OtherRecord(sizes, links1, u.right, links1[x].right, x, parent, v);
    }
  }

  lemma AdoptConfined(sizes: Binned, links: Links, x: int, u: Tree, r: int, parent: int, q: int)
    requires u.Node? && Ready(sizes, links, x, u, r) && Linked(sizes, links) && x in links
    requires (links[x].left != 0 ==> links[x].left in links) && (links[x].right != 0 ==> links[x].right in links)
    requires q in links && (q in sizes ==> !Holds(u, sizes[q]))
    ensures q in Adopt(links, x, r, parent) && Adopt(links, x, r, parent)[q] == links[q]
  {
    hide BinOf;
    RingMember(sizes, links, u.ring, u.size, 0);
    RootSize(sizes, links, u.left, links[x].left, x);
    RootSize(sizes, links, u.right, links[x].right, x);
  }

  /** What a replacement `r` for the tree node `x` needs before the take-over. */
  ghost predicate Waiting(sizes: Binned, links1: Links, x: int, u: Tree, r: int, parent: int) {
    && Ready(sizes, links1, x, u, r) && Linked(sizes, links1)
    && x in links1 && x !in sizes && (r != 0 ==> r in links1)
    && parent != x && parent != 0 && (parent in sizes ==> !Holds(u, sizes[parent]))
    && (links1[x].left != 0 ==> links1[x].left in links1) && (links1[x].right != 0 ==> links1[x].right in links1)
  }

  lemma TakeOverSub(sizes: Binned, links1: Links, x: int, u: Tree, r: int, parent: int, lo: nat, n: nat)
    requires Waiting(sizes, links1, x, u, r, parent) && Ordered(u, lo, n)
    ensures TreeAt(sizes, TakeOver(links1, x, parent, r), u, r, parent)
  {
    hide BinOf, RingAt;
    var l := links1;
    if parent in links1 {
      l := Redirect(links1, parent, x, r);
      ReadyRedirect(sizes, links1, x, u, r, parent, l[parent]);
    }
    if u.Node? {
      ReplacementPositive(sizes, links1, x, u, r);
      AdoptStores(sizes, l, x, u, r, parent, lo, n);
    }
  }

  lemma ReplacementPositive(sizes: Binned, links1: Links, x: int, u: Tree, r: int)
    requires Ready(sizes, links1, x, u, r)
    ensures u.Node? <==> r != 0
    ensures u.Node? ==> r > 0 && r in sizes && sizes[r] == u.size
  {
    if u.Node? {
      RingMember(sizes, links1, u.ring, u.size, 0);
    }
  }

  lemma TakeOverOutside(sizes: Binned, links1: Links, x: int, u: Tree, r: int, parent: int, q: int)
    requires Waiting(sizes, links1, x, u, r, parent)
    requires q in links1 && (q in sizes ==> !Holds(u, sizes[q]))
    ensures q in TakeOver(links1, x, parent, r)
    ensures TakeOver(links1, x, parent, r)[q]
         == if q == parent then SetChild(links1[q], links1[q].left != x, r) else links1[q]
  {
    hide BinOf, RingAt;
    ReplacementPositive(sizes, links1, x, u, r);
    if u.Node? {
      var l := links1;
      if parent in links1 {
        l := Redirect(links1, parent, x, r);
        ReadyRedirect(sizes, links1, x, u, r, parent, l[parent]);
      }
      AdoptConfined(sizes, l, x, u, r, parent, q);
    }
  }

  /** Once a replacement is ready, the take-over stores the trie without `x`. */
  lemma {:induction false} TakeOverStores(sizes: Binned, links: Links, links1: Links, t: Tree, p: int, parent: int,
                                          s: nat, lo: nat, n: nat,
                       x: int, r: int, sp: Spot)
    requires TreeAt(sizes, links, t, p, parent) && Ordered(t, lo, n) && InRange(s, lo, n)
    requires Linked(sizes, links) && parent < 0 && parent !in links && x in sizes && sizes[x] == s
    requires sp == Reach(t, s, lo, n, parent, false) && sp.sub.Node? && x in sp.sub.ring
    requires TreeAt(sizes, links, sp.sub, x, sp.parent)
    requires Waiting(sizes - {x}, links1, x, RemoveHere(sp.sub, x), r, sp.parent)
    requires Confined(sizes, links, links1, sp.sub)
    ensures TreeAt(sizes - {x}, TakeOver(links1, x, sp.parent, r),
                   Subst(t, s, lo, n, RemoveHere(sp.sub, x)), if p == x then r else p, parent)
  {
    hide BinOf;
    ReachSpot(t, s, lo, n, parent, false);
    var u := RemoveHere(sp.sub, x);
    RemoveHereOrdered(sp.sub, x, sp.lo, sp.n);
    TakeOverSub(sizes - {x}, links1, x, u, r, sp.parent, sp.lo, sp.n);
    TakeOverFrame(sizes, links, links1, t, p, parent, s, lo, n, x, r, sp);
    RootSize(sizes, links, t, p, parent);
    hide RingAt, TakeOver, Waiting;
    Plug(sizes, links, sizes - {x}, TakeOver(links1, x, sp.parent, r), t, p, parent, false, s, lo, n, u, r);
    if Ends(t, s, n) {
      SameRoot(sizes, links, t, p, x, parent);
    }
  }

  lemma SameRoot(sizes: Binned, links: Links, t: Tree, p: int, x: int, parent: int)
    requires TreeAt(sizes, links, t, p, parent) && TreeAt(sizes, links, t, x, parent)
    ensures p == x
  {
  }

  lemma TakeOverFrame(sizes: Binned, links: Links, links1: Links, t: Tree, p: int, parent: int, s: nat, lo: nat, n: nat,
                      x: int, r: int, sp: Spot)
    requires TreeAt(sizes, links, t, p, parent) && Ordered(t, lo, n) && InRange(s, lo, n)
    requires Linked(sizes, links) && parent < 0 && parent !in links && x in sizes && sizes[x] == s
    requires sp == Reach(t, s, lo, n, parent, false) && sp.sub.Node? && x in sp.sub.ring && sp.sub.size == s
    requires TreeAt(sizes, links, sp.sub, x, sp.parent)
    requires Waiting(sizes - {x}, links1, x, RemoveHere(sp.sub, x), r, sp.parent)
    requires Confined(sizes, links, links1, sp.sub)
    ensures PlugFrame(sizes, links, sizes - {x}, TakeOver(links1, x, sp.parent, r), t, sp, r)
  {
    hide BinOf, RingAt, TakeOver;
    var links' := TakeOver(links1, x, sp.parent, r);
    hide Waiting;
    var u := RemoveHere(sp.sub, x);
    RemoveHereHolds(sp.sub, x);
    PlacePointer(sizes, links, t, p, parent, s, lo, n, x, sp);
    forall q | q in sizes && Holds(t, sizes[q]) && !Holds(sp.sub, sizes[q])
      ensures q in links && q in links' && q != x
      ensures links'[q] == if q == sp.parent then SetChild(links[q], sp.right, r) else links[q]
    {
      TakeOverOutside(sizes - {x}, links1, x, u, r, sp.parent, q);
    }
  }

  /** The node above `x` points to `x` exactly on the side of its place. */
  lemma PlacePointer(sizes: Binned, links: Links, t: Tree, p: int, parent: int, s: nat, lo: nat, n: nat, x: int,
                     sp: Spot)
    requires TreeAt(sizes, links, t, p, parent) && Ordered(t, lo, n) && InRange(s, lo, n)
    requires parent < 0 && parent !in links && x in sizes && sizes[x] == s && x != 0
    requires sp == Reach(t, s, lo, n, parent, false) && TreeAt(sizes, links, sp.sub, x, sp.parent)
    ensures sp.parent in links ==> (links[sp.parent].left != x <==> sp.right)
  {
    hide BinOf, RingAt;
    var v := ReachStored(sizes, links, t, p, parent, false, s, lo, n);
    SameRoot(sizes, links, sp.sub, v, x, sp.parent);
    if !Ends(t, s, n) {
      ReachSide(sizes, links, t, p, parent, false, s, lo, n, x);
    }
  }
}
