/** The searches of `tmalloc_small` and `tmalloc_large` for a best-fitting tree chunk. */
module TreeSearch {
  import opened Numbers
  import opened Words
  import opened BinMaps
  import opened SizeClasses
  import opened TreeIndexing
  import opened Trie
  import opened TrieBits
  import opened TreeLinks
  import opened Cycles
  import opened BinState
  import opened BinOrder
  import opened ChunkHeads

  /** The heads in memory agree with the sizes of the binned chunks. */
  ghost predicate Sized(sizes: Binned, heads: Heads) {
    forall q | q in sizes :: q in heads && heads[q].size == sizes[q]
  }

  /** 64-bit subtraction. */
  function Sub64(a: nat, b: nat): nat
    requires a < W64 && b <= W64
  {
    (a + W64 - b) % W64
  }

  /** A remainder beats the best one so far exactly when its size fits and is smaller, although misfits wrap around. */
  lemma WrappedRemainder(size: nat, best: nat, nb: nat)
    requires 0 < nb <= best <= W64 && 0 < size < W64
    ensures Sub64(size, nb) < best - nb <==> nb <= size < best
    ensures nb <= size ==> Sub64(size, nb) == size - nb
  {
  }

  /** Every size of `t` is a size of at least `nb`. */
  ghost predicate AllFit(t: Tree, nb: nat) {
    forall k: nat | Holds(t, k) :: nb <= k < W64
  }

  /** `leftmost_child`. */
  function LeftmostTree(t: Tree): Tree
    requires t.Node?
  {
    if t.left.Node? then t.left else t.right
  }

  lemma {:induction false} FitAtLeast(t: Tree, nb: nat)
    requires nb <= W64
    ensures nb <= Fit(t, nb) <= W64
  {
    if t.Node? {
      FitAtLeast(t.left, nb);
      FitAtLeast(t.right, nb);
    }
  }

  /** Where all sizes fit, the least is the root's or that of the leftmost child. */
  lemma LeastIsLeftmost(t: Tree, lo: nat, n: nat, nb: nat)
    requires t.Node? && Ordered(t, lo, n) && AllFit(t, nb)
    ensures Fit(t, nb) == Min(t.size, Fit(LeftmostTree(t), nb))
  {
    assert Holds(t, t.size);
    if t.left.Node? {
      assert Holds(t.left, t.left.size) && Holds(t, t.left.size);
      FitLeftFirst(t, lo, n, nb);
    }
  }

  // ---------- the best chunk so far ----------

  /** Size of the best chunk so far; `W64` stands for none. */
  function Best(sizes: Binned, v: int): nat {
    if v == 0 || v !in sizes then W64 else sizes[v]
  }

  /** `v` is 0 or a fitting chunk, and `rsize` the remainder that it would leave, `-nb` when there is none. */
  predicate Candidate(sizes: Binned, v: int, rsize: nat, nb: nat) {
    && 0 < nb < W64 && (v != 0 ==> v in sizes && nb <= sizes[v] < W64)
    && rsize == Best(sizes, v) - nb
  }

  /** A subtree: its value, the address of its root, the parent link there, and the range that it divides. */
  datatype Subtree = Subtree(tree: Tree, root: int, parent: int, lo: nat, n: nat)

  /** The subtree is stored in memory, and its sizes are nonzero words. */
  ghost predicate Standing(sizes: Binned, links: Links, g: Subtree) {
    && TreeAt(sizes, links, g.tree, g.root, g.parent) && Ordered(g.tree, g.lo, g.n)
    && forall k: nat | Holds(g.tree, k) :: 0 < k < W64
  }

  /** Chunk `v` is a node of a trie, not one behind it in a ring. */
  predicate Hangs(links: Links, v: int) {
    v != 0 ==> v in links && links[v].parent != 0
  }

  lemma StandingAt(sizes: Binned, links: Links, g: Subtree)
    requires Standing(sizes, links, g)
    ensures g.tree.Node? <==> g.root != 0
    ensures g.tree.Node? ==> g.root in sizes && sizes[g.root] == g.tree.size && g.root in links && 0 < g.tree.size < W64
    ensures g.tree.Node? ==> Hangs(links, g.root)
  {
    hide BinOf;
    RootSize(sizes, links, g.tree, g.root, g.parent);
    assert g.tree.Node? ==> Holds(g.tree, g.tree.size);
  }

  /** The child of `g` on one side. */
  ghost function Child(links: Links, g: Subtree, right: bool): Subtree
    requires g.tree.Node? && g.root in links
  {
    if g.n == 0 then Subtree(Nil, 0, g.root, g.lo, 0)
    else if right then Subtree(g.tree.right, links[g.root].right, g.root, g.lo + Pow2(g.n - 1), g.n - 1)
    else Subtree(g.tree.left, links[g.root].left, g.root, g.lo, g.n - 1)
  }

  lemma ChildStands(sizes: Binned, links: Links, g: Subtree, right: bool)
    requires Standing(sizes, links, g) && g.tree.Node? && g.root in links
    ensures Standing(sizes, links, Child(links, g, right))
    ensures Child(links, g, right).tree == if right then g.tree.right else g.tree.left
    ensures Child(links, g, right).root == if right then links[g.root].right else links[g.root].left
  {
    hide BinOf, RingAt;
    RootSize(sizes, links, g.tree.left, links[g.root].left, g.root);
    RootSize(sizes, links, g.tree.right, links[g.root].right, g.root);
    assert forall k: nat | Holds(g.tree.left, k) || Holds(g.tree.right, k) :: Holds(g.tree, k);
  }

  /** One round of the last loop: compare the root, then continue with the leftmost child. */
  lemma SmallestStep(sizes: Binned, links: Links, heads: Heads, nb: nat, g: Subtree, v: int, rsize: nat)
    requires Standing(sizes, links, g) && g.tree.Node? && Sized(sizes, heads)
    requires Candidate(sizes, v, rsize, nb) && (rsize == 0 || AllFit(g.tree, nb))
    ensures g.root in heads && heads[g.root].size < W64
    ensures var trem := Sub64(heads[g.root].size, nb);
            var v', rsize' := if trem < rsize then g.root else v, if trem < rsize then trem else rsize;
            && Candidate(sizes, v', rsize', nb) && (rsize' == 0 || AllFit(LeftmostTree(g.tree), nb))
            && Min(Best(sizes, v'), Fit(LeftmostTree(g.tree), nb)) == Min(Best(sizes, v), Fit(g.tree, nb))
  {
    StandingAt(sizes, links, g);
    hide TreeAt, BinOf;
    WrappedRemainder(g.tree.size, Best(sizes, v), nb);
    FitAtLeast(g.tree, nb);
    FitAtLeast(LeftmostTree(g.tree), nb);
    if rsize > 0 {
      LeastIsLeftmost(g.tree, g.lo, g.n, nb);
      assert Holds(g.tree, g.tree.size) && forall k: nat | Holds(LeftmostTree(g.tree), k) :: Holds(g.tree, k);
    }
  }

  /** The last loop of `tmalloc_large`: the smallest chunk of the subtree at `t0`, if it beats `v0`. */
  method SmallestBelow(links: Links, heads: Heads, nb: nat, t0: int, v0: int, rsize0: nat, ghost sizes: Binned,
                       ghost g0: Subtree)
    returns (v: int, rsize: nat)
    requires Standing(sizes, links, g0) && g0.root == t0 && Sized(sizes, heads)
    requires Candidate(sizes, v0, rsize0, nb) && (rsize0 == 0 || AllFit(g0.tree, nb)) && Hangs(links, v0)
    ensures Candidate(sizes, v, rsize, nb) && Best(sizes, v) == Min(Best(sizes, v0), Fit(g0.tree, nb))
    ensures Hangs(links, v)
  {
    hide Standing, Sized, AllFit, Sub64, Child, Hangs;
    var t := t0;
    v, rsize := v0, rsize0;
    ghost var g := g0;
    while t != 0
      invariant Standing(sizes, links, g) && g.root == t && Hangs(links, v)
      invariant Candidate(sizes, v, rsize, nb) && (rsize == 0 || AllFit(g.tree, nb))
      invariant Min(Best(sizes, v), Fit(g.tree, nb)) == Min(Best(sizes, v0), Fit(g0.tree, nb))
      decreases g.tree
    {
      StandingAt(sizes, links, g);
      SmallestStep(sizes, links, heads, nb, g, v, rsize);
      ChildStands(sizes, links, g, false);
      ChildStands(sizes, links, g, true);
      StandingAt(sizes, links, Child(links, g, false));
      var trem := Sub64(heads[t].size, nb);
      if trem < rsize {
        rsize := trem;
        v := t;
      }
      g := Child(links, g, links[t].left == 0);
      t := if links[t].left != 0 then links[t].left else links[t].right;
    }
    StandingAt(sizes, links, g);
  }

  // ---------- the descent of `tmalloc_large` ----------

  /**
   The descent stands at `g` with the remaining bits of `nb` in `bits`; `h` is the deepest right subtree that it
   passed by. The best fit of the bin is the best chunk so far, or in `g`, or in `h`.
   */
  ghost predicate Searching(sizes: Binned, links: Links, nb: nat, fit: nat, g: Subtree, bits: nat, h: Subtree, v: int,
                            rsize: nat) {
    && Standing(sizes, links, g) && g.tree.Node? && InRange(nb, g.lo, g.n) && BitsOf(bits, nb, g.lo, g.n)
    && Standing(sizes, links, h) && AllFit(h.tree, nb) && (h.tree.Node? ==> g.lo + Pow2(g.n) <= h.lo)
    && Candidate(sizes, v, rsize, nb) && rsize > 0
    && Min(Best(sizes, v), Min(Fit(g.tree, nb), Fit(h.tree, nb))) == fit
  }

  /** Sizes of a lower range come first. */
  lemma {:induction false} LowerFits(t: Tree, lo: nat, n: nat, h: Tree, hlo: nat, hn: nat, nb: nat)
    requires Ordered(t, lo, n) && Ordered(h, hlo, hn) && AllFit(t, nb) && t.Node? && lo + Pow2(n) <= hlo
    ensures Fit(t, nb) <= Fit(h, nb)
  {
    assert Holds(t, t.size);
    FitIsLeast(t, nb, t.size);
    HoldsInRange(t, lo, n, Fit(t, nb));
    FitAtLeast(h, nb);
    FitIsLeast(h, nb, 0);
    if Fit(h, nb) < W64 {
      HoldsInRange(h, hlo, hn, Fit(h, nb));
    } else {
      FitIsLeast(t, nb, t.size);
    }
  }

  /** Sizes below `nb` do not fit. */
  lemma NothingFits(t: Tree, lo: nat, n: nat, nb: nat)
    requires Ordered(t, lo, n) && lo + Pow2(n) <= nb <= W64
    ensures Fit(t, nb) == W64
  {
    FitAtLeast(t, nb);
    FitIsLeast(t, nb, 0);
    if Fit(t, nb) < W64 {
      HoldsInRange(t, lo, n, Fit(t, nb));
    }
  }

  /** Sizes from `nb` on all fit. */
  lemma EverythingFits(t: Tree, lo: nat, n: nat, nb: nat)
    requires Ordered(t, lo, n) && nb <= lo && forall k: nat | Holds(t, k) :: k < W64
    ensures AllFit(t, nb)
  {
    forall k: nat | Holds(t, k)
      ensures nb <= k < W64
    {
      HoldsInRange(t, lo, n, k);
    }
  }

  /** The best chunk after looking at the root of `g`. */
  lemma CompareRoot(sizes: Binned, links: Links, heads: Heads, nb: nat, g: Subtree, v: int, rsize: nat)
    requires Standing(sizes, links, g) && g.tree.Node? && Sized(sizes, heads) && Candidate(sizes, v, rsize, nb)
    ensures g.root in heads && heads[g.root].size < W64
    ensures var trem := Sub64(heads[g.root].size, nb);
            var v', rsize' := if trem < rsize then g.root else v, if trem < rsize then trem else rsize;
            && Candidate(sizes, v', rsize', nb) && (g.tree.size == nb ==> rsize' == 0)
            && Best(sizes, v') == if g.tree.size >= nb then Min(g.tree.size, Best(sizes, v)) else Best(sizes, v)
  {
    StandingAt(sizes, links, g);
    hide TreeAt, BinOf;
    WrappedRemainder(g.tree.size, Best(sizes, v), nb);
  }

  /** Where the descent goes after comparing the root of `g`, with `v` the best chunk by then. */
  ghost function PassedBy(links: Links, g: Subtree, h: Subtree, down: bool): Subtree
    requires g.tree.Node? && g.root in links
  {
    if !down && g.tree.right.Node? then Child(links, g, true) else h
  }

  lemma ChildrenDiffer(sizes: Binned, links: Links, g: Subtree)
    requires Standing(sizes, links, g) && g.tree.Node? && g.root in links
    ensures links[g.root].right != 0 ==> links[g.root].left != links[g.root].right
    ensures g.tree.right.Node? <==> links[g.root].right != 0
  {
    hide BinOf, RingAt;
    var t := g.tree;
    RootSize(sizes, links, t.left, links[g.root].left, g.root);
    RootSize(sizes, links, t.right, links[g.root].right, g.root);
    if t.left.Node? && t.right.Node? {
      assert Holds(t.left, t.left.size) && Holds(t.right, t.right.size);
      HoldsInRange(t.left, g.lo, g.n - 1, t.left.size);
      HoldsInRange(t.right, g.lo + Pow2(g.n - 1), g.n - 1, t.right.size);
    }
  }

  /** Of the two halves only the side of `nb` and, above it, the right half can hold fits; the right half beats `h`. */
  lemma {:induction false} HalvesFit(t: Tree, lo: nat, n: nat, h: Tree, hlo: nat, hn: nat, nb: nat)
    requires t.Node? && n > 0 && Ordered(t, lo, n) && InRange(nb, lo, n) && nb <= W64
    requires forall k: nat | Holds(t, k) :: k < W64
    requires Ordered(h, hlo, hn) && (h.Node? ==> lo + Pow2(n) <= hlo)
    ensures GoesRight(nb, lo, n) ==> Fit(t.left, nb) == W64
    ensures !GoesRight(nb, lo, n) ==> AllFit(t.right, nb) && (t.right.Node? ==> Fit(t.right, nb) <= Fit(h, nb))
  {
    if GoesRight(nb, lo, n) {
      NothingFits(t.left, lo, n - 1, nb);
    } else {
      RightHalfFits(t, lo, n, nb);
      hide AllFit, Fit, Holds;
      if t.right.Node? {
        if h.Node? {
          LowerFits(t.right, lo + Pow2(n - 1), n - 1, h, hlo, hn, nb);
        } else {
          FitOfNil(nb);
          NonemptyFits(t.right, nb);
        }
      }
    }
  }

  lemma {:induction false} RightHalfFits(t: Tree, lo: nat, n: nat, nb: nat)
    requires t.Node? && n > 0 && Ordered(t, lo, n) && !GoesRight(nb, lo, n)
    requires forall k: nat | Holds(t, k) :: k < W64
    ensures AllFit(t.right, nb)
  {
    assert forall k: nat | Holds(t.right, k) :: Holds(t, k);
    EverythingFits(t.right, lo + Pow2(n - 1), n - 1, nb);
  }

  lemma FitAfterRoot(t: Tree, lo: nat, n: nat, h: Tree, h': Tree, nb: nat, best: nat, best': nat)
    requires t.Node? && n > 0 && nb <= W64
    requires best' == if t.size >= nb then Min(t.size, best) else best
    requires GoesRight(nb, lo, n) ==> Fit(t.left, nb) == W64
    requires !GoesRight(nb, lo, n) && t.right.Node? ==> Fit(t.right, nb) <= Fit(h, nb)
    requires h' == if !GoesRight(nb, lo, n) && t.right.Node? then t.right else h
    ensures Min(best', Min(Fit(Half(t, nb, lo, n), nb), Fit(h', nb))) == Min(best, Min(Fit(t, nb), Fit(h, nb)))
  {
    FitAtLeast(t.left, nb);
    FitAtLeast(t.right, nb);
    FitAtLeast(h, nb);
  }

  lemma {:induction false} SearchStep(sizes: Binned, links: Links, nb: nat, fit: nat, g: Subtree, bits: nat, h: Subtree,
                   v: int, rsize: nat, v': int, rsize': nat)
    requires Searching(sizes, links, nb, fit, g, bits, h, v, rsize) && g.root in links
    requires Candidate(sizes, v', rsize', nb) && rsize' > 0 && (g.tree.size == nb ==> rsize' == 0)
    requires Best(sizes, v') == if g.tree.size >= nb then Min(g.tree.size, Best(sizes, v)) else Best(sizes, v)
    ensures var g', h' := Child(links, g, SignSet(bits)), PassedBy(links, g, h, SignSet(bits));
            if g'.tree.Node? then Searching(sizes, links, nb, fit, g', Double64(bits), h', v', rsize')
            else Standing(sizes, links, h') && AllFit(h'.tree, nb) && Min(Best(sizes, v'), Fit(h'.tree, nb)) == fit
  {
    hide TreeAt, RingAt, BinOf, Lift, Fit;
    ChildStands(sizes, links, g, false);
    ChildStands(sizes, links, g, true);
    if g.n == 0 {
      assert false;
    }
    ShiftOn(bits, nb, g.lo, g.n);
    var g', h' := Child(links, g, SignSet(bits)), PassedBy(links, g, h, SignSet(bits));
    HalvesFit(g.tree, g.lo, g.n, h.tree, h.lo, h.n, nb);
    FitAfterRoot(g.tree, g.lo, g.n, h.tree, h'.tree, nb, Best(sizes, v), Best(sizes, v'));
    if g'.tree.Nil? {
      FitAtLeast(h'.tree, nb);
      FitOfNil(nb);
    }
  }

  lemma FitOfNil(nb: nat)
    ensures Fit(Nil, nb) == W64
  {
  }

  /** The first loop of `tmalloc_large`; what is left for the last loop is the subtree `g` at `t`. */
  method DescendFit(links: Links, heads: Heads, nb: nat, t0: int, bits0: nat, ghost sizes: Binned, ghost g0: Subtree)
    returns (t: int, v: int, rsize: nat, ghost g: Subtree)
    requires Standing(sizes, links, g0) && g0.root == t0 && t0 != 0 && Sized(sizes, heads)
    requires 0 < nb < W64 && InRange(nb, g0.lo, g0.n) && BitsOf(bits0, nb, g0.lo, g0.n)
    ensures Standing(sizes, links, g) && g.root == t && Candidate(sizes, v, rsize, nb)
    ensures rsize == 0 || AllFit(g.tree, nb)
    ensures Min(Best(sizes, v), Fit(g.tree, nb)) == Fit(g0.tree, nb) && Hangs(links, v)
  {
    StandingAt(sizes, links, g0);
    FitAtLeast(g0.tree, nb);
    var bits := bits0;
    t, v, rsize := t0, 0, Sub64(0, nb);
    g := g0;
    var rst := 0;
    ghost var h := Subtree(Nil, 0, 1, 0, 0);
    FitOfNil(nb);
    assert Searching(sizes, links, nb, Fit(g0.tree, nb), g, bits, h, v, rsize);
    hide Standing, Sized, AllFit, Sub64, Child, Fit, SignSet, Double64, BitsOf, InRange;
    while true
      invariant g.root == t && h.root == rst && Searching(sizes, links, nb, Fit(g0.tree, nb), g, bits, h, v, rsize)
      invariant Hangs(links, v)
      decreases g.tree
    {
      StandingAt(sizes, links, g);
      CompareRoot(sizes, links, heads, nb, g, v, rsize);
      ghost var v0, rsize0 := v, rsize;
      var trem := Sub64(heads[t].size, nb);
      if trem < rsize {
        v := t;
        rsize := trem;
        if rsize == 0 {
          ExactFit(g.tree, h.tree, Best(sizes, v0), nb);
          return;
        }
      }
      SearchStep(sizes, links, nb, Fit(g0.tree, nb), g, bits, h, v0, rsize0, v, rsize);
      ChildrenDiffer(sizes, links, g);
      ChildStands(sizes, links, g, SignSet(bits));
      ChildStands(sizes, links, g, true);
      StandingAt(sizes, links, Child(links, g, SignSet(bits)));
      var down := SignSet(bits);
      var rt := links[t].right;
      t := if down then links[t].right else links[t].left;
      h := PassedBy(links, g, h, down);
      if rt != 0 && rt != t {
        rst := rt;
      }
      if t == 0 {
        t := rst;
        g := h;
        return;
      }
      g := Child(links, g, down);
      bits := Double64(bits);
    }
  }

  /** A chunk of exactly `nb` bytes ends the search. */
  lemma ExactFit(t: Tree, h: Tree, best: nat, nb: nat)
    requires t.Node? && t.size == nb && nb < W64 && best >= nb
    ensures Min(nb, Fit(t, nb)) == Min(best, Min(Fit(t, nb), Fit(h, nb)))
  {
    FitAtLeast(t, nb);
    FitAtLeast(h, nb);
    FitIsLeast(t, nb, nb);
  }

  // ---------- all bins ----------

  /** A binned large chunk is a size of the trie of its bin. */
  lemma BinHolds(raw: Raw, v: View, q: int)
    requires Ok(raw, v) && q in v.sizes && MIN_LARGE <= v.sizes[q]
    ensures Holds(v.trees[BinOf(v.sizes[q])], v.sizes[q])
  {
    hide TreeAt, Cycle;
    var s := v.sizes[q];
    var i := BinOf(s);
    assert Placed(v, q) && TreeBin(raw, v, i);
    LookupFinds(v.trees[i], s, BinLo(i), BinBits(i));
  }

  /**
   When the bins before `i` hold no fit, the best fit of bin `i` is the best of all, and without a bin `i` there is
   none.
   */
  lemma {:induction false} FitOverBins(raw: Raw, v: View, nb: nat, i: nat, q: int)
    requires Ok(raw, v) && MIN_LARGE <= nb && BinOf(nb) <= i <= NBINS
    requires forall j: nat | BinOf(nb) <= j < i :: Fit(v.trees[j], nb) == W64
    requires q in v.sizes && nb <= v.sizes[q]
    ensures i < NBINS && Fit(v.trees[i], nb) < W64 ==> Fit(v.trees[i], nb) <= v.sizes[q]
    ensures i < NBINS && v.sizes[q] < W64
  {
    hide BinOf, Fit, SmallBin, Placed, TreeAt, Cycle, Ordered, MinSize, Has;
    var s := v.sizes[q];
    var j := BinOf(s);
    BinHolds(raw, v, q);
    BinMonotone(nb, s);
    assert TreeBin(raw, v, j);
    assert LargeIn(s, j);
    FitIsLeast(v.trees[j], nb, s);
    if i < NBINS && Fit(v.trees[i], nb) < W64 && s < Fit(v.trees[i], nb) {
      assert TreeBin(raw, v, i);
      FitIsLeast(v.trees[i], nb, s);
      BinMonotone(s, Fit(v.trees[i], nb));
    }
  }

  /** The whole trie of bin `i`. */
  ghost function Bin(raw: Raw, v: View, i: nat): Subtree
    requires Shaped(raw, v) && i < NBINS
  {
    Subtree(v.trees[i], raw.treebins[i], Slot(i), BinLo(i), BinBits(i))
  }

  lemma BinStands(raw: Raw, v: View, i: nat)
    requires Ok(raw, v) && i < NBINS
    ensures Standing(v.sizes, raw.links, Bin(raw, v, i))
    ensures raw.treebins[i] != 0 <==> Has(raw.treemap, i)
    ensures raw.treebins[i] != 0 <==> v.trees[i].Node?
  {
    assert TreeBin(raw, v, i);
    hide BinOf;
    RootSize(v.sizes, raw.links, v.trees[i], raw.treebins[i], Slot(i));
  }

  lemma SearchStart(s: nat, i: nat)
    requires MIN_LARGE <= s < W64 && i == BinOf(s)
    ensures InRange(s, BinLo(i), BinBits(i)) && BitsOf(Shl64(s, LeftShift(i)), s, BinLo(i), BinBits(i))
  {
    hide BinOf, Lift, MinSize;
    BinRange(s, i);
    BinLoAligned(i);
    var q: nat :| BinLo(i) == q * Pow2(BinBits(i));
    ShiftIn(s, BinLo(i), BinBits(i), q);
  }

  lemma HigherBinFits(raw: Raw, v: View, nb: nat, i: nat)
    requires Ok(raw, v) && MIN_LARGE <= nb && BinOf(nb) < i < NBINS
    ensures AllFit(v.trees[i], nb)
  {
    assert TreeBin(raw, v, i);
    hide BinOf, TreeAt, Cycle;
    forall k: nat | Holds(v.trees[i], k)
      ensures nb <= k < W64
    {
      if k < nb {
        BinMonotone(k, nb);
      }
    }
  }

  /** `v` is the best fit among all tree chunks, 0 if there is none. */
  ghost predicate IsBestFit(sizes: Binned, v: int, rsize: nat, nb: nat) {
    && (v != 0 ==> v in sizes && nb <= sizes[v] < W64 && rsize == sizes[v] - nb)
    && forall q | q in sizes && nb <= sizes[q] :: v != 0 && sizes[v] <= sizes[q]
  }

  lemma {:induction false} BestOfBins(raw: Raw, v: View, nb: nat, i: nat, best: int, rsize: nat)
    requires Ok(raw, v) && MIN_LARGE <= nb && BinOf(nb) <= i <= NBINS && Candidate(v.sizes, best, rsize, nb)
    requires forall j: nat | BinOf(nb) <= j < i :: Fit(v.trees[j], nb) == W64
    requires if i == NBINS then best == 0 else Best(v.sizes, best) == Fit(v.trees[i], nb) && Fit(v.trees[i], nb) < W64
    ensures IsBestFit(v.sizes, best, rsize, nb)
  {
    forall q | q in v.sizes && nb <= v.sizes[q]
      ensures best != 0 && v.sizes[best] <= v.sizes[q]
    {
      FitOverBins(raw, v, nb, i, q);
    }
  }

  /** Bins without a trie hold no fit. */
  lemma EmptyBins(raw: Raw, v: View, nb: nat, from: nat, to: nat)
    requires Ok(raw, v) && to <= NBINS
    requires forall j: nat | from <= j < to :: !Has(raw.treemap, j)
    ensures forall j: nat | from <= j < to :: Fit(v.trees[j], nb) == W64
  {
    forall j: nat | from <= j < to
      ensures Fit(v.trees[j], nb) == W64
    {
      BinStands(raw, v, j);
    }
  }

  lemma NonemptyFits(t: Tree, nb: nat)
    requires t.Node? && AllFit(t, nb)
    ensures Fit(t, nb) < W64
  {
    assert Holds(t, t.size);
    FitIsLeast(t, nb, t.size);
  }

  /** The search of the bin that `nb` itself belongs to. */
  method InOwnBin(raw: Raw, heads: Heads, nb: nat, idx: nat, ghost view: View)
                  returns (t: int, v: int, rsize: nat, ghost g: Subtree)
    requires Ok(raw, view) && Sized(view.sizes, heads) && MIN_LARGE <= nb < W64 && idx == BinOf(nb)
    ensures Standing(view.sizes, raw.links, g) && g.root == t && Candidate(view.sizes, v, rsize, nb)
    ensures rsize == 0 || AllFit(g.tree, nb)
    ensures Min(Best(view.sizes, v), Fit(g.tree, nb)) == Fit(view.trees[idx], nb)
    ensures t == 0 && v == 0 <==> Fit(view.trees[idx], nb) == W64
    ensures Hangs(raw.links, v)
  {
    assert Shaped(raw, view);
    hide Ok, BinOf, Standing, Sized, InRange, BitsOf, Shl64, Fit, Has, BinLo, BinBits, LeftShift;
    BinStands(raw, view, idx);
    SearchStart(nb, idx);
    FitAtLeast(view.trees[idx], nb);
    FitOfNil(nb);
    t := raw.treebins[idx];
    v, rsize := 0, Sub64(0, nb);
    g := Bin(raw, view, idx);
    if t != 0 {
      t, v, rsize, g := DescendFit(raw.links, heads, nb, t, Shl64(nb, LeftShift(idx)), view.sizes, g);
    }
    StandingAt(view.sizes, raw.links, g);
    if t != 0 && rsize != 0 {
      NonemptyFits(g.tree, nb);
    }
  }

  /** The next non-empty bin above `idx`. */
  method InNextBin(raw: Raw, nb: nat, idx: nat, ghost view: View) returns (t: int, ghost bin: nat, ghost g: Subtree)
    requires Ok(raw, view) && MIN_LARGE <= nb < W64 && idx == BinOf(nb)
    ensures idx < bin <= NBINS && (forall j: nat | idx < j < bin :: Fit(view.trees[j], nb) == W64)
    ensures Standing(view.sizes, raw.links, g) && g.root == t && AllFit(g.tree, nb)
    ensures if bin == NBINS then g.tree.Nil? else g.tree == view.trees[bin] && Fit(g.tree, nb) < W64
  {
    NextBin(raw.treemap, idx);
    bin := Scan(raw.treemap, idx + 1);
    EmptyBins(raw, view, nb, idx + 1, bin);
    hide BinOf, Has, And, LeftBits, LeastBit, Bit2Idx, Fit;
    var left := And(LeftBits(Bit(idx)), raw.treemap);
    if left != 0 {
      var i := Bit2Idx(LeastBit(left));
      t := raw.treebins[i];
      g := Bin(raw, view, i);
      BinStands(raw, view, i);
      HigherBinFits(raw, view, nb, i);
      NonemptyFits(view.trees[i], nb);
    } else {
      t := 0;
      g := Subtree(Nil, 0, 1, 0, 0);
    }
  }

  /** The search of `tmalloc_large`. */
  method FindFit(raw: Raw, heads: Heads, nb: nat, ghost view: View) returns (v: int, rsize: nat)
    requires Ok(raw, view) && Sized(view.sizes, heads) && MIN_LARGE <= nb < W64
    ensures IsBestFit(view.sizes, v, rsize, nb) && (v != 0 ==> NextInLine(view, v))
  {
    var idx := ComputeTreeIndex(nb);
    FitAtLeast(view.trees[idx], nb);
    FitOfNil(nb);
    assert Best(view.sizes, 0) == W64;
    hide Ok, BinOf, Standing, Sized, AllFit, MinSize, IsBestFit, Fit, Best, Candidate;
    var t;
    ghost var g;
    t, v, rsize, g := InOwnBin(raw, heads, nb, idx, view);
    ghost var bin: nat := idx;
    if t == 0 && v == 0 {
      t, bin, g := InNextBin(raw, nb, idx, view);
    }
    v, rsize := SmallestBelow(raw.links, heads, nb, t, v, rsize, view.sizes, g);
    BestOfBins(raw, view, nb, bin, v, rsize);
    if v != 0 {
      HangingLarge(raw, view, v, nb, rsize);
    }
  }

  /** A large candidate that hangs in a trie is the oldest of its size. */
  lemma HangingLarge(raw: Raw, view: View, v: int, nb: nat, rsize: nat)
    requires Ok(raw, view) && Candidate(view.sizes, v, rsize, nb) && v != 0 && MIN_LARGE <= view.sizes[v]
    requires Hangs(raw.links, v)
    ensures NextInLine(view, v)
  {
    hide Ok, BinOf;
    OldestHangs(raw, view, v);
  }

  // ---------- the search of `tmalloc_small` ----------

  /** `v` is a smallest of all tree chunks. */
  ghost predicate IsSmallestTree(sizes: Binned, v: int) {
    && v in sizes && MIN_LARGE <= sizes[v] < W64
    && forall q | q in sizes && MIN_LARGE <= sizes[q] :: sizes[v] <= sizes[q]
  }

  lemma {:induction false} SmallestOfBins(raw: Raw, v: View, i: nat, nb: nat, best: int, rsize: nat)
    requires Ok(raw, v) && i < NBINS && nb <= MIN_LARGE && Candidate(v.sizes, best, rsize, nb)
    requires forall j: nat | j < i :: !Has(raw.treemap, j)
    requires v.trees[i].Node? && Best(v.sizes, best) == Fit(v.trees[i], nb)
    ensures IsSmallestTree(v.sizes, best)
  {
    assert TreeBin(raw, v, i);
    hide BinOf, TreeAt, Cycle;
    assert Holds(v.trees[i], v.trees[i].size);
    FitIsLeast(v.trees[i], nb, v.trees[i].size);
    forall q | q in v.sizes && MIN_LARGE <= v.sizes[q]
      ensures v.sizes[best] <= v.sizes[q]
    {
      var j := BinOf(v.sizes[q]);
      BinHolds(raw, v, q);
      assert TreeBin(raw, v, j);
      if j == i {
        FitIsLeast(v.trees[i], nb, v.sizes[q]);
      } else if v.sizes[q] <= v.sizes[best] {
        BinMonotone(v.sizes[q], v.sizes[best]);
      }
    }
  }

  lemma BinAllFit(raw: Raw, v: View, i: nat, nb: nat)
    requires Ok(raw, v) && i < NBINS && nb <= MIN_LARGE
    ensures AllFit(v.trees[i], nb)
  {
    assert TreeBin(raw, v, i);
  }

  /** The walk starts with the root as best chunk. */
  lemma {:induction false} SmallestStart(raw: Raw, heads: Heads, nb: nat, view: View, i: nat)
    requires Ok(raw, view) && Sized(view.sizes, heads) && 0 < nb <= MIN_LARGE && i < NBINS && Has(raw.treemap, i)
    ensures var g, t := Bin(raw, view, i), raw.treebins[i];
            && Standing(view.sizes, raw.links, g) && g.tree.Node? && g.root == t && t in raw.links && t in heads
            && nb <= heads[t].size < W64 && Candidate(view.sizes, t, heads[t].size - nb, nb)
            && AllFit(LeftmostTree(g.tree), nb)
            && Min(Best(view.sizes, t), Fit(LeftmostTree(g.tree), nb)) == Fit(g.tree, nb)
  {
    BinStands(raw, view, i);
    BinAllFit(raw, view, i, nb);
    var g := Bin(raw, view, i);
    StandingAt(view.sizes, raw.links, g);
    assert Holds(g.tree, g.tree.size);
    hide BinOf, TreeAt;
    LeastIsLeftmost(g.tree, g.lo, g.n, nb);
    assert forall k: nat | Holds(LeftmostTree(g.tree), k) :: Holds(g.tree, k);
  }

  /** From the root of bin `i` along the leftmost children. */
  method SmallestIn(raw: Raw, heads: Heads, nb: nat, i: nat, ghost view: View) returns (v: int, rsize: nat)
    requires Ok(raw, view) && Sized(view.sizes, heads) && 0 < nb <= MIN_LARGE && i < NBINS && Has(raw.treemap, i)
    ensures Candidate(view.sizes, v, rsize, nb) && Best(view.sizes, v) == Fit(view.trees[i], nb)
    ensures Hangs(raw.links, v)
  {
    assert Shaped(raw, view);
    hide Has, BinOf, Ok, Sized, Standing, AllFit, Child, Fit, BinLo, BinBits;
    SmallestStart(raw, heads, nb, view, i);
    ghost var g := Bin(raw, view, i);
    var t := raw.treebins[i];
    v := t;
    rsize := heads[t].size - nb;
    ChildStands(view.sizes, raw.links, g, false);
    ChildStands(view.sizes, raw.links, g, true);
    StandingAt(view.sizes, raw.links, Child(raw.links, g, false));
    g := Child(raw.links, g, raw.links[t].left == 0);
    t := if raw.links[t].left != 0 then raw.links[t].left else raw.links[t].right;
    v, rsize := SmallestBelow(raw.links, heads, nb, t, v, rsize, view.sizes, g);
  }

  /** The search of `tmalloc_small`: the first non-empty bin holds the smallest of all tree chunks. */
  method FindSmallest(raw: Raw, heads: Heads, nb: nat, ghost view: View) returns (v: int, rsize: nat)
    requires Ok(raw, view) && Sized(view.sizes, heads) && 0 < nb <= MIN_LARGE && raw.treemap != 0
    ensures IsSmallestTree(view.sizes, v) && rsize == view.sizes[v] - nb && NextInLine(view, v)
  {
    FirstBin(raw.treemap);
    hide LeastBit, Bit2Idx, Has, BinOf, Ok, Sized, Standing, AllFit, IsSmallestTree, Fit;
    var i := Bit2Idx(LeastBit(raw.treemap));
    v, rsize := SmallestIn(raw, heads, nb, i, view);
    BinStands(raw, view, i);
    SmallestOfBins(raw, view, i, nb, v, rsize);
    SmallestOpen(view.sizes, v);
    HangingLarge(raw, view, v, nb, rsize);
  }

  lemma SmallestOpen(sizes: Binned, v: int)
    requires IsSmallestTree(sizes, v)
    ensures v in sizes && MIN_LARGE <= sizes[v] < W64
  {
  }
}
