/** All bins together: what the words, slots and link records of `malloc_state` must say about the binned chunks. */
module BinState {
  import opened Words
  import opened BinMaps
  import opened SizeClasses
  import opened Trie
  import opened TreeLinks
  import opened Cycles

  /** The memory of the bins. The records of the small-bin headers are kept at negative addresses. */
  datatype Raw = Raw(smallmap: nat, treemap: nat, treebins: seq<int>, links: Links)

  /** What it stands for: the binned chunks with their sizes, the small lists and the tries. */
  datatype View = View(sizes: Binned, small: seq<seq<int>>, trees: seq<Tree>)

  /** Address of tree bin `i`, the parent link of its root. */
  function Slot(i: nat): int {
    -(i as int) - 1
  }

  /** Address of the header of small bin `i`. */
  function Header(i: nat): int {
    -(i as int) - 101
  }

  predicate LargeIn(k: nat, i: nat) {
    MIN_LARGE <= k < W64 && BinOf(k) == i
  }

  predicate Shaped(raw: Raw, v: View) {
    && |raw.treebins| == NBINS && |v.small| == NBINS && |v.trees| == NBINS
    && raw.smallmap < W32 && raw.treemap < W32
  }

  /** A non-empty small bin is a cycle through its header; the links of an empty one mean nothing. */
  ghost predicate SmallBin(raw: Raw, v: View, i: nat)
    requires i < NBINS && Shaped(raw, v)
  {
    && Header(i) in raw.links
    && (Has(raw.smallmap, i) <==> v.small[i] != [])
    && (v.small[i] != [] ==> Cycle(raw.links, [Header(i)] + v.small[i]))
    && forall q | q in v.small[i] :: q in v.sizes && v.sizes[q] == 8 * i
  }

  ghost predicate TreeBin(raw: Raw, v: View, i: nat)
    requires i < NBINS && Shaped(raw, v)
  {
    && TreeAt(v.sizes, raw.links, v.trees[i], raw.treebins[i], Slot(i))
    && Ordered(v.trees[i], BinLo(i), BinBits(i))
    && (Has(raw.treemap, i) <==> v.trees[i].Node?)
    && forall k: nat | Holds(v.trees[i], k) :: LargeIn(k, i)
  }

  /** Chunk `q` is in the bin that its size selects. */
  predicate Placed(v: View, q: int)
    requires q in v.sizes && |v.small| == NBINS && |v.trees| == NBINS
  {
    var s := v.sizes[q];
    if IsSmall(s) then s == 8 * SmallIndex(s) && q in v.small[SmallIndex(s)]
    else s < W64 && q in Lookup(v.trees[BinOf(s)], s, BinLo(BinOf(s)), BinBits(BinOf(s)))
  }

  ghost predicate Ok(raw: Raw, v: View) {
    && Shaped(raw, v)
    && Linked(v.sizes, raw.links)
    && (forall i: nat | i < NBINS :: Slot(i) !in raw.links)
    && (forall i: nat | i < NBINS :: SmallBin(raw, v, i))
    && (forall i: nat | i < NBINS :: TreeBin(raw, v, i))
    && (forall q | q in v.sizes :: Placed(v, q))
  }

  // ---------- bins that an operation does not touch ----------

  predicate Spared(links: Links, links': Links, q: int) {
    q in links && q in links' && links'[q] == links[q]
  }

  lemma SmallBinFrame(raw: Raw, v: View, raw': Raw, v': View, i: nat)
    requires i < NBINS && Shaped(raw, v) && Shaped(raw', v') && SmallBin(raw, v, i)
    requires v'.small[i] == v.small[i] && (Has(raw'.smallmap, i) <==> Has(raw.smallmap, i))
    requires Spared(raw.links, raw'.links, Header(i))
    requires forall q | q in v.small[i] ::
               Spared(raw.links, raw'.links, q) && q in v'.sizes && v'.sizes[q] == v.sizes[q]
    ensures SmallBin(raw', v', i)
  {
    if v.small[i] != [] {
      CycleFrame(raw.links, raw'.links, [Header(i)] + v.small[i]);
    }
  }

  lemma TreeBinFrame(raw: Raw, v: View, raw': Raw, v': View, i: nat)
    requires i < NBINS && Shaped(raw, v) && Shaped(raw', v') && TreeBin(raw, v, i) && Linked(v.sizes, raw.links)
    requires v'.trees[i] == v.trees[i] && raw'.treebins[i] == raw.treebins[i]
    requires Has(raw'.treemap, i) <==> Has(raw.treemap, i)
    requires forall q | q in v.sizes && Holds(v.trees[i], v.sizes[q]) ::
               Spared(raw.links, raw'.links, q) && q in v'.sizes && v'.sizes[q] == v.sizes[q]
    ensures TreeBin(raw', v', i)
  {
    TreeFrame(v.sizes, raw.links, v'.sizes, raw'.links, v.trees[i], raw.treebins[i], Slot(i));
  }

  /** Small and large sizes never meet. */
  lemma SmallNotLarge(s: nat, i: nat)
    requires LargeIn(s, i)
    ensures !IsSmall(s)
  {
  }

  /** The bins do not depend on the memory of chunks that are not binned: clients may write there what they like. */
  lemma OkScribble(raw: Raw, v: View, raw': Raw)
    requires Ok(raw, v) && raw' == raw.(links := raw'.links)
    requires forall i: nat | i < NBINS :: Slot(i) !in raw'.links
    requires forall i: nat | i < NBINS :: Spared(raw.links, raw'.links, Header(i))
    requires forall q | q in v.sizes :: Spared(raw.links, raw'.links, q)
    ensures Ok(raw', v)
  {
    forall i: nat | i < NBINS
      ensures SmallBin(raw', v, i) && TreeBin(raw', v, i)
    {
      assert SmallBin(raw, v, i) && TreeBin(raw, v, i);
      assert Spared(raw.links, raw'.links, Header(i));
      hide BinOf, TreeAt, Cycle, Ordered;
      SmallBinFrame(raw, v, raw', v, i);
      TreeBinFrame(raw, v, raw', v, i);
    }
  }
}
