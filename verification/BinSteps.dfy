/** Every bin operation keeps `BinState.Ok` and changes the set of binned chunks as intended. */
module BinSteps {
  import opened Words
  import opened BinMaps
  import opened SizeClasses
  import opened Trie
  import opened TreeLinks
  import opened TreeEdits
  import opened Cycles
  import opened BinState

  // ---------- small bins ----------

  /** The first chunk of an empty bin: the header links are stale and both are overwritten. */
  function LinkOnly(links: Links, b: int, x: int): Links
    requires b in links && x in links
  {
    links[b := links[b].(fd := x, bk := x)][x := links[x].(fd := b, bk := b)]
  }

  function LinkSmall(links: Links, b: int, x: int, marked: bool): Links
    requires b in links && x in links && (marked ==> links[b].fd in links)
  {
    if marked then LinkFront(links, b, x) else LinkOnly(links, b, x)
  }

  predicate CanLink(raw: Raw, x: int, i: nat) {
    Header(i) in raw.links && x in raw.links && (Has(raw.smallmap, i) ==> raw.links[Header(i)].fd in raw.links)
  }

  function SmallInserted(v: View, x: int, i: nat): View
    requires i < |v.small|
  {
    v.(sizes := v.sizes[x := 8 * i], small := v.small[i := [x] + v.small[i]])
  }

  lemma LinkSmallCycle(raw: Raw, v: View, x: int, i: nat)
    requires Shaped(raw, v) && i < NBINS && SmallBin(raw, v, i) && Linked(v.sizes, raw.links)
    requires x > 0 && x !in v.sizes && x in raw.links
    ensures CanLink(raw, x, i)
    ensures Cycle(LinkSmall(raw.links, Header(i), x, Has(raw.smallmap, i)), [Header(i), x] + v.small[i])
  {
    var ring := [Header(i)] + v.small[i];
    if v.small[i] == [] {
      var links' := LinkOnly(raw.links, Header(i), x);
      assert Joined(links', [Header(i), x], 0) && Joined(links', [Header(i), x], 1);
      assert [Header(i), x] + v.small[i] == [Header(i), x];
    } else {
      assert x !in ring;
      LinkFrontCycle(raw.links, ring, x);
      assert Behind(ring, x) == [Header(i), x] + v.small[i];
    }
  }

  /** Linking into a small bin touches the header, the chunk and the former first chunk only. */
  lemma LinkSmallSpares(raw: Raw, v: View, x: int, i: nat, q: int)
    requires Shaped(raw, v) && i < NBINS && SmallBin(raw, v, i) && Linked(v.sizes, raw.links)
    requires x > 0 && x !in v.sizes && x in raw.links
    requires CanLink(raw, x, i)
    requires q in raw.links && q != x && q != Header(i) && q !in v.small[i]
    ensures Spared(raw.links, LinkSmall(raw.links, Header(i), x, Has(raw.smallmap, i)), q)
  {
    if v.small[i] != [] {
      var ring := [Header(i)] + v.small[i];
      CycleAt(raw.links, ring, 0);
      assert ring[Next(0, |ring|)] in v.small[i];
    }
  }

  lemma InsertSmallOk(raw: Raw, v: View, x: int, i: nat, raw': Raw)
    requires Ok(raw, v) && i < NBINS && x > 0 && x !in v.sizes && x in raw.links
    requires CanLink(raw, x, i)
    requires raw' == raw.(smallmap := if Has(raw.smallmap, i) then raw.smallmap else Mark(raw.smallmap, i),
                          links := LinkSmall(raw.links, Header(i), x, Has(raw.smallmap, i)))
    ensures Ok(raw', SmallInserted(v, x, i))
  {
    hide BinOf, LinkSmall, TreeAt, Ordered;
    var v' := SmallInserted(v, x, i);
    LinkSmallKeys(raw, x, i);
    MarkHas(raw.smallmap, i);
    MarkBelow(raw.smallmap, i);
    forall j: nat | j < NBINS
      ensures SmallBin(raw', v', j)
    {
      InsertSmallSmall(raw, v, x, i, raw', j);
    }
    forall j: nat | j < NBINS
      ensures TreeBin(raw', v', j)
    {
      InsertSmallTree(raw, v, x, i, raw', j);
    }
    forall q | q in v'.sizes
      ensures Placed(v', q)
    {
      assert q in v.sizes ==> Placed(v, q);
    }
  }

  lemma LinkSmallKeys(raw: Raw, x: int, i: nat)
    requires CanLink(raw, x, i)
    ensures LinkSmall(raw.links, Header(i), x, Has(raw.smallmap, i)).Keys == raw.links.Keys
  {
  }

  lemma MarkBelow(m: nat, i: nat)
    requires m < W32 && i < 32
    ensures Mark(m, i) < W32
  {
    Pow32(32);
    BitBelow(i);
    OrBelow(m, Bit(i), 32);
  }

  lemma InsertSmallSmall(raw: Raw, v: View, x: int, i: nat, raw': Raw, j: nat)
    requires Ok(raw, v) && i < NBINS && x > 0 && x !in v.sizes && x in raw.links && j < NBINS
    requires CanLink(raw, x, i)
    requires raw' == raw.(smallmap := raw'.smallmap, links := LinkSmall(raw.links, Header(i), x, Has(raw.smallmap, i)))
    requires raw'.smallmap < W32 && (Has(raw'.smallmap, j) <==> j == i || Has(raw.smallmap, j))
    ensures SmallBin(raw', SmallInserted(v, x, i), j)
  {
    hide BinOf, LinkSmall, TreeBin;
    var v' := SmallInserted(v, x, i);
    assert SmallBin(raw, v, i) && SmallBin(raw, v, j);
    LinkSmallKeys(raw, x, i);
    if i == j {
      LinkSmallCycle(raw, v, x, i);
      assert [Header(i)] + v'.small[i] == [Header(i), x] + v.small[i];
    } else {
      forall q | q in v.small[j]
        ensures Spared(raw.links, raw'.links, q) && q in v'.sizes && v'.sizes[q] == v.sizes[q]
      {
        LinkSmallSpares(raw, v, x, i, q);
      }
      HeaderApart(raw, v, i, j);
      LinkSmallSpares(raw, v, x, i, Header(j));
      SmallBinFrame(raw, v, raw', v', j);
    }
  }

  lemma HeaderApart(raw: Raw, v: View, i: nat, j: nat)
    requires Shaped(raw, v) && i < NBINS && SmallBin(raw, v, i) && Linked(v.sizes, raw.links)
    ensures Header(j) !in v.small[i]
  {
  }

  lemma InsertSmallTree(raw: Raw, v: View, x: int, i: nat, raw': Raw, j: nat)
    requires Ok(raw, v) && i < NBINS && x > 0 && x !in v.sizes && x in raw.links && j < NBINS
    requires CanLink(raw, x, i)
    requires raw' == raw.(smallmap := raw'.smallmap, links := LinkSmall(raw.links, Header(i), x, Has(raw.smallmap, i)))
    requires raw'.smallmap < W32
    ensures TreeBin(raw', SmallInserted(v, x, i), j)
  {
    hide BinOf, LinkSmall, TreeAt, Ordered;
    var v' := SmallInserted(v, x, i);
    assert SmallBin(raw, v, i) && TreeBin(raw, v, j);
    forall q | q in v.sizes && Holds(v.trees[j], v.sizes[q])
      ensures Spared(raw.links, raw'.links, q) && q in v'.sizes && v'.sizes[q] == v.sizes[q]
    {
      LinkSmallSpares(raw, v, x, i, q);
    }
    TreeBinFrame(raw, v, raw', v', j);
  }

  // ---------- unlinking from small bins ----------

  function ListWithout(list: seq<int>, x: int): (r: seq<int>)
    requires x in list
    ensures |r| == |list| - 1
  {
    var j := IndexOf(list, x);
    list[..j] + list[j + 1..]
  }

  function SmallRemoved(v: View, x: int, i: nat): View
    requires i < |v.small| && x in v.small[i]
  {
    v.(sizes := v.sizes - {x}, small := v.small[i := ListWithout(v.small[i], x)])
  }

  lemma {:induction false} DropBehindHeader(b: int, list: seq<int>, x: int)
    requires x in list && b != x
    ensures var ring := [b] + list; x in ring && |ring| > 1 && Drop(ring, x) == [b] + ListWithout(list, x)
  {
    var ring, j := [b] + list, IndexOf(list, x);
    IndexBehind(b, list, x);
    hide IndexOf;
    assert ring[..j + 1] == [b] + list[..j];
    assert ring[j + 2..] == list[j + 1..];
    assert Drop(ring, x) == ring[..j + 1] + ring[j + 2..];
  }

  lemma IndexBehind(b: int, list: seq<int>, x: int)
    requires x in list && b != x
    ensures x in [b] + list && IndexOf([b] + list, x) == IndexOf(list, x) + 1
  {
    assert ([b] + list)[1..] == list;
    assert ([b] + list)[IndexOf(list, x) + 1] == x;
  }

  lemma ListWithoutIn(list: seq<int>, x: int, q: int)
    requires x in list && Distinct(list)
    ensures q in ListWithout(list, x) <==> q in list && q != x
  {
    var j := IndexOf(list, x);
    if q in list && q != x {
      var k := IndexOf(list, q);
      assert ListWithout(list, x)[if k < j then k else k - 1] == q;
    }
  }

  /** `unlink_small_chunk`: the only chunk of a bin just clears the bit, any other is taken out of the cycle. */
  function UnlinkSmall(links: Links, list: seq<int>, x: int): Links
    requires x in links && links[x].fd in links && links[x].bk in links
  {
    if |list| == 1 then links else Unchain(links, x)
  }

  predicate CanUnlink(links: Links, x: int) {
    x in links && links[x].fd in links && links[x].bk in links
  }

  /** The neighbours of a chunk in its small bin are binned or the header, and link back to it. */
  lemma SmallNeighbours(raw: Raw, v: View, x: int, i: nat)
    requires Shaped(raw, v) && i < NBINS && SmallBin(raw, v, i) && x in v.small[i]
    ensures x in raw.links
    ensures var f, b := raw.links[x].fd, raw.links[x].bk;
            && f in raw.links && raw.links[f].bk == x && (f == Header(i) || f in v.sizes) && f != x
            && b in raw.links && raw.links[b].fd == x && (b == Header(i) || b in v.sizes) && b != x
  {
    var ring := [Header(i)] + v.small[i];
    var j := IndexOf(v.small[i], x) + 1;
    var n, p := Next(j, |ring|), Prev(j, |ring|);
    assert ring[j] == x;
    CycleAt(raw.links, ring, j);
    CycleAt(raw.links, ring, n);
    CycleAt(raw.links, ring, p);
    CycleDiffers(raw.links, ring, n, j);
    CycleDiffers(raw.links, ring, p, j);
    assert ring[n] == Header(i) || ring[n] in v.small[i];
    assert ring[p] == Header(i) || ring[p] in v.small[i];
  }

  lemma UnlinkSmallCycle(raw: Raw, v: View, x: int, i: nat)
    requires Shaped(raw, v) && i < NBINS && SmallBin(raw, v, i) && Linked(v.sizes, raw.links) && x in v.small[i]
    ensures CanUnlink(raw.links, x)
    ensures raw.links[x].fd == raw.links[x].bk <==> |v.small[i]| == 1
    ensures |v.small[i]| > 1 ==> Cycle(Unchain(raw.links, x), [Header(i)] + ListWithout(v.small[i], x))
    ensures Distinct(v.small[i])
  {
    var ring := [Header(i)] + v.small[i];
    var j := IndexOf(v.small[i], x) + 1;
    assert ring[j] == x;
    CycleAt(raw.links, ring, j);
    CycleDiffers(raw.links, ring, Next(j, |ring|), Prev(j, |ring|));
    DropBehindHeader(Header(i), v.small[i], x);
    UnchainCycle(raw.links, ring, x);
    forall a, b | 0 <= a < b < |v.small[i]|
      ensures v.small[i][a] != v.small[i][b]
    {
      CycleDiffers(raw.links, ring, a + 1, b + 1);
      assert ring[a + 1] == v.small[i][a] && ring[b + 1] == v.small[i][b];
    }
  }

  lemma UnlinkSmallSpares(raw: Raw, v: View, x: int, i: nat, q: int)
    requires Shaped(raw, v) && i < NBINS && SmallBin(raw, v, i) && Linked(v.sizes, raw.links) && x in v.small[i]
    requires CanUnlink(raw.links, x)
    requires q in raw.links && q != Header(i) && q !in v.small[i]
    ensures Spared(raw.links, UnlinkSmall(raw.links, v.small[i], x), q)
  {
    var ring := [Header(i)] + v.small[i];
    var j := IndexOf(v.small[i], x) + 1;
    assert ring[j] == x;
    CycleAt(raw.links, ring, j);
    assert ring[Next(j, |ring|)] in ring && ring[Prev(j, |ring|)] in ring;
    hide Cycle;
    UnchainLink(raw.links, x, q);
  }

  lemma UnlinkSmallOk(raw: Raw, v: View, x: int, i: nat, raw': Raw)
    requires Ok(raw, v) && i < NBINS && x in v.small[i] && CanUnlink(raw.links, x)
    requires raw' == raw.(smallmap := if |v.small[i]| == 1 then Clear(raw.smallmap, i) else raw.smallmap,
                          links := UnlinkSmall(raw.links, v.small[i], x))
    ensures Ok(raw', SmallRemoved(v, x, i))
  {
    hide BinOf, TreeAt, Ordered, Unchain;
    var v' := SmallRemoved(v, x, i);
    assert SmallBin(raw, v, i);
    ClearHas(raw.smallmap, i);
    UnlinkSmallKeys(raw.links, v.small[i], x);
    UnlinkSmallCycle(raw, v, x, i);
    forall j: nat | j < NBINS
      ensures SmallBin(raw', v', j)
    {
      UnlinkSmallSmall(raw, v, x, i, raw', j);
    }
    forall j: nat | j < NBINS
      ensures TreeBin(raw', v', j)
    {
      UnlinkSmallTree(raw, v, x, i, raw', j);
    }
    forall q | q in v'.sizes
      ensures Placed(v', q)
    {
      assert Placed(v, q);
      ListWithoutIn(v.small[i], x, q);
    }
  }

  lemma UnlinkSmallKeys(links: Links, list: seq<int>, x: int)
    requires CanUnlink(links, x)
    ensures UnlinkSmall(links, list, x).Keys == links.Keys
  {
  }

  lemma UnlinkSmallSmall(raw: Raw, v: View, x: int, i: nat, raw': Raw, j: nat)
    requires Ok(raw, v) && i < NBINS && x in v.small[i] && CanUnlink(raw.links, x) && j < NBINS
    requires raw' == raw.(smallmap := raw'.smallmap, links := UnlinkSmall(raw.links, v.small[i], x))
    requires raw'.smallmap < W32
    requires Has(raw'.smallmap, j)
             <==> (if |v.small[i]| == 1 then j != i && Has(raw.smallmap, j) else Has(raw.smallmap, j))
    ensures SmallBin(raw', SmallRemoved(v, x, i), j)
  {
    hide BinOf, TreeBin, Unchain;
    var v' := SmallRemoved(v, x, i);
    assert SmallBin(raw, v, i) && SmallBin(raw, v, j);
    UnlinkSmallKeys(raw.links, v.small[i], x);
    UnlinkSmallCycle(raw, v, x, i);
    if i == j {
      forall q | q in v'.small[i]
        ensures q in v'.sizes && v'.sizes[q] == 8 * i
      {
        ListWithoutIn(v.small[i], x, q);
      }
    } else {
      forall q | q in v.small[j]
        ensures Spared(raw.links, raw'.links, q) && q in v'.sizes && v'.sizes[q] == v.sizes[q]
      {
        UnlinkSmallSpares(raw, v, x, i, q);
      }
      HeaderApart(raw, v, i, j);
      UnlinkSmallSpares(raw, v, x, i, Header(j));
      SmallBinFrame(raw, v, raw', v', j);
    }
  }

  lemma UnlinkSmallTree(raw: Raw, v: View, x: int, i: nat, raw': Raw, j: nat)
    requires Ok(raw, v) && i < NBINS && x in v.small[i] && CanUnlink(raw.links, x) && j < NBINS
    requires raw' == raw.(smallmap := raw'.smallmap, links := UnlinkSmall(raw.links, v.small[i], x))
    requires raw'.smallmap < W32
    ensures TreeBin(raw', SmallRemoved(v, x, i), j)
  {
    hide BinOf, TreeAt, Ordered, Unchain;
    var v' := SmallRemoved(v, x, i);
    assert SmallBin(raw, v, i) && TreeBin(raw, v, j);
    forall q | q in v.sizes && Holds(v.trees[j], v.sizes[q])
      ensures Spared(raw.links, raw'.links, q) && q in v'.sizes && v'.sizes[q] == v.sizes[q]
    {
      UnlinkSmallSpares(raw, v, x, i, q);
    }
    TreeBinFrame(raw, v, raw', v', j);
  }

  // ---------- tree bins ----------

  /** Only chunks of the trie `t` and `x` itself have changed. */
  ghost predicate Within(sizes: Binned, links: Links, links': Links, t: Tree, x: int) {
    && links'.Keys == links.Keys
    && forall q | q in links && q != x && (q in sizes ==> !Holds(t, sizes[q])) :: links'[q] == links[q]
  }

  /** The trie of bin `i` becomes `t'`, stored at `root`; all other bins stay. */
  function Retreed(raw: Raw, i: nat, treemap: nat, root: int, links: Links): Raw
    requires i < |raw.treebins|
  {
    raw.(treemap := treemap, treebins := raw.treebins[i := root], links := links)
  }

  lemma {:induction false} OtherBins(raw: Raw, v: View, raw': Raw, v': View, i: nat, x: int, j: nat)
    requires Ok(raw, v) && Shaped(raw', v') && i < NBINS && j < NBINS
    requires raw'.smallmap == raw.smallmap && v'.small == v.small
    requires j != i ==> v'.trees[j] == v.trees[j] && raw'.treebins[j] == raw.treebins[j]
    requires Has(raw'.treemap, j) <==> if j == i then v'.trees[i].Node? else Has(raw.treemap, j)
    requires Within(v.sizes, raw.links, raw'.links, v.trees[i], x) && x > 0
    requires x in v.sizes ==> Holds(v.trees[i], v.sizes[x])
    requires forall q | q in v.sizes && q != x :: q in v'.sizes && v'.sizes[q] == v.sizes[q]
    ensures SmallBin(raw', v', j)
    ensures j != i ==> TreeBin(raw', v', j)
  {
    hide BinOf, TreeAt, Ordered, Cycle;
    assert SmallBin(raw, v, j) && TreeBin(raw, v, j) && TreeBin(raw, v, i);
    forall q | q in v.small[j]
      ensures Spared(raw.links, raw'.links, q) && q in v'.sizes && v'.sizes[q] == v.sizes[q]
    {
      assert q in v.sizes && IsSmall(v.sizes[q]);
      if Holds(v.trees[i], v.sizes[q]) {
        SmallNotLarge(v.sizes[q], i);
      }
    }
    SmallBinFrame(raw, v, raw', v', j);
    if j != i {
      forall q | q in v.sizes && Holds(v.trees[j], v.sizes[q])
        ensures Spared(raw.links, raw'.links, q) && q in v'.sizes && v'.sizes[q] == v.sizes[q]
      {
        assert LargeIn(v.sizes[q], j);
      }
      TreeBinFrame(raw, v, raw', v', j);
    }
  }

  function LargeInserted(v: View, x: int, s: nat, i: nat): View
    requires i == BinOf(s) && i < |v.trees| && Ordered(v.trees[i], BinLo(i), BinBits(i))
             && InRange(s, BinLo(i), BinBits(i))
  {
    v.(sizes := v.sizes[x := s], trees := v.trees[i := Insert(v.trees[i], s, x, BinLo(i), BinBits(i))])
  }

  lemma {:induction false} InsertLargeOk(raw: Raw, v: View, x: int, s: nat, i: nat, root: int, links': Links, raw': Raw)
    requires Ok(raw, v) && LargeIn(s, i) && x > 0 && x !in v.sizes
    requires Ordered(v.trees[i], BinLo(i), BinBits(i)) && InRange(s, BinLo(i), BinBits(i))
    requires TreeAt(v.sizes[x := s], links', Insert(v.trees[i], s, x, BinLo(i), BinBits(i)), root, Slot(i))
    requires Within(v.sizes, raw.links, links', v.trees[i], x) && x in raw.links
    requires raw' == Retreed(raw, i, if Has(raw.treemap, i) then raw.treemap else Mark(raw.treemap, i), root, links')
    ensures Ok(raw', LargeInserted(v, x, s, i))
  {
    var v' := LargeInserted(v, x, s, i);
    assert TreeBin(raw, v, i);
    MarkHas(raw.treemap, i);
    MarkBelow(raw.treemap, i);
    InsertedTree(raw, v, x, s, i, root, links', raw');
    hide BinOf, TreeAt, Ordered, Insert, TreeBin, SmallBin, Mark, Has;
    forall j: nat | j < NBINS
      ensures SmallBin(raw', v', j) && TreeBin(raw', v', j)
    {
      OtherBins(raw, v, raw', v', i, x, j);
    }
    forall q | q in v'.sizes
      ensures Placed(v', q)
    {
      InsertedPlaced(raw, v, x, s, i, q);
    }
  }

  lemma InsertedTree(raw: Raw, v: View, x: int, s: nat, i: nat, root: int, links': Links, raw': Raw)
    requires Ok(raw, v) && LargeIn(s, i) && x > 0 && x !in v.sizes
    requires Ordered(v.trees[i], BinLo(i), BinBits(i)) && InRange(s, BinLo(i), BinBits(i))
    requires TreeAt(v.sizes[x := s], links', Insert(v.trees[i], s, x, BinLo(i), BinBits(i)), root, Slot(i))
    requires raw' == Retreed(raw, i, raw'.treemap, root, links') && raw'.treemap < W32 && Has(raw'.treemap, i)
    ensures TreeBin(raw', LargeInserted(v, x, s, i), i)
  {
    hide BinOf, TreeAt;
    var t := v.trees[i];
    assert TreeBin(raw, v, i);
    InsertRefines(t, s, x, BinLo(i), BinBits(i), s);
    LookupFinds(Insert(t, s, x, BinLo(i), BinBits(i)), s, BinLo(i), BinBits(i));
    forall k: nat | Holds(Insert(t, s, x, BinLo(i), BinBits(i)), k)
      ensures LargeIn(k, i)
    {
      InsertHolds(t, s, x, BinLo(i), BinBits(i), k);
    }
  }

  lemma InsertedPlaced(raw: Raw, v: View, x: int, s: nat, i: nat, q: int)
    requires Ok(raw, v) && LargeIn(s, i) && x !in v.sizes && (q == x || q in v.sizes)
    requires Ordered(v.trees[i], BinLo(i), BinBits(i)) && InRange(s, BinLo(i), BinBits(i))
    ensures Placed(LargeInserted(v, x, s, i), q)
  {
    hide BinOf, TreeAt, TreeBin, SmallBin;
    if q == x {
      InsertRefines(v.trees[i], s, x, BinLo(i), BinBits(i), s);
    } else {
      assert Placed(v, q);
      InsertRefines(v.trees[i], s, x, BinLo(i), BinBits(i), v.sizes[q]);
    }
  }

  function LargeRemoved(v: View, x: int, s: nat, i: nat): View
    requires i == BinOf(s) && i < |v.trees| && Ordered(v.trees[i], BinLo(i), BinBits(i))
             && InRange(s, BinLo(i), BinBits(i))
    requires x in Lookup(v.trees[i], s, BinLo(i), BinBits(i))
  {
    v.(sizes := v.sizes - {x}, trees := v.trees[i := Remove(v.trees[i], s, x, BinLo(i), BinBits(i))])
  }

  /** The chunk and bin of a removal: `x` of size `s` sits in the trie of bin `i`. */
  ghost predicate Removable(v: View, x: int, s: nat, i: nat) {
    && LargeIn(s, i) && i < |v.trees| && x in v.sizes && v.sizes[x] == s
    && Ordered(v.trees[i], BinLo(i), BinBits(i)) && InRange(s, BinLo(i), BinBits(i))
    && x in Lookup(v.trees[i], s, BinLo(i), BinBits(i))
  }

  lemma {:induction false} RemoveLargeOk(raw: Raw, v: View, x: int, s: nat, i: nat, root: int, links': Links, raw': Raw)
    requires Ok(raw, v) && Removable(v, x, s, i)
    requires TreeAt(v.sizes - {x}, links', Remove(v.trees[i], s, x, BinLo(i), BinBits(i)), root, Slot(i))
    requires Within(v.sizes, raw.links, links', v.trees[i], x)
    requires raw' == Retreed(raw, i, if root == 0 then Clear(raw.treemap, i) else raw.treemap, root, links')
    ensures Ok(raw', LargeRemoved(v, x, s, i))
  {
    var v' := LargeRemoved(v, x, s, i);
    assert TreeBin(raw, v, i);
    ClearHas(raw.treemap, i);
    RootSize(v.sizes - {x}, links', v'.trees[i], root, Slot(i));
    LookupFinds(v.trees[i], s, BinLo(i), BinBits(i));
    RemovedTree(raw, v, x, s, i, root, links', raw');
    hide BinOf, TreeAt, Ordered, Remove, TreeBin, SmallBin, Clear, Has;
    forall j: nat | j < NBINS
      ensures SmallBin(raw', v', j) && TreeBin(raw', v', j)
    {
      OtherBins(raw, v, raw', v', i, x, j);
    }
    forall q | q in v'.sizes
      ensures Placed(v', q)
    {
      RemovedPlaced(raw, v, x, s, i, q);
    }
  }

  lemma RemovedTree(raw: Raw, v: View, x: int, s: nat, i: nat, root: int, links': Links, raw': Raw)
    requires Ok(raw, v) && Removable(v, x, s, i)
    requires TreeAt(v.sizes - {x}, links', Remove(v.trees[i], s, x, BinLo(i), BinBits(i)), root, Slot(i))
    requires raw' == Retreed(raw, i, raw'.treemap, root, links') && raw'.treemap < W32
    requires Has(raw'.treemap, i) <==> Remove(v.trees[i], s, x, BinLo(i), BinBits(i)).Node?
    ensures TreeBin(raw', LargeRemoved(v, x, s, i), i)
  {
    hide BinOf, TreeAt;
    var t := v.trees[i];
    assert TreeBin(raw, v, i);
    RemoveRefines(t, s, x, BinLo(i), BinBits(i), s);
    forall k: nat | Holds(Remove(t, s, x, BinLo(i), BinBits(i)), k)
      ensures LargeIn(k, i)
    {
      RemoveHolds(t, s, x, BinLo(i), BinBits(i), k);
    }
  }

  lemma RemovedPlaced(raw: Raw, v: View, x: int, s: nat, i: nat, q: int)
    requires Ok(raw, v) && Removable(v, x, s, i) && q in v.sizes && q != x
    ensures Placed(LargeRemoved(v, x, s, i), q)
  {
    hide BinOf, TreeAt, TreeBin, SmallBin;
    assert Placed(v, q);
    RemoveRefines(v.trees[i], s, x, BinLo(i), BinBits(i), v.sizes[q]);
    var ring := Lookup(v.trees[i], s, BinLo(i), BinBits(i));
    if q in ring {
      WithoutKeeps(ring, x, q);
    }
  }
}
