/**
 What clients may write. The words of memory are those of a flat address space: the foot of `a` is the word at `a`, its
 head the word at `a + 8`, its links the bytes from `a + 16` to `a + 64`,
     and a client may use its block from `p + 16` on.
 */
module ClientMemory {
  import opened TreeLinks
  import opened ChunkHeads
  import opened Tiling
  import opened Tags
  import opened HeapState
  import opened DirectMapping

  /** The bytes of clients. */
  class Contents {
    var at: int -> nat

    constructor ()
    {
      at := a => 0;
    }

    /** `memcpy`. */
    method Copy(to: int, from: int, n: nat)
      requires to + n <= from || from + n <= to
      modifies this
      ensures forall a :: at(a) == Pasted(old(at), to, from, n, a)
    {
      var was := at;
      at := a => Pasted(was, to, from, n, a);
    }
  }

  /** The byte at `a` after `n` bytes have been copied. */
  function Pasted(was: int -> nat, to: int, from: int, n: nat, a: int): nat {
    if to <= a < to + n then was(from + (a - to)) else was(a)
  }

  /** Block `p` has `n` bytes for its holder, those from `p + 16` on. */
  predicate Usable(w: World, p: int, n: int) {
    p in w.live && n + (if p in w.mapped then 16 else 8) == w.live[p]
  }

  /** Some byte from `lo` to `hi` belongs to block `p`; the last ones of a tile are the foot word of the next chunk. */
  predicate ReachedBy(w: World, p: int, lo: int, hi: int)
    requires p in w.live
  {
    p + 16 < hi && lo < p + w.live[p] + if p in w.mapped then 0 else 8
  }

  /** The bytes that a block reaches are its usable ones. */
  lemma ReachesUsable(w: World, p: int, n: int, a: int)
    requires Usable(w, p, n)
    ensures ReachedBy(w, p, a, a + 1) <==> 0 <= a - (p + 16) < n
  {
  }

  /** Some byte from `lo` to `hi` belongs to a client. */
  ghost predicate Reached(w: World, lo: int, hi: int) {
    exists p :: p in w.live && ReachedBy(w, p, lo, hi)
  }

  /**
   The entries that clients may have overwritten are those with a byte of theirs, whether the entries matter or not.
   */
  ghost predicate ClientHeads(w: World, head: Heads, head': Heads) {
    forall a | a in head && (a !in head' || head'[a] != head[a]) :: Reached(w, a + 8, a + 16)
  }

  ghost predicate ClientFeet(w: World, foot: Feet, foot': Feet) {
    forall a | a in foot && (a !in foot' || foot'[a] != foot[a]) :: Reached(w, a, a + 8)
  }

  ghost predicate ClientLinks(w: World, links: Links, links': Links) {
    forall a | a in links && (a !in links' || links'[a] != links[a]) :: Reached(w, a + 16, a + 64)
  }

  // ---------- the words of the allocator and those of clients ----------

  /** The heads, feet and links of different chunks never share a byte. */
  lemma RecordsApart(c: Tiles, a: int, b: int)
    requires a in c && b in c && a < b && Plain(c[a].kind) && Tiled(c)
    ensures a + 64 <= b
  {
    hide Tiled;
    TileAt(c, a);
    TilesApart(c, a, b);
  }

  /**
   A block that is a tile reaches no head of a tile, no foot of a free chunk before it, and no links of a free chunk.
   */
  lemma TileBesideTile(s: Store, w: World, a: int, p: int)
    requires a in w.tiles && p in w.tiles && w.tiles[p].kind.Used? && p in w.live && w.live[p] == w.tiles[p].size
    requires p !in w.mapped && Tiled(w.tiles) && Tagged(w.tiles, s.head, s.foot)
    ensures !ReachedBy(w, p, a + 8, a + 16) && a in s.head
    ensures !s.head[a].pinuse && !w.tiles[a].kind.Foot? ==> !ReachedBy(w, p, a, a + 8)
    ensures w.tiles[a].kind.Free? ==> !ReachedBy(w, p, a + 16, a + 64)
  {
    hide Tiled, Tagged;
    TileAt(w.tiles, a);
    TileAt(w.tiles, p);
    TagAt(w.tiles, s.head, s.foot, a);
    TagAt(w.tiles, s.head, s.foot, p);
    if p < a {
      TilesApart(w.tiles, p, a);
      var next := p + w.tiles[p].size;
      TileAt(w.tiles, next);
      if next < a {
        TilesApart(w.tiles, next, a);
      }
    } else if a < p {
      TilesApart(w.tiles, a, p);
    }
  }

  lemma TileBesideMapped(s: Store, w: World, a: int, p: int)
    requires a in w.tiles && p in w.mapped && p in w.live && w.live[p] == w.mapped[p].size
    requires Tiled(w.tiles) && SegmentsOk(w.tiles, s.segs, s.leastAddr) && RegionsClear(s.segs, w.mapped)
    requires MappingOk(s.head, s.foot, s.leastAddr, p, w.mapped[p])
    ensures !ReachedBy(w, p, a + 8, a + 16) && !ReachedBy(w, p, a, a + 8)
    ensures w.tiles[a].kind.Free? ==> !ReachedBy(w, p, a + 16, a + 64)
  {
    hide Tiled;
    TileAt(w.tiles, a);
    assert ClearOf(w.tiles[a].seg, RegionOf(p, w.mapped[p]));
  }

  /** No client reaches a head of a tile, a foot that matters, or the links of a free chunk. */
  lemma TileUnreached(s: Store, w: World, a: int)
    requires a in w.tiles && Sound(s, w)
    ensures !Reached(w, a + 8, a + 16) && a in s.head
    ensures !s.head[a].pinuse && !w.tiles[a].kind.Foot? ==> !Reached(w, a, a + 8)
    ensures w.tiles[a].kind.Free? ==> !Reached(w, a + 16, a + 64)
  {
    hide Booked, VictimOk, TopOk, Counted, Tiled, Tagged, SegmentsOk, RegionsClear, MappingsOk, ReachedBy;
    TagAt(w.tiles, s.head, s.foot, a);
    forall p | p in w.live
      ensures !ReachedBy(w, p, a + 8, a + 16)
      ensures !s.head[a].pinuse && !w.tiles[a].kind.Foot? ==> !ReachedBy(w, p, a, a + 8)
      ensures w.tiles[a].kind.Free? ==> !ReachedBy(w, p, a + 16, a + 64)
    {
      assert LiveKind(w.tiles, w.mapped, p);
      if p in w.mapped {
        MappedNoTile(s, w, p);
        TileBesideMapped(s, w, a, p);
      } else {
        TileBesideTile(s, w, a, p);
      }
    }
  }

  lemma MappedBesideTile(s: Store, w: World, q: int, p: int)
    requires q in w.mapped && p in w.tiles && w.tiles[p].kind.Used? && p in w.live && w.live[p] == w.tiles[p].size
    requires p !in w.mapped
    requires Tiled(w.tiles) && SegmentsOk(w.tiles, s.segs, s.leastAddr) && RegionsClear(s.segs, w.mapped)
    requires MappingOk(s.head, s.foot, s.leastAddr, q, w.mapped[q])
    ensures var f := q + w.mapped[q].size;
            && !ReachedBy(w, p, q, q + 8) && !ReachedBy(w, p, q + 8, q + 16)
            && !ReachedBy(w, p, f + 8, f + 16) && !ReachedBy(w, p, f + 16, f + 24)
  {
    hide Tiled;
    TileAt(w.tiles, p);
    SpareBehind(w, p);
    assert ClearOf(w.tiles[p].seg, RegionOf(q, w.mapped[q]));
  }

  /** A used tile is never the last of its segment, so that the foot word behind it is still inside. */
  lemma SpareBehind(w: World, p: int)
    requires p in w.tiles && w.tiles[p].kind.Used? && Tiled(w.tiles)
    ensures p + w.tiles[p].size + 8 <= w.tiles[p].seg.base + w.tiles[p].seg.size
  {
    hide Tiled;
    TileAt(w.tiles, p);
    TileAt(w.tiles, p + w.tiles[p].size);
  }

  lemma MappedBesideMapped(s: Store, w: World, q: int, p: int)
    requires q in w.mapped && p in w.mapped && p in w.live && w.live[p] == w.mapped[p].size
    requires MappingsOk(s.head, s.foot, s.leastAddr, w.mapped)
    ensures var f := q + w.mapped[q].size;
            && !ReachedBy(w, p, q, q + 8) && !ReachedBy(w, p, q + 8, q + 16)
            && !ReachedBy(w, p, f + 8, f + 16) && !ReachedBy(w, p, f + 16, f + 24)
  {
    assert MappingOk(s.head, s.foot, s.leastAddr, p, w.mapped[p]);
    assert MappingOk(s.head, s.foot, s.leastAddr, q, w.mapped[q]);
    if p != q {
      assert ClearOf(RegionOf(p, w.mapped[p]), RegionOf(q, w.mapped[q]));
    }
  }

  /** Nor the words that belong to a mapped chunk. */
  lemma MappedUnreached(s: Store, w: World, q: int)
    requires q in w.mapped && Sound(s, w)
    ensures var f := q + w.mapped[q].size;
            && !Reached(w, q, q + 8) && !Reached(w, q + 8, q + 16) && !Reached(w, f + 8, f + 16)
            && !Reached(w, f + 16, f + 24)
    ensures MappingOk(s.head, s.foot, s.leastAddr, q, w.mapped[q])
  {
    hide Booked, VictimOk, TopOk, Counted, Tiled, Tagged, SegmentsOk, RegionsClear, MappingsOk, ReachedBy;
    MappedNoTile(s, w, q);
    var f := q + w.mapped[q].size;
    forall p | p in w.live
      ensures !ReachedBy(w, p, q, q + 8) && !ReachedBy(w, p, q + 8, q + 16)
      ensures !ReachedBy(w, p, f + 8, f + 16) && !ReachedBy(w, p, f + 16, f + 24)
    {
      assert LiveKind(w.tiles, w.mapped, p);
      if p in w.mapped {
        MappedNoTile(s, w, p);
        MappedBesideMapped(s, w, q, p);
      } else {
        MappedBesideTile(s, w, q, p);
      }
    }
  }

  // ---------- no invariant depends on what clients write ----------

  lemma ScribbleTag(s: Store, w: World, head': Heads, foot': Feet, a: int)
    requires ClientHeads(w, s.head, head') && ClientFeet(w, s.foot, foot') && a in w.tiles && Sound(s, w)
    ensures TagOk(w.tiles, head', foot', a) && BackOk(w.tiles, head', foot', a)
  {
    hide Booked, VictimOk, TopOk, Counted, Tiled, Tagged, SegmentsOk, RegionsClear, MappingsOk, LiveOk, Reached;
    TileAt(w.tiles, a);
    TagAt(w.tiles, s.head, s.foot, a);
    TileUnreached(s, w, a);
    if !Last(w.tiles[a].kind) {
      TileUnreached(s, w, a + w.tiles[a].size);
    }
  }

  lemma ScribbleMap(s: Store, w: World, head': Heads, foot': Feet, q: int)
    requires ClientHeads(w, s.head, head') && ClientFeet(w, s.foot, foot') && q in w.mapped && Sound(s, w)
    ensures MappingOk(head', foot', s.leastAddr, q, w.mapped[q])
  {
    hide Sound, Reached;
    MappedUnreached(s, w, q);
  }

  /** The heap stays sound whatever clients write, wherever in their blocks. */
  lemma ScribbleSound(s: Store, w: World, head': Heads, foot': Feet)
    requires ClientHeads(w, s.head, head') && ClientFeet(w, s.foot, foot') && Sound(s, w)
    ensures Sound(s.(head := head', foot := foot'), w)
  {
    hide Booked, VictimOk, TopOk, Tiled, RegionsClear, LiveOk, SegmentsOk, ClientHeads, ClientFeet, TagOk, BackOk,
         MappingOk;
    forall a | a in w.tiles
      ensures TagOk(w.tiles, head', foot', a) && BackOk(w.tiles, head', foot', a)
    {
      ScribbleTag(s, w, head', foot', a);
    }
    forall q | q in w.mapped
      ensures MappingOk(head', foot', s.leastAddr, q, w.mapped[q])
    {
      ScribbleMap(s, w, head', foot', q);
    }
  }

  /** The links of binned chunks and of bin headers are out of reach. */
  lemma LinksUnreached(s: Store, w: World, a: int)
    requires (a in w.binned || a < 0) && Sound(s, w)
    ensures !Reached(w, a + 16, a + 64)
  {
    hide VictimOk, TopOk, Counted, Tiled, Tagged, SegmentsOk, RegionsClear, MappingsOk;
    if a in w.binned {
      TileUnreached(s, w, a);
    } else {
      forall p | p in w.live
        ensures !ReachedBy(w, p, a + 16, a + 64)
      {
        LivePositive(s, w, p);
      }
    }
  }

  lemma LivePositive(s: Store, w: World, p: int)
    requires p in w.live && Sound(s, w)
    ensures p >= 48
  {
    hide VictimOk, TopOk, Counted, Tiled, Tagged, SegmentsOk, RegionsClear, MappingsOk, Booked;
    assert LiveKind(w.tiles, w.mapped, p);
    if p in w.mapped {
      MappedNoTile(s, w, p);
    } else {
      TileAt(w.tiles, p);
    }
  }
}
