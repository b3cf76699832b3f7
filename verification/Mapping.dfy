/** Chunks that are mapped directly: their regions, how requests are sized, and that the segments do not notice them. */
module DirectMapping {
  import opened Words
  import opened SizeClasses
  import opened ChunkHeads
  import opened Tiling
  import opened Tags
  import opened HeapState
  import opened Growing

  const GRANULARITY: nat := 262144
  const MMAP_THRESHOLD: nat := 262144
  const MAX_SIZE: nat := W64 - 1

  /** `page_align`, in 64-bit arithmetic. */
  function PageAlign(x: nat): nat {
    var y := (x + 4095) % W64;
    y - y % 4096
  }

  /** `granularity_align`, in 64-bit arithmetic. */
  function GranularityAlign(x: nat): nat {
    var y := (x + 262143) % W64;
    y - y % 262144
  }

  /** The region that `mmap_alloc` asks for. */
  function DirectSize(nb: nat): nat {
    PageAlign((nb + 48 + 63) % W64)
  }

  /** The region that `sys_alloc` asks for: `SYS_ALLOC_PADDING` is the foot area and one alignment unit. */
  function RegionSize(nb: nat): nat {
    GranularityAlign((nb + TOP_FOOT + 64) % W64)
  }

  lemma RoundedDown(y: nat)
    ensures y - 262144 < y - y % 262144 <= y && (y - y % 262144) % 262144 == 0 && (y - y % 262144) % 8 == 0
  {
  }

  /**
   Unless the padding wraps around, the region is the least multiple of the granularity that is large enough for every
   alignment of its base.
   */
  lemma RegionSizeFits(nb: nat)
    requires 64 <= nb < W64
    ensures RegionSize(nb) > nb <==> nb + 176 + 64 + 262143 < W64
    ensures RegionSize(nb) > nb ==>
              nb + 176 + 64 <= RegionSize(nb) < nb + 176 + 64 + 262144 && RegionSize(nb) % 262144 == 0
    ensures RegionSize(nb) > nb ==> RegionSize(nb) % 8 == 0
  {
    RoundedDown((((nb + TOP_FOOT + 64) % W64) + 262143) % W64);
  }

  lemma RoundedPage(y: nat)
    ensures y - 4096 < y - y % 4096 <= y && (y - y % 4096) % 8 == 0 && (y - y % 4096) % 4096 == 0
  {
    var q := y / 4096;
    assert y - y % 4096 == 4096 * q;
    PageMultiple(q);
  }

  lemma PageMultiple(q: nat)
    ensures (4096 * q) % 8 == 0 && (4096 * q) % 4096 == 0
  {
  }

  /** A mapped region is the least number of pages that is large enough, unless its padding wraps around. */
  lemma DirectSizeFits(nb: nat)
    requires MMAP_THRESHOLD <= nb < W64
    ensures DirectSize(nb) > nb <==> nb + 111 + 4095 < W64
    ensures DirectSize(nb) > nb ==>
              nb + 111 <= DirectSize(nb) < nb + 111 + 4096 && DirectSize(nb) % 8 == 0 && DirectSize(nb) % 4096 == 0
  {
    RoundedPage((((nb + 48 + 63) % W64) + 4095) % W64);
  }

  // ---------- the segments do not notice changes elsewhere ----------

  /** Every tile keeps its head and its foot word. */
  ghost predicate TilesKept(c: Tiles, head: Heads, foot: Feet, head': Heads, foot': Feet) {
    && (forall a | a in c && a in head :: a in head' && head'[a] == head[a])
    && (forall a | a in c && a in foot :: a in foot' && foot'[a] == foot[a])
  }

  lemma TaggedFrame(c: Tiles, head: Heads, foot: Feet, head': Heads, foot': Feet)
    requires Tiled(c) && Tagged(c, head, foot) && TilesKept(c, head, foot, head', foot')
    ensures Tagged(c, head', foot')
  {
    hide Tiled;
    forall a: int | a in c
      ensures TagOk(c, head', foot', a) && BackOk(c, head', foot', a)
    {
      TileAt(c, a);
      TagAt(c, head, foot, a);
    }
  }

  /** The tags of a new mapped chunk. */
  function MapHead(head: Heads, p: int, size: nat): Heads {
    head[p := Head(size, false, false)][p + size := Head(FENCE_HEAD, true, true)][p + size + 8 := Head(0, false, false)]
  }

  lemma MapKeepsTiles(s: Store, w: World, p: int, m: Mapping)
    requires m.offset <= p && Grantable(s, w, RegionOf(p, m)) && Tiled(w.tiles)
             && SegmentsOk(w.tiles, s.segs, s.leastAddr)
    ensures TilesKept(w.tiles, s.head, s.foot, MapHead(s.head, p, m.size), s.foot[p := m.offset])
  {
    hide Tiled, SegmentsOk, Grantable;
    forall a | a in w.tiles
      ensures a != p && a != p + m.size && a != p + m.size + 8
    {
      TileElsewhere(s, w, RegionOf(p, m), a);
    }
  }

  lemma MapElsewhere(s: Store, w: World, p: int, m: Mapping, q: int)
    requires m.offset <= p && Grantable(s, w, RegionOf(p, m)) && q in w.mapped
    requires MappingOk(s.head, s.foot, s.leastAddr, q, w.mapped[q])
    ensures q != p && q != p + m.size && q != p + m.size + 8
    ensures var f := q + w.mapped[q].size;
            && f != p && f != p + m.size && f != p + m.size + 8
            && f + 8 != p && f + 8 != p + m.size && f + 8 != p + m.size + 8
  {
    hide Grantable;
    GrantClearMap(s, w, RegionOf(p, m), q);
  }

  lemma MapKeepsMaps(s: Store, w: World, p: int, m: Mapping)
    requires m.offset <= p && Grantable(s, w, RegionOf(p, m)) && MappingsOk(s.head, s.foot, s.leastAddr, w.mapped)
    ensures MapsKept(w.mapped, s.head, s.foot, MapHead(s.head, p, m.size), s.foot[p := m.offset]) && p !in w.mapped
  {
    hide Grantable, MappingOk, RegionOf;
    forall q | q in w.mapped
      ensures q != p && q != p + m.size && q != p + m.size + 8
      ensures var f := q + w.mapped[q].size;
              && f != p && f != p + m.size && f != p + m.size + 8
              && f + 8 != p && f + 8 != p + m.size && f + 8 != p + m.size + 8
    {
      MapElsewhere(s, w, p, m, q);
    }
  }

  lemma GrantClearMap(s: Store, w: World, seg: Segment, q: int)
    requires Grantable(s, w, seg) && q in w.mapped && w.mapped[q].offset <= q
    ensures ClearOf(seg, RegionOf(q, w.mapped[q]))
  {
  }

  lemma MappedInserted(s: Store, w: World, p: int, m: Mapping, leastAddr': nat)
    requires m.offset < p && Grantable(s, w, RegionOf(p, m)) && MappingsOk(s.head, s.foot, s.leastAddr, w.mapped)
             && p !in w.mapped
    requires OnGrid(p) && !IsSmall(m.size) && MappedLength(m) % 4096 == 0 && m.size % 8 == 0
    requires p + m.size + FOOT_PAD <= W64 && leastAddr' <= p - m.offset
    requires leastAddr' <= s.leastAddr || w.mapped == map[]
    requires RegionsClear(s.segs, w.mapped)
    ensures MappingsOk(MapHead(s.head, p, m.size), s.foot[p := m.offset], leastAddr', w.mapped[p := m])
    ensures RegionsClear(s.segs, w.mapped[p := m])
  {
    hide MapsKept;
    MapKeepsMaps(s, w, p, m);
    MappingsKept(s.head, s.foot, s.leastAddr, w.mapped, MapHead(s.head, p, m.size), s.foot[p := m.offset], leastAddr');
  }

  lemma LeastLower(c: Tiles, segs: seq<Segment>, leastAddr: nat, leastAddr': nat)
    requires SegmentsOk(c, segs, leastAddr) && leastAddr' <= leastAddr
    ensures SegmentsOk(c, segs, leastAddr')
  {
  }

  /** A chunk that may be laid into a granted region. */
  ghost predicate Mappable(s: Store, w: World, p: int, m: Mapping) {
    && m.offset < p && OnGrid(p) && !IsSmall(m.size) && MappedLength(m) % 4096 == 0 && m.size % 8 == 0
    && p + m.size + FOOT_PAD <= W64
    && Grantable(s, w, RegionOf(p, m))
  }

  /** The fields after mapping `p` into a region that starts at `mm`. */
  function MapStore(s: Store, p: int, m: Mapping, mm: nat): Store {
    var footprint := s.footprint + MappedLength(m);
    s.(head := MapHead(s.head, p, m.size), foot := s.foot[p := m.offset],
       leastAddr := if s.leastAddr == 0 || mm < s.leastAddr then mm else s.leastAddr,
       footprint := footprint, maxFootprint := if footprint > s.maxFootprint then footprint else s.maxFootprint)
  }

  /** Mapping a chunk keeps every invariant of the heap. */
  lemma MapSound(s: Store, w: World, p: int, m: Mapping, s': Store, w': World)
    requires Mappable(s, w, p, m) && s.leastAddr > 0 && s' == MapStore(s, p, m, p - m.offset)
    requires w' == w.(mapped := w.mapped[p := m], live := w.live[p := m.size]) && Sound(s, w)
    ensures Sound(s', w') && p !in w.live
  {
    hide Tiled, Tagged, Booked, VictimOk, TopOk, SegmentsOk, MappingsOk, RegionsClear, MapHead, TilesKept, MapsKept,
         Grantable;
    MapKeepsTiles(s, w, p, m);
    TaggedFrame(w.tiles, s.head, s.foot, s'.head, s'.foot);
    MapKeepsMaps(s, w, p, m);
    MappedInserted(s, w, p, m, s'.leastAddr);
    LeastLower(w.tiles, s.segs, s.leastAddr, s'.leastAddr);
    MappedAdd(w.mapped, p, m);
    if p in w.tiles {
      TileElsewhere(s, w, RegionOf(p, m), p);
    }
  }

  /** Mapped chunks are no tiles. */
  lemma MappedNoTile(s: Store, w: World, p: int)
    requires p in w.mapped && Sound(s, w)
    ensures p !in w.tiles && p in w.live && w.live[p] == w.mapped[p].size
            && MappingOk(s.head, s.foot, s.leastAddr, p, w.mapped[p])
  {
    hide Tiled, Tagged, Booked, VictimOk, TopOk, Counted, SegmentsOk, RegionsClear;
    assert MappingOk(s.head, s.foot, s.leastAddr, p, w.mapped[p]);
    if p in w.tiles {
      TileNotMapped(s, w, p, p);
    }
  }

  lemma TileNotInside(s: Store, w: World, a: int, p: int)
    requires a in w.tiles && p in w.mapped && w.mapped[p].offset <= p
    requires Tiled(w.tiles) && SegmentsOk(w.tiles, s.segs, s.leastAddr) && RegionsClear(s.segs, w.mapped)
    ensures !(p <= a < p + w.mapped[p].size)
  {
    hide Tiled;
    TileAt(w.tiles, a);
    assert ClearOf(w.tiles[a].seg, RegionOf(p, w.mapped[p]));
  }

  lemma TileNotMapped(s: Store, w: World, a: int, p: int)
    requires a in w.tiles && p in w.mapped && w.mapped[p].offset <= p
    requires Tiled(w.tiles) && SegmentsOk(w.tiles, s.segs, s.leastAddr) && RegionsClear(s.segs, w.mapped)
    ensures a != p
  {
    hide Tiled;
    TileAt(w.tiles, a);
    assert ClearOf(w.tiles[a].seg, RegionOf(p, w.mapped[p]));
  }

  /** Unmapping a chunk keeps every invariant of the heap. */
  lemma UnmapSound(s: Store, w: World, p: int)
    requires p in w.mapped && Sound(s, w)
    ensures MappedLength(w.mapped[p]) <= s.footprint
    ensures Sound(s.(footprint := s.footprint - MappedLength(w.mapped[p])),
            w.(mapped := w.mapped - {p}, live := w.live - {p}))
  {
    hide Tiled, Tagged, Booked, VictimOk, TopOk, SegmentsOk, MappingsOk, RegionsClear;
    MappedNoTile(s, w, p);
    MappedRemove(w.mapped, p);
    FewerMaps(s, w, p);
  }

  lemma FewerMaps(s: Store, w: World, p: int)
    requires MappingsOk(s.head, s.foot, s.leastAddr, w.mapped) && RegionsClear(s.segs, w.mapped)
    ensures MappingsOk(s.head, s.foot, s.leastAddr, w.mapped - {p}) && RegionsClear(s.segs, w.mapped - {p})
  {
  }

  /** Moving a mapped chunk up within its region, as `internal_memalign` does, keeps every invariant of the heap. */
  lemma RemapSound(s: Store, w: World, p: int, lead: nat, s': Store, w': World)
    requires p in w.mapped && lead % 64 == 0 && lead > 0 && lead + MIN_LARGE <= w.mapped[p].size
    requires var m := w.mapped[p];
             && s' == s.(head := s.head[p + lead := Head(m.size - lead, false, false)],
                foot := s.foot[p + lead := m.offset + lead])
             && w' == w.(mapped := Remapped(w.mapped, p, lead),
                         live := (w.live - {p})[p + lead := m.size - lead])
    requires Sound(s, w)
    ensures Sound(s', w') && p + lead !in w.live
  {
    hide Tiled, Tagged, Booked, VictimOk, TopOk, SegmentsOk, MappingsOk, RegionsClear;
    MappedNoTile(s, w, p);
    MappedRemove(w.mapped, p);
    RemapMaps(s, w, p, lead);
    if p + lead in w.tiles {
      TileNotInside(s, w, p + lead, p);
    }
    MappedAdd(w.mapped - {p}, p + lead, w'.mapped[p + lead]);
    TaggedFrame(w.tiles, s.head, s.foot, s'.head, s'.foot);
  }

  /** The mappings after moving `p` up by `lead`. */
  function Remapped(mapped: Mappings, p: int, lead: nat): Mappings
    requires p in mapped && lead <= mapped[p].size
  {
    (mapped - {p})[p + lead := Mapping(mapped[p].size - lead, mapped[p].offset + lead)]
  }

  lemma RemapMaps(s: Store, w: World, p: int, lead: nat)
    requires p in w.mapped && lead % 64 == 0 && lead > 0 && lead + MIN_LARGE <= w.mapped[p].size
    requires MappingsOk(s.head, s.foot, s.leastAddr, w.mapped) && RegionsClear(s.segs, w.mapped)
    ensures p + lead !in w.mapped && RegionsClear(s.segs, Remapped(w.mapped, p, lead))
    ensures var m := w.mapped[p];
            MappingsOk(s.head[p + lead := Head(m.size - lead, false, false)], s.foot[p + lead := m.offset + lead],
                s.leastAddr,
                       Remapped(w.mapped, p, lead))
  {
    var m, mapped' := w.mapped[p], Remapped(w.mapped, p, lead);
    var head', foot' := s.head[p + lead := Head(m.size - lead, false, false)], s.foot[p + lead := m.offset + lead];
    hide RegionOf, MappingsOk, RegionsClear, ClearOf, MappingOk;
    MapAt(s, w, p);
    RemapOwn(s, p, m, lead);
    if p + lead in w.mapped {
      RemapOther(s, w, p, lead, p + lead);
    }
    forall q | q in mapped'
      ensures MappingOk(head', foot', s.leastAddr, q, mapped'[q])
    {
      if q != p + lead {
        RemapOther(s, w, p, lead, q);
      }
    }
    forall q, r | q in mapped' && r in mapped' && q != r && mapped'[q].offset <= q && mapped'[r].offset <= r
      ensures ClearOf(RegionOf(q, mapped'[q]), RegionOf(r, mapped'[r]))
    {
      RemapPair(s, w, p, lead, q, r);
    }
    MappingsAre(head', foot', s.leastAddr, mapped');
    forall g, q | g in s.segs && q in mapped' && mapped'[q].offset <= q
      ensures ClearOf(g, RegionOf(q, mapped'[q]))
    {
      MapBesideSegment(s, w, g, if q == p + lead then p else q);
    }
    RegionsAre(s.segs, mapped');
  }

  lemma RemapPair(s: Store, w: World, p: int, lead: nat, q: int, r: int)
    requires p in w.mapped && lead % 64 == 0 && lead > 0 && lead + MIN_LARGE <= w.mapped[p].size
    requires MappingsOk(s.head, s.foot, s.leastAddr, w.mapped) && p + lead !in w.mapped
    requires var mapped' := Remapped(w.mapped, p, lead);
             q in mapped' && r in mapped' && q != r && mapped'[q].offset <= q && mapped'[r].offset <= r
    ensures var mapped' := Remapped(w.mapped, p, lead); ClearOf(RegionOf(q, mapped'[q]), RegionOf(r, mapped'[r]))
  {
    hide RegionOf, MappingsOk, ClearOf, MappingOk;
    MapAt(s, w, p);
    RemapOwn(s, p, w.mapped[p], lead);
    if q == p + lead {
      RemapOther(s, w, p, lead, r);
    } else if r == p + lead {
      RemapOther(s, w, p, lead, q);
    } else {
      MapPair(s, w, q, r);
    }
  }

  lemma MapAt(s: Store, w: World, p: int)
    requires MappingsOk(s.head, s.foot, s.leastAddr, w.mapped) && p in w.mapped
    ensures MappingOk(s.head, s.foot, s.leastAddr, p, w.mapped[p])
  {
  }

  lemma MapPair(s: Store, w: World, p: int, q: int)
    requires MappingsOk(s.head, s.foot, s.leastAddr, w.mapped) && p in w.mapped && q in w.mapped && p != q
    requires w.mapped[p].offset <= p && w.mapped[q].offset <= q
    ensures ClearOf(RegionOf(p, w.mapped[p]), RegionOf(q, w.mapped[q]))
  {
  }

  lemma MapBesideSegment(s: Store, w: World, g: Segment, p: int)
    requires RegionsClear(s.segs, w.mapped) && g in s.segs && p in w.mapped && w.mapped[p].offset <= p
    ensures ClearOf(g, RegionOf(p, w.mapped[p]))
  {
  }

  lemma MappingsAre(head: Heads, foot: Feet, leastAddr: nat, mapped: Mappings)
    requires forall p | p in mapped :: MappingOk(head, foot, leastAddr, p, mapped[p])
    requires forall p, q | p in mapped && q in mapped && p != q && mapped[p].offset <= p && mapped[q].offset <= q ::
               ClearOf(RegionOf(p, mapped[p]), RegionOf(q, mapped[q]))
    ensures MappingsOk(head, foot, leastAddr, mapped)
  {
  }

  lemma RegionsAre(segs: seq<Segment>, mapped: Mappings)
    requires forall g, p | g in segs && p in mapped && mapped[p].offset <= p :: ClearOf(g, RegionOf(p, mapped[p]))
    ensures RegionsClear(segs, mapped)
  {
  }

  lemma RemapOwn(s: Store, p: int, m: Mapping, lead: nat)
    requires lead % 64 == 0 && lead > 0 && lead + MIN_LARGE <= m.size && MappingOk(s.head, s.foot, s.leastAddr, p, m)
    ensures var m' := Mapping(m.size - lead, m.offset + lead);
            && MappingOk(s.head[p + lead := Head(m.size - lead, false, false)], s.foot[p + lead := m.offset + lead],
               s.leastAddr, p + lead, m')
            && m'.offset <= p + lead && m.offset <= p && RegionOf(p + lead, m') == RegionOf(p, m)
  {
    GridShift(p, m.size, lead);
  }

  lemma RemapOther(s: Store, w: World, p: int, lead: nat, q: int)
    requires p in w.mapped && q in w.mapped && q != p && lead > 0 && lead + MIN_LARGE <= w.mapped[p].size
    requires MappingsOk(s.head, s.foot, s.leastAddr, w.mapped)
    ensures MappingOk(s.head[p + lead := Head(w.mapped[p].size - lead, false, false)],
            s.foot[p + lead := w.mapped[p].offset + lead],
                      s.leastAddr, q, w.mapped[q])
    ensures q != p + lead && w.mapped[q].offset <= q && w.mapped[p].offset <= p
    ensures ClearOf(RegionOf(p, w.mapped[p]), RegionOf(q, w.mapped[q]))
            && ClearOf(RegionOf(q, w.mapped[q]), RegionOf(p, w.mapped[p]))
  {
    assert MappingOk(s.head, s.foot, s.leastAddr, p, w.mapped[p]);
    assert MappingOk(s.head, s.foot, s.leastAddr, q, w.mapped[q]);
    assert ClearOf(RegionOf(p, w.mapped[p]), RegionOf(q, w.mapped[q]));
    hide MappingsOk;
  }
}
