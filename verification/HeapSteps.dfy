/** Every change of the heap lays one or two chunks in place of old ones; this keeps the whole state sound. */
module HeapSteps {
  import opened TreeLinks
  import opened ChunkHeads
  import opened Tiling
  import opened Tags
  import opened HeapState

  /** `a` has kind `k` in the layout. */
  predicate Lays(l: Layout, a: int, k: Kind) {
    || (a == l.q && k == l.first)
    || (IsTwo(l) && a == l.q + l.size && k == l.second)
  }

  function PartSize(l: Layout, a: int): int {
    if a == l.q then l.size else l.e - a
  }

  predicate Among(l: Layout, a: int) {
    l.q <= a < l.e
  }

  lemma LayPart(c: Tiles, l: Layout, a: int)
    requires CanLay(c, l)
    ensures !Among(l, a) ==> (a in Lay(c, l) <==> a in c) && (a in c ==> Lay(c, l)[a] == c[a])
    ensures Among(l, a) && a in Lay(c, l) ==> Lay(c, l)[a].size == PartSize(l, a) && Lays(l, a, Lay(c, l)[a].kind)
    ensures Among(l, a) && a in Lay(c, l) ==> Lay(c, l)[a].seg == c[l.q].seg
    ensures forall k :: Lays(l, a, k) ==> Among(l, a) && a in Lay(c, l) && Lay(c, l)[a].kind == k
  {
    LayIs(c, l, a);
  }

  /** The binned chunks after the layout: its free chunks but the victim, and all others as before. */
  ghost predicate Rebooked(l: Layout, binned: Binned, dv: int, binned': Binned, dv': int) {
    && (forall a | !Among(l, a) :: a in binned' <==> a in binned)
    && (forall a | a in binned && !Among(l, a) :: binned'[a] == binned[a])
    && (forall a | a in binned' && Among(l, a) :: Lays(l, a, Free) && a != dv' && binned'[a] == PartSize(l, a))
    && (Lays(l, l.q, Free) && l.q != dv' ==> l.q in binned')
    && (Lays(l, l.q + l.size, Free) && l.q + l.size != dv' ==> l.q + l.size in binned')
    && (Among(l, dv') || dv' == dv || (dv' == 0 && Among(l, dv)))
    && (dv' == dv || dv == 0 || Among(l, dv))
  }

  lemma LayBooked(c: Tiles, l: Layout, binned: Binned, dv: int, binned': Binned, dv': int)
    requires CanLay(c, l) && Booked(c, binned, dv) && Rebooked(l, binned, dv, binned', dv')
    requires 0 !in c
    ensures Booked(Lay(c, l), binned', dv')
  {
    assert l.q in c;
    hide Lay, CanLay;
    forall a | a in Lay(c, l) && Lay(c, l)[a].kind.Free? && a != dv'
      ensures a in binned'
    {
      LayPart(c, l, a);
    }
    forall a | a in binned'
      ensures a in Lay(c, l) && Lay(c, l)[a].kind.Free? && a != dv' && Lay(c, l)[a].size == binned'[a]
    {
      LayPart(c, l, a);
    }
  }

  /** The victim after the layout: none, the same as before, or a free chunk of the layout. */
  predicate NewVictim(l: Layout, dv: int, dvsize: nat, dv': int, dvsize': nat) {
    || (dv' == 0 && dvsize' == 0)
    || (dv' == dv && dvsize' == dvsize && !Among(l, dv))
    || (dv' != 0 && dvsize' > 0 && Lays(l, dv', Free) && dvsize' == PartSize(l, dv'))
  }

  lemma LayVictim(c: Tiles, l: Layout, dv: int, dvsize: nat, dv': int, dvsize': nat)
    requires CanLay(c, l) && VictimOk(c, dv, dvsize)
    requires NewVictim(l, dv, dvsize, dv', dvsize')
    ensures VictimOk(Lay(c, l), dv', dvsize')
  {
    assert l.q in c;
    hide Lay, CanLay;
    LayPart(c, l, dv');
  }

  /** The top chunk changes exactly when the layout takes the old one in. */
  predicate NewTop(l: Layout, top: int, topsize: nat, top': int, topsize': nat) {
    if LastKind(l).Top? then Among(l, top) && topsize' > 0 && Lays(l, top', Top) && topsize' == PartSize(l, top')
    else !Among(l, top) && top' == top && topsize' == topsize
  }

  lemma LayTop(c: Tiles, l: Layout, top: int, topsize: nat, top': int, topsize': nat)
    requires CanLay(c, l) && TopOk(c, top, topsize)
    requires NewTop(l, top, topsize, top', topsize')
    ensures TopOk(Lay(c, l), top', topsize')
  {
    assert l.q in c && l.q > 0;
    assert IsTwo(l) ==> !l.first.Top?;
    hide Lay, CanLay;
    LayPart(c, l, top');
    LayPart(c, l, l.q);
    forall a | a in Lay(c, l) && Lay(c, l)[a].kind.Top?
      ensures a == top'
    {
      LayPart(c, l, a);
    }
  }

  lemma LaySegments(c: Tiles, l: Layout, segs: seq<Segment>, leastAddr: nat)
    requires CanLay(c, l) && Tiled(c) && SegmentsOk(c, segs, leastAddr)
    ensures SegmentsOk(Lay(c, l), segs, leastAddr)
  {
    assert l.q in c;
    forall a | a in Lay(c, l)
      ensures Lay(c, l)[a].seg in segs
    {
      LayPart(c, l, a);
    }
    forall s | s in segs
      ensures Start(s.base) in Lay(c, l) && Lay(c, l)[Start(s.base)].seg == s && !Lay(c, l)[Start(s.base)].kind.Foot?
    {
      StartStays(c, l, segs, leastAddr, s);
    }
  }

  lemma StartStays(c: Tiles, l: Layout, segs: seq<Segment>, leastAddr: nat, s: Segment)
    requires CanLay(c, l) && Tiled(c) && SegmentsOk(c, segs, leastAddr) && s in segs
    ensures Start(s.base) in Lay(c, l) && Lay(c, l)[Start(s.base)].seg == s && !Lay(c, l)[Start(s.base)].kind.Foot?
  {
    var a := Start(s.base);
    assert a in c && c[a].seg == s && c[l.q].seg in segs;
    if Among(l, a) {
      TileAt(c, a);
      TileAt(c, l.q);
      TileAt(c, l.e);
      SameSegment(segs, s, c[l.q].seg, a);
      hide Tiled, SegmentsOk, Start;
      StartLeast(s.base, l.q);
    }
    hide Lay;
    LayPart(c, l, a);
    LayIs(c, l, l.q);
  }

  /** No chunk address of a region comes before its start. */
  lemma StartLeast(base: nat, q: int)
    requires base <= q && OnGrid(q)
    ensures Start(base) <= q
  {
  }

  lemma SameSegment(segs: seq<Segment>, s: Segment, s': Segment, a: int)
    requires forall i, j | 0 <= i < j < |segs| :: ClearOf(segs[i], segs[j])
    requires s in segs && s' in segs
    requires s.base <= a < s.base + s.size && s'.base <= a < s'.base + s'.size
    ensures s == s'
  {
    var i :| 0 <= i < |segs| && segs[i] == s;
    var j :| 0 <= j < |segs| && segs[j] == s';
    assert i == j;
  }

  lemma LayMappings(c: Tiles, l: Layout, head: Heads, foot: Feet, head': Heads, foot': Feet, segs: seq<Segment>,
                    leastAddr: nat, mapped: Mappings)
    requires CanLay(c, l) && Tiled(c) && SegmentsOk(c, segs, leastAddr) && Outside(head, foot, l, head', foot')
    requires MappingsOk(head, foot, leastAddr, mapped) && RegionsClear(segs, mapped)
    ensures MappingsOk(head', foot', leastAddr, mapped)
  {
    TileAt(c, l.q);
    TileAt(c, l.e);
    var s := c[l.q].seg;
    forall p | p in mapped
      ensures MappingOk(head', foot', leastAddr, p, mapped[p])
    {
      assert MappingOk(head, foot, leastAddr, p, mapped[p]);
      assert ClearOf(s, RegionOf(p, mapped[p]));
    }
  }

  /** The chunks that clients hold after the layout. */
  ghost predicate Rehanded(l: Layout, live: Blocks, live': Blocks) {
    && (forall a | !Among(l, a) :: a in live' <==> a in live)
    && (forall a | a in live && !Among(l, a) :: live'[a] == live[a])
    && (forall a | a in live' && Among(l, a) :: Lays(l, a, Used) && live'[a] == PartSize(l, a))
    && (Lays(l, l.q, Used) ==> l.q in live')
    && (Lays(l, l.q + l.size, Used) ==> l.q + l.size in live')
  }

  lemma LayLive(c: Tiles, l: Layout, mapped: Mappings, live: Blocks, live': Blocks)
    requires CanLay(c, l) && LiveOk(c, mapped, live) && Rehanded(l, live, live')
    requires forall p | p in mapped :: !Among(l, p)
    ensures LiveOk(Lay(c, l), mapped, live')
  {
    assert l.q in c;
    hide Lay, CanLay;
    forall a | a in live'
      ensures LiveKind(Lay(c, l), mapped, a)
    {
      LayPart(c, l, a);
    }
    forall a | a in Lay(c, l) && Lay(c, l)[a].kind.Used?
      ensures a in live' && live'[a] == Lay(c, l)[a].size
    {
      LayPart(c, l, a);
    }
  }

  lemma MappedOutside(c: Tiles, l: Layout, head: Heads, foot: Feet, segs: seq<Segment>, leastAddr: nat,
                      mapped: Mappings, p: int)
    requires CanLay(c, l) && Tiled(c) && SegmentsOk(c, segs, leastAddr)
    requires MappingsOk(head, foot, leastAddr, mapped) && RegionsClear(segs, mapped) && p in mapped
    ensures !Among(l, p)
  {
    TileAt(c, l.q);
    TileAt(c, l.e);
    assert MappingOk(head, foot, leastAddr, p, mapped[p]);
    assert ClearOf(c[l.q].seg, RegionOf(p, mapped[p]));
  }

  lemma NotNull(c: Tiles)
    requires Tiled(c)
    ensures 0 !in c
  {
    if 0 in c {
      TileAt(c, 0);
    }
  }

  /** One change of the heap by the layout `l`. */
  ghost predicate Relays(s: Store, w: World, l: Layout, s': Store, w': World) {
    && Retags(w.tiles, s.head, s.foot, l, s'.head, s'.foot)
    && Rebooked(l, w.binned, s.dv, w'.binned, s'.dv)
    && NewVictim(l, s.dv, s.dvsize, s'.dv, s'.dvsize)
    && NewTop(l, s.top, s.topsize, s'.top, s'.topsize)
    && Rehanded(l, w.live, w'.live)
    && s' == s.(head := s'.head, foot := s'.foot, dv := s'.dv, dvsize := s'.dvsize, top := s'.top,
       topsize := s'.topsize)
    && w' == w.(tiles := Lay(w.tiles, l), binned := w'.binned, live := w'.live)
  }

  lemma RelaidTiles(s: Store, w: World, l: Layout, s': Store, w': World)
    requires Sound(s, w) && Relays(s, w, l, s', w')
    ensures Tiled(w'.tiles) && Tagged(w'.tiles, s'.head, s'.foot)
    ensures TopOk(w'.tiles, s'.top, s'.topsize) && SegmentsOk(w'.tiles, s.segs, s.leastAddr)
  {
    hide Tiled, Tagged, Booked, VictimOk, TopOk, SegmentsOk, MappingsOk, RegionsClear, LiveOk, Rebooked, NewVictim,
         NewTop, Rehanded, Lay, CanLay, Rewritten, Outside;
    LayTiled(w.tiles, l);
    Retagged(w.tiles, s.head, s.foot, l, s'.head, s'.foot);
    LayTop(w.tiles, l, s.top, s.topsize, s'.top, s'.topsize);
    LaySegments(w.tiles, l, s.segs, s.leastAddr);
  }

  lemma RelaidChunks(s: Store, w: World, l: Layout, s': Store, w': World)
    requires Sound(s, w) && Relays(s, w, l, s', w')
    ensures Booked(w'.tiles, w'.binned, s'.dv) && VictimOk(w'.tiles, s'.dv, s'.dvsize)
    ensures MappingsOk(s'.head, s'.foot, s.leastAddr, w.mapped) && LiveOk(w'.tiles, w.mapped, w'.live)
  {
    hide Tiled, Tagged, Booked, VictimOk, TopOk, SegmentsOk, MappingsOk, RegionsClear, LiveOk, Rebooked, NewVictim,
         NewTop, Rehanded, Lay, CanLay, Rewritten, Outside, TileOk;
    NotNull(w.tiles);
    forall p | p in w.mapped
      ensures !Among(l, p)
    {
      MappedOutside(w.tiles, l, s.head, s.foot, s.segs, s.leastAddr, w.mapped, p);
    }
    LayBooked(w.tiles, l, w.binned, s.dv, w'.binned, s'.dv);
    LayVictim(w.tiles, l, s.dv, s.dvsize, s'.dv, s'.dvsize);
    LayMappings(w.tiles, l, s.head, s.foot, s'.head, s'.foot, s.segs, s.leastAddr, w.mapped);
    LayLive(w.tiles, l, w.mapped, w.live, w'.live);
  }

  /** Such a change keeps every invariant of the heap. */
  lemma Relaid(s: Store, w: World, l: Layout, s': Store, w': World)
    requires Sound(s, w) && Relays(s, w, l, s', w')
    ensures Sound(s', w')
  {
    hide Tiled, Tagged, Booked, VictimOk, TopOk, SegmentsOk, MappingsOk, RegionsClear, LiveOk, Rebooked, NewVictim,
         NewTop, Rehanded, Lay, Retags;
    RelaidTiles(s, w, l, s', w');
    RelaidChunks(s, w, l, s', w');
  }
}
