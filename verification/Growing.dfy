/** Memory from the system: a new segment with its top, and what becomes of the segment that held the old top. */
module Growing {
  import opened TreeLinks
  import opened ChunkHeads
  import opened TreeSearch
  import opened Tiling
  import opened Tags
  import opened HeapState
  import opened HeapSteps
  import opened Coalescing
  import opened Taking

  const RECORD: nat := 64

  /** Where `add_segment` puts the segment record: as high as alignment, record and fenceposts allow. */
  function RecordAt(end: int): int
    requires end >= 160
  {
    Start(end - 159)
  }

  /** The record never touches the front of the old top, and at least two fenceposts fit behind it. */
  lemma RecordFits(top: int, topsize: nat, end: int)
    requires OnGrid(top) && topsize > 0 && topsize % 8 == 0 && top + topsize + TOP_FOOT == end
    ensures end >= 160
    ensures var sp := RecordAt(end);
            && OnGrid(sp) && (sp - top) % 64 == 0 && top + 64 <= sp
            && sp + RECORD + 32 <= end && end % 8 == 0 && (sp - top) % 8 == 0 && (sp + RECORD - top) % 64 == 0
               && OnGrid(sp + RECORD)
  {
    hide Start;
    RecordGrid(top, end);
    WordOf(top, topsize);
    GridSum(RecordAt(end) - top, 64);
    GridWord(RecordAt(end) - top);
    NextGrid(RecordAt(end));
  }

  lemma NextGrid(a: int)
    requires a % 64 == 48
    ensures (a + 64) % 64 == 48
  {
  }

  lemma WordOf(top: int, topsize: nat)
    requires top % 64 == 48 && topsize % 8 == 0
    ensures (top + topsize + 176) % 8 == 0
  {
  }

  lemma RecordGrid(top: int, end: int)
    requires OnGrid(top) && top + TOP_FOOT < end
    ensures end >= 160
    ensures var sp := RecordAt(end);
            && sp % 64 == 48 && end - 159 <= sp <= end - 96 && (sp - top) % 64 == 0 && top + 64 <= sp
  {
    StartIs(end - 159);
    GridDifference(RecordAt(end), top);
  }

  lemma StartIs(base: nat)
    ensures Start(base) % 64 == 48 && base <= Start(base) <= base + 63
  {
  }

  lemma GridDifference(x: int, y: int)
    requires x % 64 == 48 && y % 64 == 48 && x > y
    ensures (x - y) % 64 == 0 && y + 64 <= x
  {
  }

  // ---------- retiring the old top ----------

  /** The old top and its foot area become one record area and the fenceposts behind `t`. */
  function Retired(c: Tiles, top: int, foot: int, t: int): Tiles
    requires top in c && top <= t <= c[top].seg.base + c[top].seg.size
  {
    var seg := c[top].seg;
    (c - {foot})[top := Tile(t - top, Record, seg)][t := Tile(seg.base + seg.size - t, Fence, seg)]
  }

  /** The old top, and where its fenceposts will start. */
  ghost predicate CanRetire(c: Tiles, top: int, t: int) {
    && top in c && c[top].kind.Top? && Within(c[top].seg, top, c[top].size)
    && top + c[top].size in c && c[top + c[top].size].kind.Foot?
    && top + c[top].size + TOP_FOOT == c[top].seg.base + c[top].seg.size
    && OnGrid(top) && OnGrid(t) && top < t < c[top].seg.base + c[top].seg.size && (t - top) % 64 == 0
  }

  /** Between the old top and the end of its segment there is only the foot area. */
  lemma NothingBehind(c: Tiles, top: int, a: int)
    requires Tiled(c) && a in c && top in c && top < a && c[top].kind.Top? && top + c[top].size in c
    requires c[top + c[top].size].kind.Foot? && top + c[top].size + TOP_FOOT == c[top].seg.base + c[top].seg.size
    ensures a == top + c[top].size || a >= c[top].seg.base + c[top].seg.size
  {
    hide Tiled;
    TilesApart(c, top, a);
    var foot := top + c[top].size;
    TileAt(c, foot);
    if a > foot {
      TilesApart(c, foot, a);
    }
  }

  lemma RetiredTiled(c: Tiles, top: int, t: int)
    requires Tiled(c) && CanRetire(c, top, t)
    ensures Tiled(Retired(c, top, top + c[top].size, t))
  {
    var c' := Retired(c, top, top + c[top].size, t);
    forall a | a in c'
      ensures TileOk(c', a)
    {
      RetiredTile(c, top, t, a);
    }
    forall a, b | a in c' && b in c'
      ensures Apart(c', a, b)
    {
      RetiredApart(c, top, t, a, b);
    }
  }

  lemma RetiredTile(c: Tiles, top: int, t: int, a: int)
    requires Tiled(c) && CanRetire(c, top, t) && a in Retired(c, top, top + c[top].size, t)
    ensures TileOk(Retired(c, top, top + c[top].size, t), a)
  {
    hide Tiled;
    if a != top && a != t {
      TileAt(c, a);
      NextOfRetired(c, top, t, a);
    }
  }

  lemma NextOfRetired(c: Tiles, top: int, t: int, a: int)
    requires Tiled(c) && CanRetire(c, top, t) && a in c && a != top && a != top + c[top].size && a != t && TileOk(c, a)
    ensures var foot, next := top + c[top].size, a + c[a].size;
            !Last(c[a].kind) ==> next != foot && (next != top ==> next != t)
  {
    hide Tiled;
    if a > top {
      NothingBehind(c, top, a);
    } else {
      TilesApart(c, a, top);
    }
  }

  lemma RetiredApart(c: Tiles, top: int, t: int, a: int, b: int)
    requires Tiled(c) && CanRetire(c, top, t)
    requires a in Retired(c, top, top + c[top].size, t) && b in Retired(c, top, top + c[top].size, t)
    ensures Apart(Retired(c, top, top + c[top].size, t), a, b)
  {
    hide Tiled;
    if a < b {
      if a in c && b in c && a != top && a != t && b != t {
        TilesApart(c, a, b);
      }
      if a < top {
        TilesApart(c, a, top);
      }
      if b > top && b != t {
        NothingBehind(c, top, b);
      }
      if a > top && a != t {
        NothingBehind(c, top, a);
      }
    }
  }

  /** Heads and feet of the tiles that stay are the same. */
  ghost predicate Keeps(c: Tiles, top: int, foot0: int, head: Heads, foot: Feet, head': Heads, foot': Feet) {
    && (forall a | a in c && a != top && a != foot0 && a in head :: a in head' && head'[a] == head[a])
    && (forall a | a in c && a != foot0 && a in foot :: a in foot' && foot'[a] == foot[a])
  }

  lemma KeepsAt(c: Tiles, top: int, foot0: int, head: Heads, foot: Feet, head': Heads, foot': Feet, a: int)
    requires Keeps(c, top, foot0, head, foot, head', foot') && a in c && a != foot0
    ensures a != top && a in head ==> a in head' && head'[a] == head[a]
    ensures a in foot ==> a in foot' && foot'[a] == foot[a]
  {
  }

  lemma RetiredTagged(c: Tiles, head: Heads, foot: Feet, top: int, t: int, head': Heads, foot': Feet)
    requires Tiled(c) && Tagged(c, head, foot) && CanRetire(c, top, t)
    requires Keeps(c, top, top + c[top].size, head, foot, head', foot')
    requires top in head' && head'[top] == Head(t - top, true, true) && t in head'
             && head'[t] == Head(FENCE_HEAD, true, true)
    ensures Tagged(Retired(c, top, top + c[top].size, t), head', foot')
  {
    var c' := Retired(c, top, top + c[top].size, t);
    forall a | a in c'
      ensures TagOk(c', head', foot', a) && BackOk(c', head', foot', a)
    {
      RetiredTag(c, head, foot, top, t, head', foot', a);
    }
  }

  lemma RetiredTag(c: Tiles, head: Heads, foot: Feet, top: int, t: int, head': Heads, foot': Feet, a: int)
    requires Tiled(c) && Tagged(c, head, foot) && CanRetire(c, top, t) && a in Retired(c, top, top + c[top].size, t)
    requires Keeps(c, top, top + c[top].size, head, foot, head', foot')
    requires top in head' && head'[top] == Head(t - top, true, true) && t in head'
             && head'[t] == Head(FENCE_HEAD, true, true)
    ensures var c' := Retired(c, top, top + c[top].size, t); TagOk(c', head', foot', a) && BackOk(c', head', foot', a)
  {
    hide Tiled, Tagged, Keeps;
    if a != top && a != t {
      TileAt(c, a);
      NextOfRetired(c, top, t, a);
      TagAt(c, head, foot, a);
      TagAt(c, head, foot, top);
      KeepsAt(c, top, top + c[top].size, head, foot, head', foot', a);
      if !Last(c[a].kind) {
        KeepsAt(c, top, top + c[top].size, head, foot, head', foot', a + c[a].size);
      }
      if a in foot && a - foot[a] in c && c[a - foot[a]].kind.Free? && foot[a] == c[a - foot[a]].size {
        NotReplaced(c, top, t, a - foot[a]);
      }
    }
  }

  lemma NotReplaced(c: Tiles, top: int, t: int, a: int)
    requires Tiled(c) && CanRetire(c, top, t) && a in c && c[a].kind.Free?
    ensures a != top && a != top + c[top].size && a != t
  {
    hide Tiled;
    if a > top {
      NothingBehind(c, top, a);
    }
  }

  // ---------- a new segment ----------

  /** A new region with the top and its foot area. */
  function Extended(c: Tiles, p: int, psize: nat, seg: Segment): Tiles {
    c[p := Tile(psize, Top, seg)][p + psize := Tile(TOP_FOOT, Foot, seg)]
  }

  ghost predicate CanExtend(c: Tiles, p: int, psize: nat, seg: Segment) {
    && OnGrid(p) && psize > 0 && psize % 8 == 0 && seg.base <= p && p + psize + TOP_FOOT == seg.base + seg.size
    && forall a | a in c :: ClearOf(c[a].seg, seg)
  }

  /** Old tiles lie before or behind the new region. */
  lemma OldElsewhere(c: Tiles, p: int, psize: nat, seg: Segment, a: int)
    requires Tiled(c) && CanExtend(c, p, psize, seg) && a in c
    ensures a + c[a].size <= seg.base || seg.base + seg.size <= a
    ensures c[a].size > 0
  {
    hide Tiled;
    TileAt(c, a);
    assert ClearOf(c[a].seg, seg);
  }

  lemma ExtendedTiled(c: Tiles, p: int, psize: nat, seg: Segment)
    requires Tiled(c) && CanExtend(c, p, psize, seg)
    ensures Tiled(Extended(c, p, psize, seg))
  {
    hide Tiled;
    var c' := Extended(c, p, psize, seg);
    forall a | a in c'
      ensures TileOk(c', a)
    {
      ExtendedTile(c, p, psize, seg, a);
    }
    forall a, b | a in c' && b in c'
      ensures Apart(c', a, b)
    {
      ExtendedApart(c, p, psize, seg, a, b);
    }
    TiledIs(c');
  }

  lemma TiledIs(c: Tiles)
    requires (forall a | a in c :: TileOk(c, a)) && forall a, b | a in c && b in c :: Apart(c, a, b)
    ensures Tiled(c)
  {
  }

  lemma ExtendedTile(c: Tiles, p: int, psize: nat, seg: Segment, a: int)
    requires Tiled(c) && CanExtend(c, p, psize, seg) && a in Extended(c, p, psize, seg)
    ensures TileOk(Extended(c, p, psize, seg), a)
  {
    hide Tiled;
    if a != p && a != p + psize {
      TileAt(c, a);
      if !Last(c[a].kind) {
        OldElsewhere(c, p, psize, seg, a + c[a].size);
      }
    }
  }

  lemma ExtendedApart(c: Tiles, p: int, psize: nat, seg: Segment, a: int, b: int)
    requires Tiled(c) && CanExtend(c, p, psize, seg) && a in Extended(c, p, psize, seg)
             && b in Extended(c, p, psize, seg)
    ensures Apart(Extended(c, p, psize, seg), a, b)
  {
    hide Tiled;
    if a < b {
      if a in c && a != p && a != p + psize {
        OldElsewhere(c, p, psize, seg, a);
      }
      if b in c && b != p && b != p + psize {
        OldElsewhere(c, p, psize, seg, b);
      }
      if a in c && b in c {
        TilesApart(c, a, b);
      }
    }
  }

  lemma ExtendedTagged(c: Tiles, head: Heads, foot: Feet, p: int, psize: nat, seg: Segment)
    requires Tiled(c) && Tagged(c, head, foot) && CanExtend(c, p, psize, seg)
    requires p in head && head[p] == Head(psize, false, true)
    requires p + psize in head && head[p + psize] == Head(TOP_FOOT, false, false)
    ensures Tagged(Extended(c, p, psize, seg), head, foot)
  {
    var c' := Extended(c, p, psize, seg);
    hide Tiled;
    forall a: int | a in c'
      ensures TagOk(c', head, foot, a) && BackOk(c', head, foot, a)
    {
      if a in c {
        TagAt(c, head, foot, a);
        OldElsewhere(c, p, psize, seg, a);
        if a in foot {
          var prev: int := (a as int) - foot[a];
          if prev in c {
            OldElsewhere(c, p, psize, seg, prev);
          }
        }
      }
    }
  }

  // ---------- both together ----------

  /** A region that the system may grant: whole words, inside the address space, clear of everything in use. */
  ghost predicate Grantable(s: Store, w: World, seg: Segment) {
    && RegionOk(seg) && seg.size % 8 == 0
    && (forall g | g in s.segs :: ClearOf(g, seg))
    && (forall p | p in w.mapped && w.mapped[p].offset <= p :: ClearOf(seg, RegionOf(p, w.mapped[p])))
  }

  /** Size of the first top chunk of a region. */
  function TopSize(seg: Segment): int {
    seg.base + seg.size - TOP_FOOT - Start(seg.base)
  }

  /** Where the record of the old segment goes. */
  ghost predicate RecordOk(c: Tiles, top: int, sp: int) {
    CanRetire(c, top, sp + RECORD) && OnGrid(sp) && top + 64 <= sp && (sp - top) % 64 == 0
  }

  /** Tags that the code writes for the new segment and the remains of the old one. */
  ghost predicate GrowTags(s: Store, w: World, sp: int, seg: Segment, head': Heads, foot': Feet)
    requires s.top in w.tiles
  {
    var top, t := s.top, sp + RECORD;
    var p, f := Start(seg.base), Start(seg.base) + TopSize(seg);
    && TopSize(seg) > 0
    && Keeps(w.tiles, top, top + w.tiles[top].size, s.head, s.foot, head', foot')
    && top in head' && head'[top] == Head(if sp >= top then sp - top else 0, false, true)
    && sp in head' && head'[sp] == Head(RECORD, true, false) && sp in foot' && foot'[sp] == sp - top
    && t in head' && head'[t] == Head(FENCE_HEAD, true, true)
    && p in head' && head'[p] == Head(TopSize(seg), false, true)
    && f in head' && head'[f] == Head(TOP_FOOT, false, false)
  }

  lemma RelaidOld(s: Store, w: World, sp: int, seg: Segment, head': Heads, foot': Feet)
    requires RecordOk(w.tiles, s.top, sp) && GrowTags(s, w, sp, seg, head', foot')
    requires Tiled(w.tiles) && Tagged(w.tiles, s.head, s.foot)
    ensures var c1, t := Retired(w.tiles, s.top, s.top + w.tiles[s.top].size, sp + RECORD), sp + RECORD;
            var l := Layout(s.top, t, sp - s.top, Free, Record);
            && CanLay(c1, l) && Tiled(Lay(c1, l)) && Tagged(Lay(c1, l), head', foot')
  {
    hide Tiled, Tagged, Lay;
    var c, top, t := w.tiles, s.top, sp + RECORD;
    var c1 := Retired(c, top, top + c[top].size, t);
    var l := Layout(top, t, sp - top, Free, Record);
    var head1 := head'[top := Head(t - top, true, true)];
    RetiredTiled(c, top, t);
    KeepsElse(c, top, top + c[top].size, s.head, s.foot, head', foot', head1);
    hide Keeps;
    RetiredTagged(c, s.head, s.foot, top, t, head1, foot');
    assert CanLay(c1, l);
    assert Retags(c1, head1, foot', l, head', foot');
    LayTiled(c1, l);
    Retagged(c1, head1, foot', l, head', foot');
  }

  lemma KeepsElse(c: Tiles, top: int, foot0: int, head: Heads, foot: Feet, head': Heads, foot': Feet, head1: Heads)
    requires Keeps(c, top, foot0, head, foot, head', foot') && top in head1 && head1 == head'[top := head1[top]]
    ensures Keeps(c, top, foot0, head, foot, head1, foot')
  {
  }

  /** The old segments after their top has been retired. */
  function Remains(c: Tiles, top: int, sp: int): Tiles
    requires top in c && top <= sp && sp + RECORD <= c[top].seg.base + c[top].seg.size
  {
    var t := sp + RECORD;
    Lay(Retired(c, top, top + c[top].size, t), Layout(top, t, sp - top, Free, Record))
  }

  lemma RemainsAt(c: Tiles, top: int, sp: int, a: int)
    requires Tiled(c) && RecordOk(c, top, sp)
    ensures var c', seg, end := Remains(c, top, sp), c[top].seg, c[top].seg.base + c[top].seg.size;
            && top in c' && c'[top] == Tile(sp - top, Free, seg)
            && sp in c' && c'[sp] == Tile(RECORD, Record, seg)
            && sp + RECORD in c' && c'[sp + RECORD] == Tile(end - sp - RECORD, Fence, seg)
            && (a in c' && a != top && a != sp && a != sp + RECORD ==>
                 a in c && a != top + c[top].size && c'[a] == c[a])
            && (a in c && a != top && a != top + c[top].size ==>
                 a in c' && c'[a] == c[a] && a != sp && a != sp + RECORD)
  {
    hide Tiled, Lay;
    var t := sp + RECORD;
    var c1, l := Retired(c, top, top + c[top].size, t), Layout(top, t, sp - top, Free, Record);
    assert CanLay(c1, l);
    LayIs(c1, l, a);
    LayIs(c1, l, t);
    if a in c && a > top {
      NothingBehind(c, top, a);
    }
  }

  lemma RemainsChunks(s: Store, w: World, sp: int)
    requires RecordOk(w.tiles, s.top, sp) && Sound(s, w)
    ensures var c' := Remains(w.tiles, s.top, sp);
            && s.top !in w.binned && Booked(c', w.binned[s.top := sp - s.top], s.dv) && VictimOk(c', s.dv, s.dvsize)
            && LiveOk(c', w.mapped, w.live) && (forall a | a in c' :: !c'[a].kind.Top?)
  {
    hide Tiled, Tagged, SegmentsOk, MappingsOk, RegionsClear, Counted, Remains;
    var c' := Remains(w.tiles, s.top, sp);
    forall a
      ensures RemainsAs(w.tiles, s.top, sp, a)
    {
      RemainsAt(w.tiles, s.top, sp, a);
    }
    assert s.top > 0;
    hide RecordOk;
    assert RemainsAs(w.tiles, s.top, sp, s.top);
    RemainsBooked(w.tiles, s.top, sp, w.binned, s.dv, s.dvsize);
    RemainsLive(w.tiles, s.top, sp, w.mapped, w.live);
    forall a | a in c'
      ensures !c'[a].kind.Top?
    {
      assert RemainsAs(w.tiles, s.top, sp, a);
    }
  }

  /** `RemainsAt` as a predicate. */
  ghost predicate RemainsAs(c: Tiles, top: int, sp: int, a: int)
    requires top in c && top <= sp && sp + RECORD <= c[top].seg.base + c[top].seg.size
  {
    var c', t := Remains(c, top, sp), sp + RECORD;
    && (a in c' ==> if a == top then c'[a].kind.Free? && c'[a].size == sp - top
                    else if a == sp || a == t then !c'[a].kind.Free? && !c'[a].kind.Used? && !c'[a].kind.Top?
                    else a in c && a != top + c[top].size && c'[a] == c[a])
    && (a in c && a != top && a != top + c[top].size ==> a in c' && c'[a] == c[a] && a != sp && a != t)
    && top in c'
  }

  lemma RemainsBooked(c: Tiles, top: int, sp: int, binned: Binned, dv: int, dvsize: nat)
    requires top in c && top <= sp && sp + RECORD <= c[top].seg.base + c[top].seg.size
    requires forall a :: RemainsAs(c, top, sp, a)
    requires Booked(c, binned, dv) && VictimOk(c, dv, dvsize) && c[top].kind.Top? && top > 0
    requires top + c[top].size in c && c[top + c[top].size].kind.Foot?
    ensures Booked(Remains(c, top, sp), binned[top := sp - top], dv) && VictimOk(Remains(c, top, sp), dv, dvsize)
    ensures top !in binned
  {
    hide Remains;
    assert RemainsAs(c, top, sp, dv);
    var c', b := Remains(c, top, sp), binned[top := sp - top];
    forall a | a in c' && c'[a].kind.Free? && a != dv
      ensures a in b
    {
      assert RemainsAs(c, top, sp, a);
    }
    forall a | a in b
      ensures a in c' && c'[a].kind.Free? && a != dv && c'[a].size == b[a]
    {
      assert RemainsAs(c, top, sp, a);
    }
  }

  lemma RemainsLive(c: Tiles, top: int, sp: int, mapped: Mappings, live: Blocks)
    requires top in c && top <= sp && sp + RECORD <= c[top].seg.base + c[top].seg.size
    requires forall a :: RemainsAs(c, top, sp, a)
    requires LiveOk(c, mapped, live) && c[top].kind.Top? && top + c[top].size in c && c[top + c[top].size].kind.Foot?
    ensures LiveOk(Remains(c, top, sp), mapped, live)
  {
    hide Remains;
    var c' := Remains(c, top, sp);
    forall a | a in live
      ensures LiveKind(c', mapped, a)
    {
      assert RemainsAs(c, top, sp, a);
    }
    forall a | a in c' && c'[a].kind.Used?
      ensures a in live && live[a] == c'[a].size
    {
      assert RemainsAs(c, top, sp, a);
    }
  }

  lemma RemainsSegments(c: Tiles, top: int, sp: int, segs: seq<Segment>, leastAddr: nat)
    requires Tiled(c) && RecordOk(c, top, sp) && SegmentsOk(c, segs, leastAddr)
    ensures SegmentsOk(Remains(c, top, sp), segs, leastAddr)
  {
    hide Tiled, Remains;
    var c' := Remains(c, top, sp);
    forall a | a in c'
      ensures c'[a].seg in segs
    {
      RemainsAt(c, top, sp, a);
    }
    forall g | g in segs
      ensures Start(g.base) in c' && c'[Start(g.base)].seg == g && !c'[Start(g.base)].kind.Foot?
    {
      RemainsAt(c, top, sp, Start(g.base));
      StartNotFoot(c, top, sp, segs, leastAddr, g);
    }
  }

  /** A foot area is never the start of a segment. */
  lemma StartNotFoot(c: Tiles, top: int, sp: int, segs: seq<Segment>, leastAddr: nat, g: Segment)
    requires Tiled(c) && RecordOk(c, top, sp) && SegmentsOk(c, segs, leastAddr) && g in segs
    ensures Start(g.base) != top + c[top].size
  {
    var foot := top + c[top].size;
    if Start(g.base) == foot {
      hide Tiled;
      TileAt(c, top);
      StartLeast(g.base, top);
    }
  }

  // ---------- the state after the system has granted a region ----------

  lemma ExtendedChunks(c: Tiles, p: int, psize: nat, seg: Segment, binned: Binned, dv: int, dvsize: nat,
                       mapped: Mappings, live: Blocks)
    requires Tiled(c) && CanExtend(c, p, psize, seg)
    requires Booked(c, binned, dv) && VictimOk(c, dv, dvsize) && LiveOk(c, mapped, live)
             && forall a | a in c :: !c[a].kind.Top?
    ensures var c' := Extended(c, p, psize, seg);
            && Booked(c', binned, dv) && VictimOk(c', dv, dvsize) && LiveOk(c', mapped, live) && TopOk(c', p, psize)
  {
    hide Tiled, CanExtend;
    ExtendedNew(c, p, psize, seg);
    ExtendedLive(c, p, psize, seg, mapped, live);
    hide LiveOk;
  }

  lemma ExtendedLive(c: Tiles, p: int, psize: nat, seg: Segment, mapped: Mappings, live: Blocks)
    requires p !in c && p + psize !in c && psize > 0 && LiveOk(c, mapped, live)
    ensures LiveOk(Extended(c, p, psize, seg), mapped, live)
  {
  }

  lemma ExtendedNew(c: Tiles, p: int, psize: nat, seg: Segment)
    requires Tiled(c) && CanExtend(c, p, psize, seg)
    ensures p !in c && p + psize !in c && p > 0 && psize > 0
  {
    hide Tiled;
    if p in c {
      OldElsewhere(c, p, psize, seg, p);
    }
    if p + psize in c {
      OldElsewhere(c, p, psize, seg, p + psize);
    }
  }

  lemma ExtendedSegments(c: Tiles, p: int, psize: nat, seg: Segment, segs: seq<Segment>, leastAddr: nat,
                         leastAddr': nat)
    requires Tiled(c) && CanExtend(c, p, psize, seg) && SegmentsOk(c, segs, leastAddr)
    requires p == Start(seg.base) && RegionOk(seg) && leastAddr' <= seg.base && (leastAddr' <= leastAddr || segs == [])
    requires forall g | g in segs :: ClearOf(g, seg)
    ensures SegmentsOk(Extended(c, p, psize, seg), [seg] + segs, leastAddr')
  {
    ExtendedNew(c, p, psize, seg);
    hide Tiled, CanExtend, Start;
    var segs' := [seg] + segs;
    forall i, j | 0 <= i < j < |segs'|
      ensures ClearOf(segs'[i], segs'[j])
    {
      if i == 0 {
        assert segs'[j] in segs;
      } else {
        assert segs'[i] == segs[i - 1] && segs'[j] == segs[j - 1];
      }
    }
  }

  predicate SameHead(head: Heads, head': Heads, a: int) {
    a in head ==> a in head' && head'[a] == head[a]
  }

  /** The heads and feet of mapped chunks are the same, and the two heads behind each. */
  ghost predicate MapsKept(mapped: Mappings, head: Heads, foot: Feet, head': Heads, foot': Feet) {
    forall p | p in mapped && p in head && p in foot ::
      && p in head' && head'[p] == head[p] && p in foot' && foot'[p] == foot[p]
      && SameHead(head, head', p + mapped[p].size) && SameHead(head, head', p + mapped[p].size + 8)
  }

  lemma MappingsKept(head: Heads, foot: Feet, leastAddr: nat, mapped: Mappings, head': Heads, foot': Feet,
                     leastAddr': nat)
    requires MappingsOk(head, foot, leastAddr, mapped) && MapsKept(mapped, head, foot, head', foot')
    requires leastAddr' <= leastAddr || mapped == map[]
    ensures MappingsOk(head', foot', leastAddr', mapped)
  {
    forall p | p in mapped
      ensures MappingOk(head', foot', leastAddr', p, mapped[p])
    {
      assert MappingOk(head, foot, leastAddr, p, mapped[p]);
    }
  }

  lemma RegionFits(seg: Segment)
    requires RegionOk(seg) && seg.size % 8 == 0
    ensures OnGrid(Start(seg.base)) && TopSize(seg) % 8 == 0 && seg.base <= Start(seg.base) <= seg.base + 63
  {
    StartIs(seg.base);
    RegionWords(seg.base, seg.size, Start(seg.base));
  }

  lemma RegionWords(base: nat, size: nat, p: int)
    requires base % 8 == 0 && size % 8 == 0 && p % 64 == 48
    ensures (base + size - 176 - p) % 8 == 0
  {
  }

  /** The fields after a grant. */
  ghost predicate Granted(s: Store, seg: Segment, s': Store) {
    && s' == s.(head := s'.head, foot := s'.foot, top := Start(seg.base), topsize := s'.topsize,
       leastAddr := s'.leastAddr,
                footprint := s.footprint + seg.size, maxFootprint := s'.maxFootprint, segs := [seg] + s.segs)
    && s'.topsize == TopSize(seg)
    && s'.footprint <= s'.maxFootprint
    && 0 < s'.leastAddr <= seg.base && (s'.leastAddr <= s.leastAddr || s.leastAddr == 0)
  }

  /** A grant keeps every invariant, given the remains `c` of the old segments. */
  lemma GrantedSound(s: Store, w: World, c: Tiles, seg: Segment, s': Store, w': World)
    requires Tiled(c) && Tagged(c, s'.head, s'.foot) && Booked(c, w'.binned, s.dv) && VictimOk(c, s.dv, s.dvsize)
    requires LiveOk(c, w.mapped, w.live) && SegmentsOk(c, s.segs, s.leastAddr) && forall a | a in c :: !c[a].kind.Top?
    requires MappingsOk(s.head, s.foot, s.leastAddr, w.mapped) && RegionsClear(s.segs, w.mapped) && Counted(s, w.mapped)
    requires Grantable(s, w, seg) && TopSize(seg) > 0 && MapsKept(w.mapped, s.head, s.foot, s'.head, s'.foot)
    requires Granted(s, seg, s')
             && w' == w.(tiles := Extended(c, Start(seg.base), TopSize(seg), seg), binned := w'.binned)
    requires var p, f := Start(seg.base), Start(seg.base) + TopSize(seg);
             && p in s'.head && s'.head[p] == Head(TopSize(seg), false, true)
             && f in s'.head && s'.head[f] == Head(TOP_FOOT, false, false)
    ensures Sound(s', w')
  {
    hide Tiled, Tagged, Booked, VictimOk, LiveOk, MappingsOk, MapsKept, Start, Extended, CanExtend, TopOk,
         RegionsClear, SegmentsOk;
    RegionFits(seg);
    var p, n := Start(seg.base), TopSize(seg);
    SegmentsClear(s, w, c, seg);
    ExtendedTiled(c, p, n, seg);
    ExtendedTagged(c, s'.head, s'.foot, p, n, seg);
    ExtendedChunks(c, p, n, seg, w'.binned, s.dv, s.dvsize, w.mapped, w.live);
    ExtendedSegments(c, p, n, seg, s.segs, s.leastAddr, s'.leastAddr);
    MappingsKept(s.head, s.foot, s.leastAddr, w.mapped, s'.head, s'.foot, s'.leastAddr);
    assert s'.segs[1..] == s.segs;
  }

  lemma SegmentsClear(s: Store, w: World, c: Tiles, seg: Segment)
    requires SegmentsOk(c, s.segs, s.leastAddr) && Grantable(s, w, seg) && RegionsClear(s.segs, w.mapped)
             && TopSize(seg) > 0
    ensures CanExtend(c, Start(seg.base), TopSize(seg), seg) && RegionsClear([seg] + s.segs, w.mapped)
  {
    RegionFits(seg);
    hide Start;
  }

  /** `align_offset`. */
  function AlignOffset(a: nat): nat {
    if a % 64 == 0 then 0 else (64 - a % 64) % 64
  }

  lemma AlignedStart(base: nat)
    ensures base + AlignOffset(base + 16) == Start(base) && AlignOffset(base + 16) < 64
  {
  }

  /** Memory outside the end of the old segment, the front of the old top and the new region has not changed. */
  ghost predicate Untouched(head: Heads, foot: Feet, top: int, end: int, seg: Segment, head': Heads, foot': Feet) {
    && (forall a | a in head && !(top <= a < end) && !(seg.base <= a < seg.base + seg.size) ::
         a in head' && head'[a] == head[a])
    && (forall a | a in foot && !(top < a < end) && !(seg.base <= a < seg.base + seg.size) ::
         a in foot' && foot'[a] == foot[a])
  }

  lemma UntouchedAt(head: Heads, foot: Feet, top: int, end: int, seg: Segment, head': Heads, foot': Feet, a: int)
    requires Untouched(head, foot, top, end, seg, head', foot') && !(seg.base <= a < seg.base + seg.size)
    ensures a in head && !(top <= a < end) ==> a in head' && head'[a] == head[a]
    ensures a in foot && !(top < a < end) ==> a in foot' && foot'[a] == foot[a]
  {
  }

  lemma MappedElsewhere(s: Store, w: World, g: Segment, seg: Segment, p: int)
    requires Grantable(s, w, seg) && g in s.segs && RegionsClear(s.segs, w.mapped) && p in w.mapped
    requires MappingOk(s.head, s.foot, s.leastAddr, p, w.mapped[p])
    ensures var f := p + w.mapped[p].size;
            && !(g.base <= p < g.base + g.size) && !(g.base <= f < g.base + g.size)
            && !(seg.base <= p < seg.base + seg.size) && !(seg.base <= f < seg.base + seg.size)
            && !(g.base <= f + 8 < g.base + g.size) && !(seg.base <= f + 8 < seg.base + seg.size)
  {
    assert ClearOf(g, RegionOf(p, w.mapped[p])) && ClearOf(seg, RegionOf(p, w.mapped[p]));
  }

  lemma UntouchedMaps(s: Store, w: World, top: int, g: Segment, seg: Segment, head': Heads, foot': Feet)
    requires Untouched(s.head, s.foot, top, g.base + g.size, seg, head', foot') && Grantable(s, w, seg)
    requires g in s.segs && g.base <= top && RegionsClear(s.segs, w.mapped)
    requires MappingsOk(s.head, s.foot, s.leastAddr, w.mapped)
    ensures MapsKept(w.mapped, s.head, s.foot, head', foot')
  {
    hide Untouched, Grantable, RegionsClear;
    forall p | p in w.mapped && p in s.head && p in s.foot
      ensures p in head' && head'[p] == s.head[p] && p in foot' && foot'[p] == s.foot[p]
      ensures SameHead(s.head, head', p + w.mapped[p].size) && SameHead(s.head, head', p + w.mapped[p].size + 8)
    {
      MappedElsewhere(s, w, g, seg, p);
      UntouchedAt(s.head, s.foot, top, g.base + g.size, seg, head', foot', p + w.mapped[p].size + 8);
      UntouchedAt(s.head, s.foot, top, g.base + g.size, seg, head', foot', p);
      UntouchedAt(s.head, s.foot, top, g.base + g.size, seg, head', foot', p + w.mapped[p].size);
    }
  }

  lemma UntouchedTiles(s: Store, w: World, sp: int, seg: Segment, head': Heads, foot': Feet)
    requires RecordOk(w.tiles, s.top, sp)
    requires Untouched(s.head, s.foot, s.top, w.tiles[s.top].seg.base + w.tiles[s.top].seg.size, seg, head', foot')
    requires Grantable(s, w, seg) && Tiled(w.tiles) && SegmentsOk(w.tiles, s.segs, s.leastAddr)
    ensures Keeps(w.tiles, s.top, s.top + w.tiles[s.top].size, s.head, s.foot, head', foot')
  {
    hide Untouched, Tiled, SegmentsOk, Grantable;
    var top, end := s.top, w.tiles[s.top].seg.base + w.tiles[s.top].seg.size;
    forall a | a in w.tiles && a != top + w.tiles[top].size
      ensures a != top && a in s.head ==> a in head' && head'[a] == s.head[a]
      ensures a in s.foot ==> a in foot' && foot'[a] == s.foot[a]
    {
      if a > top {
        NothingBehind(w.tiles, top, a);
      }
      TileElsewhere(s, w, seg, a);
      UntouchedAt(s.head, s.foot, top, end, seg, head', foot', a);
    }
  }

  lemma TileElsewhere(s: Store, w: World, seg: Segment, a: int)
    requires Grantable(s, w, seg) && Tiled(w.tiles) && SegmentsOk(w.tiles, s.segs, s.leastAddr) && a in w.tiles
    ensures !(seg.base <= a < seg.base + seg.size)
  {
    hide Tiled;
    TileAt(w.tiles, a);
    assert ClearOf(w.tiles[a].seg, seg);
  }

  /** The tags that `add_segment` writes. */
  ghost predicate NewTags(top: int, sp: int, seg: Segment, head': Heads, foot': Feet) {
    var t := sp + RECORD;
    var p, f := Start(seg.base), Start(seg.base) + TopSize(seg);
    && TopSize(seg) > 0 && top <= sp
    && top in head' && head'[top] == Head(sp - top, false, true)
    && sp in head' && head'[sp] == Head(RECORD, true, false) && sp in foot' && foot'[sp] == sp - top
    && t in head' && head'[t] == Head(FENCE_HEAD, true, true)
    && p in head' && head'[p] == Head(TopSize(seg), false, true)
    && f in head' && head'[f] == Head(TOP_FOOT, false, false)
  }

  /** `add_segment` keeps every invariant of the heap. */
  lemma GrownSound(s: Store, w: World, sp: int, seg: Segment, s': Store, w': World)
    requires RecordOk(w.tiles, s.top, sp) && Grantable(s, w, seg) && NewTags(s.top, sp, seg, s'.head, s'.foot)
    requires Untouched(s.head, s.foot, s.top, w.tiles[s.top].seg.base + w.tiles[s.top].seg.size, seg, s'.head, s'.foot)
    requires Granted(s, seg, s')
    requires w' == w.(tiles := Extended(Remains(w.tiles, s.top, sp), Start(seg.base), TopSize(seg), seg),
                      binned := w.binned[s.top := sp - s.top])
    requires Sound(s, w)
    ensures Sound(s', w') && s.top !in w.binned && Sized(w.binned, s'.head)
  {
    hide Tiled, Tagged, Booked, VictimOk, LiveOk, MappingsOk, MapsKept, Extended, TopOk, RegionsClear, SegmentsOk,
         Counted, Grantable, Granted, Untouched, Keeps, Remains, Lay, Start, CanRetire, Sized;
    OldSegment(s, w, sp);
    UntouchedTiles(s, w, sp, seg, s'.head, s'.foot);
    UntouchedMaps(s, w, s.top, w.tiles[s.top].seg, seg, s'.head, s'.foot);
    RelaidOld(s, w, sp, seg, s'.head, s'.foot);
    RemainsLaid(w.tiles, s.top, sp);
    RemainsChunks(s, w, sp);
    RemainsSegments(w.tiles, s.top, sp, s.segs, s.leastAddr);
    GrantedSound(s, w, Remains(w.tiles, s.top, sp), seg, s', w');
    SoundSized(s, w);
    GrownSized(s, w, sp, s'.head, s'.foot);
  }

  lemma OldSegment(s: Store, w: World, sp: int)
    requires RecordOk(w.tiles, s.top, sp) && SegmentsOk(w.tiles, s.segs, s.leastAddr)
    ensures s.top in w.tiles && w.tiles[s.top].seg in s.segs && w.tiles[s.top].seg.base <= s.top
  {
  }

  lemma RemainsLaid(c: Tiles, top: int, sp: int)
    requires RecordOk(c, top, sp)
    ensures Remains(c, top, sp)
         == Lay(Retired(c, top, top + c[top].size, sp + RECORD), Layout(top, sp + RECORD, sp - top, Free, Record))
  {
    hide Lay, Retired;
  }

  lemma GrownSized(s: Store, w: World, sp: int, head': Heads, foot': Feet)
    requires RecordOk(w.tiles, s.top, sp)
    requires Keeps(w.tiles, s.top, s.top + w.tiles[s.top].size, s.head, s.foot, head', foot')
    requires Sized(w.binned, s.head) && Booked(w.tiles, w.binned, s.dv)
    ensures Sized(w.binned, head')
  {
  }

  /** Before the first grant there is nothing. */
  lemma Uninitialised(s: Store, w: World)
    requires Sound(s, w) && s.top == 0
    ensures w.tiles == map[] && w.binned == map[] && s.segs == [] && s.dv == 0 && s.dvsize == 0
  {
    hide Tiled, Tagged, MappingsOk, RegionsClear, LiveOk, Counted;
    NoSegments(s, w);
    assert forall a :: a !in w.binned;
  }

  lemma SomeSegment(segs: seq<Segment>) returns (g: Segment)
    requires segs != []
    ensures g in segs
  {
    g := segs[0];
  }

  lemma NoSegments(s: Store, w: World)
    requires SegmentsOk(w.tiles, s.segs, s.leastAddr) && w.tiles == map[]
    ensures s.segs == []
  {
    if s.segs != [] {
      var g := SomeSegment(s.segs);
      assert false;
    }
  }

  /** The first grant keeps every invariant of the heap. */
  lemma InitSound(s: Store, w: World, seg: Segment, s': Store, w': World)
    requires s.top == 0 && Grantable(s, w, seg) && TopSize(seg) > 0 && Granted(s, seg, s')
    requires s'.head == s.head[Start(seg.base) := Head(TopSize(seg), false, true)]
             [Start(seg.base) + TopSize(seg) := Head(TOP_FOOT, false, false)]
    requires s'.foot == s.foot && w' == w.(tiles := Extended(map[], Start(seg.base), TopSize(seg), seg))
    requires Sound(s, w)
    ensures Sound(s', w')
  {
    hide Tiled, MappingsOk, RegionsClear, LiveOk, Counted, Extended, Start, Grantable, Granted, MapsKept, SegmentsOk,
         Booked, VictimOk;
    Uninitialised(s, w);
    InitMaps(s, w, seg, s');
    GrantedSound(s, w, map[], seg, s', w');
  }

  lemma InitMaps(s: Store, w: World, seg: Segment, s': Store)
    requires Grantable(s, w, seg) && TopSize(seg) > 0 && s'.foot == s.foot
    requires s'.head == s.head[Start(seg.base) := Head(TopSize(seg), false, true)]
             [Start(seg.base) + TopSize(seg) := Head(TOP_FOOT, false, false)]
    requires MappingsOk(s.head, s.foot, s.leastAddr, w.mapped)
    ensures MapsKept(w.mapped, s.head, s.foot, s'.head, s'.foot)
  {
    hide Start, Grantable, MappingOk, RegionOk;
    forall p | p in w.mapped && p in s.head && p in s.foot
      ensures p in s'.head && s'.head[p] == s.head[p]
      ensures SameHead(s.head, s'.head, p + w.mapped[p].size) && SameHead(s.head, s'.head, p + w.mapped[p].size + 8)
    {
      InitElsewhere(s, w, seg, p);
    }
  }

  lemma InitElsewhere(s: Store, w: World, seg: Segment, p: int)
    requires Grantable(s, w, seg) && TopSize(seg) > 0 && p in w.mapped
             && MappingOk(s.head, s.foot, s.leastAddr, p, w.mapped[p])
    ensures var f, a := p + w.mapped[p].size, Start(seg.base);
            && p != a && f != a && f + 8 != a
            && p != a + TopSize(seg) && f != a + TopSize(seg) && f + 8 != a + TopSize(seg)
  {
    hide Start;
    RegionFits(seg);
    assert ClearOf(seg, RegionOf(p, w.mapped[p]));
  }
}
