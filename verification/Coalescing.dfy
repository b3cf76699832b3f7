/** Freeing a chunk: which neighbours it merges with, and that the result keeps the heap sound. */
module Coalescing {
  import opened Words
  import opened TreeLinks
  import opened ChunkHeads
  import opened Tiling
  import opened Tags
  import opened HeapState
  import opened HeapSteps
  import opened TreeSearch

  /** What the tags say about a chunk in use and its neighbours. */
  ghost predicate Around(s: Store, w: World, p: int) {
    && p in w.tiles && w.tiles[p].kind.Used? && p in s.head
    && var next := p + w.tiles[p].size;
    && s.head[p] == Head(w.tiles[p].size, true, s.head[p].pinuse)
    && next in w.tiles && next in s.head && w.tiles[next].seg == w.tiles[p].seg && s.head[next].pinuse
    && !Last(w.tiles[next].kind) && s.head[next].cinuse == Busy(w.tiles[next].kind)
    && s.head[next].size == HeadSize(w.tiles[next])
    && OnGrid(p) && w.tiles[p].size % 64 == 0 && w.tiles[p].size > 0
  }

  lemma AroundUsed(s: Store, w: World, p: int)
    requires Sound(s, w) && p in w.tiles && w.tiles[p].kind.Used?
    ensures Around(s, w, p)
  {
    hide Tiled, Tagged, Booked, VictimOk, TopOk, SegmentsOk, MappingsOk, RegionsClear, LiveOk, Counted;
    TileAt(w.tiles, p);
    TagAt(w.tiles, s.head, s.foot, p);
    TagAt(w.tiles, s.head, s.foot, p + w.tiles[p].size);
  }

  /** The free chunk before `p`, when there is one. */
  ghost predicate Preceded(s: Store, w: World, p: int, prev: int) {
    && p in w.tiles && prev in w.tiles && w.tiles[prev].kind.Free? && prev + w.tiles[prev].size == p && prev < p
    && w.tiles[prev].seg == w.tiles[p].seg
    && prev in s.head && s.head[prev] == Head(p - prev, false, true) && OnGrid(prev) && (p - prev) % 64 == 0
    && (if prev == s.dv then s.dvsize == p - prev else prev in w.binned && w.binned[prev] == p - prev)
    && s.leastAddr <= prev
  }

  lemma BeforeUsed(s: Store, w: World, p: int)
    requires Around(s, w, p) && !s.head[p].pinuse && Sound(s, w)
    ensures p in s.foot && Preceded(s, w, p, p - s.foot[p])
  {
    hide Tiled, Tagged, TopOk, MappingsOk, RegionsClear, LiveOk, Counted;
    TagAt(w.tiles, s.head, s.foot, p);
    var prev := p - s.foot[p];
    TileAt(w.tiles, prev);
    TagAt(w.tiles, s.head, s.foot, prev);
  }

  /** The idle chunk behind `p`, when there is one. */
  ghost predicate Followed(s: Store, w: World, p: int, next: int) {
    && next in w.tiles && next > p && p in w.tiles && Idle(w.tiles[next].kind)
    && var e := next + w.tiles[next].size;
    && e in w.tiles && e in s.head && e > next && !s.head[e].pinuse && w.tiles[e].seg == w.tiles[p].seg
    && !Idle(w.tiles[e].kind) && (w.tiles[e].kind.Foot? <==> w.tiles[next].kind.Top?) && !w.tiles[e].kind.Fence?
    && (next == s.top <==> w.tiles[next].kind.Top?)
    && (next == s.top ==> s.topsize == w.tiles[next].size && s.topsize % 8 == 0 && next != s.dv)
    && (next != s.top ==> w.tiles[next].size % 64 == 0)
    && (next != s.top && next == s.dv ==> s.dvsize == w.tiles[next].size)
    && (next != s.top && next != s.dv ==> next in w.binned && w.binned[next] == w.tiles[next].size)
  }

  lemma BehindUsed(s: Store, w: World, p: int, next: int)
    requires Around(s, w, p) && next == p + w.tiles[p].size && !s.head[next].cinuse && Sound(s, w)
    ensures Followed(s, w, p, next)
  {
    hide Tiled, Tagged, SegmentsOk, MappingsOk, RegionsClear, LiveOk, Counted;
    TileAt(w.tiles, next);
    TagAt(w.tiles, s.head, s.foot, next);
    var e := next + w.tiles[next].size;
    TagAt(w.tiles, s.head, s.foot, e);
  }

  /** Freeing `p` lays one free chunk, or the top, over it and its idle neighbours. */
  ghost function FreeLayout(s: Store, w: World, p: int): Layout
    requires Around(s, w, p) && (!s.head[p].pinuse ==> p in s.foot)
  {
    var next := p + w.tiles[p].size;
    var q := if s.head[p].pinuse then p else p - s.foot[p];
    var e := if Idle(w.tiles[next].kind) then next + w.tiles[next].size else next;
    var k := if w.tiles[next].kind.Top? then Top else Free;
    Layout(q, e, if e >= q then e - q else 0, k, k)
  }

  /** The neighbourhood of a chunk to be freed. */
  ghost predicate Freeable(s: Store, w: World, p: int, l: Layout) {
    && Around(s, w, p) && (!s.head[p].pinuse ==> p in s.foot) && l == FreeLayout(s, w, p)
    && (!s.head[p].pinuse ==> Preceded(s, w, p, l.q))
    && var next := p + w.tiles[p].size;
    && (if Idle(w.tiles[next].kind) then Followed(s, w, p, next) else l.e == next && Busy(w.tiles[next].kind))
  }

  lemma IsFreeable(s: Store, w: World, p: int)
    requires Sound(s, w) && p in w.tiles && w.tiles[p].kind.Used?
    ensures Around(s, w, p) && (!s.head[p].pinuse ==> p in s.foot) && Freeable(s, w, p, FreeLayout(s, w, p))
  {
    hide Sound, Followed, Preceded;
    AroundUsed(s, w, p);
    if !s.head[p].pinuse {
      BeforeUsed(s, w, p);
    }
    var next := p + w.tiles[p].size;
    if !s.head[next].cinuse {
      BehindUsed(s, w, p, next);
    }
  }

  lemma GridSum(x: int, y: int)
    requires x % 64 == 0 && y % 64 == 0
    ensures (x + y) % 64 == 0
  {
  }

  lemma WordSum(x: int, y: int)
    requires x % 64 == 0 && y % 8 == 0
    ensures (x + y) % 8 == 0
  {
  }

  lemma FreeCanLay(s: Store, w: World, p: int, l: Layout)
    requires Freeable(s, w, p, l)
    ensures CanLay(w.tiles, l) && l.q <= p < l.e && l.size == l.e - l.q && !IsTwo(l)
    ensures l.q in s.head && l.e in s.head && s.head[l.q].pinuse && !Idle(w.tiles[l.e].kind)
  {
    hide HeadSize;
    var next := p + w.tiles[p].size;
    GridSum(p - l.q, next - p);
    if w.tiles[next].kind.Top? {
      WordSum(next - l.q, l.e - next);
    } else {
      GridSum(next - l.q, l.e - next);
    }
  }

  /** Of the old tiles only `p` and its idle neighbours lie in the layout. */
  lemma FreeMembers(s: Store, w: World, p: int, l: Layout, a: int)
    requires Freeable(s, w, p, l) && Tiled(w.tiles) && a in w.tiles && Among(l, a)
    ensures a == l.q || a == p || a == p + w.tiles[p].size
    ensures a == p + w.tiles[p].size ==> Idle(w.tiles[a].kind)
  {
    hide Tiled;
    var next := p + w.tiles[p].size;
    if a < p && a != l.q {
      TilesApart(w.tiles, l.q, a);
    } else if p < a < next {
      TilesApart(w.tiles, p, a);
    } else if next < a < l.e {
      TilesApart(w.tiles, next, a);
    }
  }

  /** The bins after freeing: merged neighbours leave, and the result enters unless it is the victim or the top. */
  function FreeBins(binned: Binned, dv: int, l: Layout, next: int): Binned {
    var b := Without(Without(binned, l.q), next);
    if l.first.Free? && !Among(l, dv) then b[l.q := l.size] else b
  }

  function Without(binned: Binned, a: int): Binned {
    if a in binned then binned - {a} else binned
  }

  lemma FreeRebooked(binned: Binned, dv: int, l: Layout, next: int, dv': int)
    requires !IsTwo(l) && l.q < l.e && l.q + l.size == l.e && (l.first.Free? || l.first.Top?)
    requires next in binned ==> Among(l, next)
    requires forall a | a in binned && Among(l, a) :: a == l.q || a == next
    requires dv' == if !Among(l, dv) then dv else if l.first.Free? then l.q else 0
    ensures Rebooked(l, binned, dv, FreeBins(binned, dv, l, next), dv')
  {
    var b := FreeBins(binned, dv, l, next);
    assert forall a | a in b && Among(l, a) :: a == l.q && l.first.Free? && b[a] == l.size && dv' != l.q;
  }

  lemma FreeBinned(s: Store, w: World, p: int, l: Layout, next: int)
    requires Freeable(s, w, p, l) && Booked(w.tiles, w.binned, s.dv) && Tiled(w.tiles) && next == p + w.tiles[p].size
    ensures next in w.binned ==> Among(l, next)
    ensures forall a | a in w.binned && Among(l, a) :: a == l.q || a == next
  {
    hide Tiled;
    forall a | a in w.binned && Among(l, a)
      ensures a == l.q || a == next
    {
      FreeMembers(s, w, p, l, a);
    }
  }

  /** `set_free_with_pinuse`, or the new head of the top. */
  function FreeHead(head: Heads, l: Layout): Heads
    requires l.e in head
  {
    head[l.q := Head(l.size, false, true)][l.e := head[l.e].(pinuse := false)]
  }

  function FreeFoot(foot: Feet, l: Layout): Feet {
    if l.first.Free? then foot[l.e := l.size] else foot
  }

  /** Behind a free chunk `pinuse` is clear already. */
  lemma FreeHeadBeforeFree(head: Heads, l: Layout)
    requires l.e in head && !head[l.e].pinuse && l.q != l.e
    ensures FreeHead(head, l) == head[l.q := Head(l.size, false, true)]
  {
  }

  lemma FreeRetags(s: Store, w: World, p: int, l: Layout)
    requires Freeable(s, w, p, l)
    ensures l.e in s.head && Retags(w.tiles, s.head, s.foot, l, FreeHead(s.head, l), FreeFoot(s.foot, l))
  {
    FreeCanLay(s, w, p, l);
    hide Around, Preceded, Followed, FreeLayout;
    assert l.first.Free? || l.first.Top?;
  }

  /** The state after freeing `p`. */
  ghost function FreedStore(s: Store, l: Layout): Store
    requires l.e in s.head
  {
    var merged := Among(l, s.dv);
    s.(head := FreeHead(s.head, l), foot := FreeFoot(s.foot, l),
       dv := if !merged then s.dv else if l.first.Free? then l.q else 0,
       dvsize := if !merged then s.dvsize else if l.first.Free? then l.size else 0,
       top := if l.first.Top? then l.q else s.top,
       topsize := if l.first.Top? then l.size else s.topsize)
  }

  ghost function FreedWorld(s: Store, w: World, p: int, l: Layout): World
    requires l.q in w.tiles && p in w.tiles
  {
    World(Lay(w.tiles, l), w.mapped, FreeBins(w.binned, s.dv, l, p + w.tiles[p].size), w.live - {p})
  }

  lemma FreeTop(s: Store, w: World, p: int, l: Layout)
    requires Freeable(s, w, p, l) && TopOk(w.tiles, s.top, s.topsize) && Tiled(w.tiles)
    ensures Among(l, s.top) <==> l.first.Top?
  {
    hide Tiled;
    if Among(l, s.top) {
      FreeMembers(s, w, p, l, s.top);
    }
  }

  lemma FreeLive(s: Store, w: World, p: int, l: Layout)
    requires Freeable(s, w, p, l) && Tiled(w.tiles) && LiveOk(w.tiles, w.mapped, w.live)
    requires forall a | a in w.mapped :: !Among(l, a)
    ensures Rehanded(l, w.live, w.live - {p})
  {
    FreeCanLay(s, w, p, l);
    forall a | a in w.live && Among(l, a)
      ensures a == p
    {
      FreeMembers(s, w, p, l, a);
    }
  }

  /** Freeing a chunk keeps every invariant of the heap. */
  lemma FreedSound(s: Store, w: World, p: int, l: Layout)
    requires Sound(s, w) && Freeable(s, w, p, l)
    ensures l.e in s.head && l.q in w.tiles && p in w.tiles && Sound(FreedStore(s, l), FreedWorld(s, w, p, l))
  {
    hide Tiled, Tagged, Booked, VictimOk, TopOk, SegmentsOk, MappingsOk, RegionsClear, LiveOk, Counted,
         Rebooked, Rehanded, Around, Preceded, Followed, FreeLayout, Freeable, Retags, FreeBins, Lay, CanLay;
    FreeRetags(s, w, p, l);
    FreeCanLay(s, w, p, l);
    FreePlace(s, w, p, l);
    var next := p + w.tiles[p].size;
    FreeBinned(s, w, p, l, next);
    var s', w' := FreedStore(s, l), FreedWorld(s, w, p, l);
    FreeRebooked(w.binned, s.dv, l, next, s'.dv);
    FreeTop(s, w, p, l);
    forall a | a in w.mapped
      ensures !Among(l, a)
    {
      MappedOutside(w.tiles, l, s.head, s.foot, s.segs, s.leastAddr, w.mapped, a);
    }
    FreeLive(s, w, p, l);
    assert Relays(s, w, l, s', w');
    Relaid(s, w, l, s', w');
  }

  lemma FreePlace(s: Store, w: World, p: int, l: Layout)
    requires Freeable(s, w, p, l)
    ensures l.q in w.tiles && p in w.tiles && l.q > 0 && l.q < l.e && (l.first.Free? || l.first.Top?)
  {
    FreeCanLay(s, w, p, l);
  }

  /** What the code reads about the chunk before `p`. */
  ghost predicate ReadsBack(s: Store, w: World, p: int, l: Layout) {
    && p in s.head && l.q <= p
    && (if s.head[p].pinuse then l.q == p else p in s.foot && l.q == p - s.foot[p] < p && s.leastAddr <= l.q)
    && (if l.q < p && l.q != s.dv then l.q in w.binned && w.binned[l.q] == p - l.q else l.q !in w.binned)
    && s.dv != p
  }

  lemma FreeReadsBack(s: Store, w: World, p: int, l: Layout)
    requires Freeable(s, w, p, l) && Sound(s, w)
    ensures ReadsBack(s, w, p, l)
  {
    hide Tiled, Tagged, SegmentsOk, MappingsOk, RegionsClear, LiveOk, Counted, TopOk, Followed;
  }

  /** What the code reads about the chunk behind `p`. */
  ghost predicate ReadsAhead(s: Store, w: World, l: Layout, next: int) {
    && next in s.head && s.head[next].pinuse && l.e in s.head
    && (if s.head[next].cinuse then l.e == next && next !in w.binned && l.first.Free?
        else
          && !s.head[l.e].pinuse
          && (if next == s.top then l.e == next + s.topsize && next !in w.binned && l.first.Top?
              else if next == s.dv then l.e == next + s.dvsize && next !in w.binned && l.first.Free?
              else && l.e == next + s.head[next].size && l.first.Free?
                   && next in w.binned && w.binned[next] == s.head[next].size))
    && next <= l.e
  }

  lemma FreeReadsAhead(s: Store, w: World, p: int, l: Layout, next: int)
    requires Freeable(s, w, p, l) && next == p + w.tiles[p].size && Sound(s, w)
    ensures ReadsAhead(s, w, l, next)
  {
    hide Tiled, Tagged, SegmentsOk, MappingsOk, RegionsClear, LiveOk, Counted, VictimOk, Preceded;
  }

  lemma FreeShape(s: Store, w: World, p: int, l: Layout, next: int)
    requires Freeable(s, w, p, l) && next == p + w.tiles[p].size
    ensures 0 < l.q <= p < next <= l.e && l.size == l.e - l.q
    ensures p in w.tiles && w.tiles[p].kind.Used?
    ensures next in w.tiles && next in s.head && (s.head[next].cinuse <==> Busy(w.tiles[next].kind))
    ensures !s.head[next].cinuse ==> next < l.e
  {
    FreeCanLay(s, w, p, l);
  }

  lemma FreeVictim(s: Store, w: World, p: int, l: Layout, next: int)
    requires Freeable(s, w, p, l) && next == p + w.tiles[p].size
    requires Tiled(w.tiles) && VictimOk(w.tiles, s.dv, s.dvsize) && (s.top in w.tiles ==> w.tiles[s.top].kind.Top?)
    ensures next in s.head
    ensures Among(l, s.dv) <==> (s.dv == l.q < p) || (s.dv == next && !s.head[next].cinuse && next != s.top)
  {
    FreeShape(s, w, p, l, next);
    hide Tiled, Freeable;
    if Among(l, s.dv) {
      FreeMembers(s, w, p, l, s.dv);
    }
  }

  lemma TileBounded(c: Tiles, segs: seq<Segment>, leastAddr: nat, a: int)
    requires Tiled(c) && SegmentsOk(c, segs, leastAddr) && a in c
    ensures leastAddr <= a && 0 < a && a + c[a].size <= W64
  {
    TileAt(c, a);
    hide Tiled;
    assert RegionOk(c[a].seg);
  }

  lemma FreeFits(s: Store, w: World, p: int, l: Layout)
    requires Freeable(s, w, p, l) && l.first.Free? && Tiled(w.tiles) && SegmentsOk(w.tiles, s.segs, s.leastAddr)
    ensures 64 <= l.size < W64 && l.size % 8 == 0
  {
    hide Freeable, Tiled, SegmentsOk;
    FreeCanLay(s, w, p, l);
    TileBounded(w.tiles, s.segs, s.leastAddr, l.q);
    TileBounded(w.tiles, s.segs, s.leastAddr, l.e);
    GridWord(l.size);
  }

  lemma GridWord(x: int)
    requires x % 64 == 0 && x > 0
    ensures x % 8 == 0 && x >= 64
  {
  }

  /** The bins still agree with the heads when the freed chunk is inserted. */
  lemma FreeSized(s: Store, w: World, l: Layout, head': Heads, binned': Binned)
    requires Booked(w.tiles, w.binned, s.dv) && Tagged(w.tiles, s.head, s.foot) && l.e in s.head
    requires head' == FreeHead(s.head, l) && binned'.Keys <= w.binned.Keys && l.q !in binned'
    requires forall a | a in binned' :: binned'[a] == w.binned[a]
    ensures Sized(binned', head')
  {
    forall q | q in binned'
      ensures q in head' && head'[q].size == binned'[q]
    {
      TagAt(w.tiles, s.head, s.foot, q);
    }
  }

  lemma KeysWithout(binned: Binned, q: int, next: int)
    ensures var b := Without(Without(binned, q), next);
            b.Keys <= binned.Keys && q !in b && forall a | a in b :: b[a] == binned[a]
  {
  }

  /** All that the code needs to know on its way through the neighbours of `p`. */
  ghost predicate Passage(s: Store, w: World, p: int, l: Layout, next: int) {
    && ReadsBack(s, w, p, l) && ReadsAhead(s, w, l, next)
    && 0 < l.q <= p < next <= l.e && l.size == l.e - l.q && next in s.head && l.e in s.head && s.leastAddr <= p
    && (Among(l, s.dv) <==> (s.dv == l.q < p) || (s.dv == next && !s.head[next].cinuse && next != s.top))
    && s.dv != p
    && (l.first.Free? ==> 64 <= l.size < W64 && l.size % 8 == 0)
    && l.q !in Without(Without(w.binned, l.q), next)
       && Sized(Without(Without(w.binned, l.q), next), FreeHead(s.head, l))
  }

  lemma FreePassage(s: Store, w: World, p: int, l: Layout, next: int)
    requires Freeable(s, w, p, l) && next == p + w.tiles[p].size && Sound(s, w)
    ensures Passage(s, w, p, l, next)
  {
    hide Tiled, Tagged, Booked, VictimOk, SegmentsOk, MappingsOk, RegionsClear, LiveOk, Counted, Freeable, Sized,
         Without;
    FreeReadsBack(s, w, p, l);
    FreeReadsAhead(s, w, p, l, next);
    FreeShape(s, w, p, l, next);
    TileBounded(w.tiles, s.segs, s.leastAddr, p);
    FreeVictim(s, w, p, l, next);
    if l.first.Free? {
      FreeFits(s, w, p, l);
    }
    KeysWithout(w.binned, l.q, next);
    FreeSized(s, w, l, FreeHead(s.head, l), Without(Without(w.binned, l.q), next));
  }
}
