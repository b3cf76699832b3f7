/** Taking a free chunk into use, whole or with its remainder split off. */
module Taking {
  import opened Words
  import opened SizeClasses
  import opened TreeLinks
  import opened ChunkHeads
  import opened TreeSearch
  import opened Tiling
  import opened Tags
  import opened HeapState
  import opened HeapSteps
  import opened Coalescing

  /** A free chunk, and that it is followed by one in use. */
  ghost predicate Idling(s: Store, w: World, p: int, size: nat) {
    && p in w.tiles && w.tiles[p].kind.Free? && w.tiles[p].size == size && p in s.head
    && s.head[p] == Head(size, false, true) && OnGrid(p) && size % 64 == 0 && 0 < size < W64 && s.leastAddr <= p
    && var e := p + size;
    && e in w.tiles && e in s.head && Busy(w.tiles[e].kind) && !w.tiles[e].kind.Fence? && !s.head[e].pinuse
       && w.tiles[e].seg == w.tiles[p].seg
  }

  lemma IsIdling(s: Store, w: World, p: int)
    requires Sound(s, w) && p in w.tiles && w.tiles[p].kind.Free?
    ensures Idling(s, w, p, w.tiles[p].size)
  {
    hide Tiled, Tagged, Booked, VictimOk, TopOk, SegmentsOk, MappingsOk, RegionsClear, LiveOk, Counted;
    TileAt(w.tiles, p);
    TagAt(w.tiles, s.head, s.foot, p);
    TagAt(w.tiles, s.head, s.foot, p + w.tiles[p].size);
    TileBounded(w.tiles, s.segs, s.leastAddr, p);
  }

  /** The first `nb` bytes are taken; a remainder of less than a minimal chunk goes along. */
  function TakeLayout(p: int, size: nat, nb: nat): Layout
    requires nb <= size
  {
    if size - nb < MIN_CHUNK then Layout(p, p + size, size, Used, Used) else Layout(p, p + size, nb, Used, Free)
  }

  function TakeHead(head: Heads, l: Layout): Heads
    requires l.e in head
  {
    if IsTwo(l) then head[l.q := Head(l.size, true, true)][l.q + l.size := Head(l.e - l.q - l.size, false, true)]
    else head[l.q := Head(l.size, true, true)][l.e := head[l.e].(pinuse := true)]
  }

  function TakeFoot(foot: Feet, l: Layout): Feet {
    if IsTwo(l) then foot[l.e := l.e - l.q - l.size] else foot
  }

  lemma TakeRetags(s: Store, w: World, p: int, size: nat, nb: nat, l: Layout)
    requires Idling(s, w, p, size) && 0 < nb <= size && nb % 64 == 0 && l == TakeLayout(p, size, nb)
    ensures l.e in s.head && Retags(w.tiles, s.head, s.foot, l, TakeHead(s.head, l), TakeFoot(s.foot, l))
    ensures nb <= l.size < nb + MIN_CHUNK
  {
    GridRest(p, size, nb);
    hide HeadSize;
  }

  lemma GridRest(p: int, size: nat, nb: nat)
    requires p % 64 == 48 && size % 64 == 0 && nb % 64 == 0
    ensures (size - nb) % 64 == 0 && (p + nb) % 64 == 48 && (nb < size ==> size - nb >= 64)
  {
  }

  /** Of the old tiles only `p` lies in the layout. */
  lemma TakeMembers(w: World, p: int, size: nat, l: Layout, a: int)
    requires Tiled(w.tiles) && p in w.tiles && w.tiles[p].size == size && l.q == p && l.e == p + size
    requires a in w.tiles && Among(l, a)
    ensures a == p
  {
    hide Tiled;
    if a > p {
      TilesApart(w.tiles, p, a);
    }
  }

  /** Where a remainder goes: a bin, or the place of the victim. */
  ghost predicate Rests(l: Layout, binned: Binned, dv: int, dvsize: nat, binned': Binned, dv': int, dvsize': nat) {
    var r := l.q + l.size;
    if !IsTwo(l) then
      binned' == Without(binned, l.q)
          && (if dv == l.q then dv' == 0 && dvsize' == 0 else dv' == dv && dvsize' == dvsize)
    else if dv == l.q || (dv == 0 && dv' != 0) then
      binned' == Without(binned, l.q) && dv' == r && dvsize' == l.e - r
    else
      binned' == Without(binned, l.q)[r := l.e - r] && dv' == dv && dvsize' == dvsize
  }

  lemma RestsRebooked(l: Layout, binned: Binned, dv: int, dvsize: nat, binned': Binned, dv': int, dvsize': nat)
    requires 0 < l.q && 0 < l.size && l.q + l.size <= l.e && l.first.Used? && (IsTwo(l) ==> l.second.Free?)
    requires forall a | a in binned && Among(l, a) :: a == l.q
    requires (Among(l, dv) ==> dv == l.q) && (dv == 0 ==> dvsize == 0)
    requires Rests(l, binned, dv, dvsize, binned', dv', dvsize')
    ensures Rebooked(l, binned, dv, binned', dv') && NewVictim(l, dv, dvsize, dv', dvsize')
  {
  }

  lemma TakeOnly(w: World, p: int, l: Layout, dv: int, dvsize: nat)
    requires p in w.tiles && Tiled(w.tiles) && l.q == p && l.e == p + w.tiles[p].size
    requires Booked(w.tiles, w.binned, dv) && VictimOk(w.tiles, dv, dvsize)
    ensures forall a | a in w.binned && Among(l, a) :: a == l.q
    ensures Among(l, dv) && dv != 0 ==> dv == l.q
  {
    hide Tiled;
    forall a | a in w.binned && Among(l, a)
      ensures a == p
    {
      TakeMembers(w, p, w.tiles[p].size, l, a);
    }
    if Among(l, dv) && dv != 0 {
      TakeMembers(w, p, w.tiles[p].size, l, dv);
    }
  }

  lemma TakeLive(w: World, p: int, l: Layout)
    requires p in w.tiles && w.tiles[p].kind.Free? && Tiled(w.tiles) && l.q == p && l.e == p + w.tiles[p].size
    requires 0 < l.size && p + l.size <= l.e && l.first.Used? && (IsTwo(l) ==> l.second.Free?)
    requires LiveOk(w.tiles, w.mapped, w.live) && forall a | a in w.mapped :: !Among(l, a)
    ensures p !in w.live && Rehanded(l, w.live, w.live[p := l.size])
  {
    hide Tiled;
    forall a | a in w.live && Among(l, a)
      ensures false
    {
      assert LiveKind(w.tiles, w.mapped, a);
      TakeMembers(w, p, w.tiles[p].size, l, a);
    }
  }

  /** Taking a free chunk keeps every invariant of the heap. */
  lemma TakenSound(s: Store, w: World, p: int, size: nat, nb: nat, l: Layout, s': Store, w': World)
    requires Idling(s, w, p, size) && 0 < nb <= size && nb % 64 == 0 && l == TakeLayout(p, size, nb)
    requires Rests(l, w.binned, s.dv, s.dvsize, w'.binned, s'.dv, s'.dvsize)
    requires s' == s.(head := TakeHead(s.head, l), foot := TakeFoot(s.foot, l), dv := s'.dv, dvsize := s'.dvsize)
    requires w' == World(Lay(w.tiles, l), w.mapped, w'.binned, w.live[p := l.size])
    requires Sound(s, w)
    ensures Sound(s', w') && p !in w.live && nb <= l.size < nb + MIN_CHUNK
  {
    hide Tiled, Tagged, Booked, TopOk, SegmentsOk, MappingsOk, RegionsClear, LiveOk, Counted,
         Rebooked, Rehanded, Retags, Lay, CanLay, Rests, TakeHead, TakeFoot;
    TakeRetags(s, w, p, size, nb, l);
    CanLayOf(w.tiles, s, l, s');
    TakeOnly(w, p, l, s.dv, s.dvsize);
    RestsRebooked(l, w.binned, s.dv, s.dvsize, w'.binned, s'.dv, s'.dvsize);
    forall a | a in w.mapped
      ensures !Among(l, a)
    {
      MappedOutside(w.tiles, l, s.head, s.foot, s.segs, s.leastAddr, w.mapped, a);
    }
    TakeLive(w, p, l);
    TakeTop(s, w, p, l);
    assert Relays(s, w, l, s', w');
    Relaid(s, w, l, s', w');
  }

  lemma CanLayOf(c: Tiles, s: Store, l: Layout, s': Store)
    requires Retags(c, s.head, s.foot, l, s'.head, s'.foot)
    ensures CanLay(c, l)
  {
  }

  lemma TakeTop(s: Store, w: World, p: int, l: Layout)
    requires p in w.tiles && !w.tiles[p].kind.Top? && Tiled(w.tiles) && l.q == p && l.e == p + w.tiles[p].size && p > 0
    requires TopOk(w.tiles, s.top, s.topsize)
    ensures !Among(l, s.top)
  {
    hide Tiled;
    if Among(l, s.top) {
      TakeMembers(w, p, w.tiles[p].size, l, s.top);
    }
  }

  /** `replace_dv` first moves the old victim into a small bin. */
  lemma ShelvedSound(s: Store, w: World)
    requires Sound(s, w) && s.dv != 0
    ensures s.dv !in w.binned && s.dv in w.tiles && w.tiles[s.dv].kind.Free? && w.tiles[s.dv].size == s.dvsize
    ensures Sound(s.(dv := 0, dvsize := 0), w.(binned := w.binned[s.dv := s.dvsize]))
  {
    hide Tiled, Tagged, TopOk, SegmentsOk, MappingsOk, RegionsClear, LiveOk;
    NotNull(w.tiles);
  }

  lemma SoundSized(s: Store, w: World)
    requires Sound(s, w)
    ensures Sized(w.binned, s.head)
  {
    hide Tiled, Tagged, TopOk, SegmentsOk, MappingsOk, RegionsClear, LiveOk, Counted, VictimOk;
    forall q | q in w.binned
      ensures q in s.head && s.head[q].size == w.binned[q]
    {
      TagAt(w.tiles, s.head, s.foot, q);
    }
  }

  /** The bins still agree with the heads when the remainder is inserted. */
  lemma TakeSized(s: Store, w: World, p: int, size: nat, l: Layout)
    requires p in w.tiles && w.tiles[p].size == size && l.q == p && l.e == p + size && l.e in s.head && 0 < l.size
             && p + l.size < l.e
    requires Sound(s, w)
    ensures p + l.size !in w.binned && Sized(w.binned - {p}, TakeHead(s.head, l))
  {
    hide Sound, Sized, Tiled;
    SoundSized(s, w);
    SoundBooked(s, w);
    if p + l.size in w.binned {
      TakeMembers(w, p, size, l, p + l.size);
    }
    SizedFrame(w.binned, p, l, s.head);
  }

  lemma SoundBooked(s: Store, w: World)
    requires Sound(s, w)
    ensures Tiled(w.tiles) && Booked(w.tiles, w.binned, s.dv)
  {
  }

  lemma SizedFrame(binned: Binned, p: int, l: Layout, head: Heads)
    requires Sized(binned, head) && l.q == p && l.e in head && IsTwo(l) && p + l.size !in binned
    ensures Sized(binned - {p}, TakeHead(head, l))
  {
  }

  // ---------- taking from the top ----------

  /** The top chunk and the foot area behind it. */
  ghost predicate Topped(s: Store, w: World) {
    && s.top in w.tiles && w.tiles[s.top].kind.Top? && w.tiles[s.top].size == s.topsize && OnGrid(s.top)
    && s.top in s.head && s.head[s.top] == Head(s.topsize, false, true) && s.topsize % 8 == 0 && 0 < s.topsize < W64
    && var e := s.top + s.topsize;
    && e in w.tiles && w.tiles[e].kind.Foot? && w.tiles[e].seg == w.tiles[s.top].seg
    && e in s.head && !s.head[e].pinuse
  }

  lemma IsTopped(s: Store, w: World)
    requires Sound(s, w) && s.top != 0
    ensures Topped(s, w)
  {
    hide Tiled, Tagged, Booked, VictimOk, SegmentsOk, MappingsOk, RegionsClear, LiveOk, Counted;
    TileAt(w.tiles, s.top);
    TagAt(w.tiles, s.head, s.foot, s.top);
    TileBounded(w.tiles, s.segs, s.leastAddr, s.top);
  }

  function TopLayout(top: int, topsize: nat, nb: nat): Layout {
    Layout(top, top + topsize, nb, Used, Top)
  }

  function TopHead(head: Heads, top: int, topsize: nat, nb: nat): Heads
    requires nb <= topsize
  {
    head[top + nb := Head(topsize - nb, false, true)][top := Head(nb, true, true)]
  }

  lemma TopRetags(s: Store, w: World, nb: nat, l: Layout)
    requires Topped(s, w) && 0 < nb < s.topsize && nb % 64 == 0 && l == TopLayout(s.top, s.topsize, nb)
    ensures Retags(w.tiles, s.head, s.foot, l, TopHead(s.head, s.top, s.topsize, nb), s.foot)
  {
    GridShift(s.top, s.topsize, nb);
    hide HeadSize;
  }

  lemma TopOnly(s: Store, w: World, nb: nat, l: Layout)
    requires Topped(s, w) && 0 < nb < s.topsize && l == TopLayout(s.top, s.topsize, nb) && Sound(s, w)
    requires forall a | a in w.mapped :: !Among(l, a)
    ensures Rebooked(l, w.binned, s.dv, w.binned, s.dv) && NewVictim(l, s.dv, s.dvsize, s.dv, s.dvsize)
    ensures s.top !in w.live && Rehanded(l, w.live, w.live[s.top := nb])
  {
    hide Tiled, Tagged, SegmentsOk, MappingsOk, RegionsClear, Counted, Topped;
    forall a | Among(l, a) && a in w.tiles
      ensures a == s.top
    {
      TakeMembers(w, s.top, s.topsize, l, a);
    }
  }

  /** Splitting the top keeps every invariant of the heap. */
  lemma TopTakenSound(s: Store, w: World, nb: nat, l: Layout, s': Store, w': World)
    requires Topped(s, w) && 0 < nb < s.topsize && nb % 64 == 0 && l == TopLayout(s.top, s.topsize, nb)
    requires s' == s.(head := TopHead(s.head, s.top, s.topsize, nb), top := s.top + nb, topsize := s.topsize - nb)
    requires w' == w.(tiles := Lay(w.tiles, l), live := w.live[s.top := nb])
    requires Sound(s, w)
    ensures Sound(s', w') && s.top !in w.live
  {
    hide Tiled, Tagged, Booked, TopOk, SegmentsOk, MappingsOk, RegionsClear, LiveOk, Counted, Topped,
         Rebooked, Rehanded, Retags, Lay, CanLay, TopHead, VictimOk;
    TopRetags(s, w, nb, l);
    CanLayOf(w.tiles, s, l, s');
    forall a | a in w.mapped
      ensures !Among(l, a)
    {
      MappedOutside(w.tiles, l, s.head, s.foot, s.segs, s.leastAddr, w.mapped, a);
    }
    TopOnly(s, w, nb, l);
    assert Relays(s, w, l, s', w');
    Relaid(s, w, l, s', w');
  }
}
