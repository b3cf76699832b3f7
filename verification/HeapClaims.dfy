/** What a sound heap promises its clients, and what holds over whole runs. */
module HeapClaims {
  import opened Words
  import opened Tiling
  import opened Tags
  import opened HeapState
  import opened HeapSteps
  import opened Coalescing
  import opened DirectMapping

  /** Blocks of clients never overlap. */
  lemma LiveApart(s: Store, w: World, p: int, q: int)
    requires p in w.live && q in w.live && p < q && Sound(s, w)
    ensures p + w.live[p] <= q
  {
    hide Tagged, Booked, VictimOk, TopOk, Counted, Tiled, SegmentsOk, MappingsOk, RegionsClear;
    assert LiveKind(w.tiles, w.mapped, p) && LiveKind(w.tiles, w.mapped, q);
    if p in w.mapped {
      MappedNoTile(s, w, p);
    }
    if q in w.mapped {
      MappedNoTile(s, w, q);
    }
    if p in w.tiles && q in w.tiles {
      TilesApart(w.tiles, p, q);
    } else if p in w.tiles {
      TileBesideMap(s, w, p, q);
    } else if q in w.tiles {
      TileBesideMap(s, w, q, p);
    } else {
      MapsApart(s, w, p, q);
    }
  }

  lemma TileBesideMap(s: Store, w: World, a: int, p: int)
    requires a in w.tiles && p in w.mapped && w.mapped[p].offset <= p
    requires Tiled(w.tiles) && SegmentsOk(w.tiles, s.segs, s.leastAddr) && RegionsClear(s.segs, w.mapped)
    ensures a + w.tiles[a].size <= p || p + w.mapped[p].size <= a
  {
    hide Tiled;
    TileAt(w.tiles, a);
    assert ClearOf(w.tiles[a].seg, RegionOf(p, w.mapped[p]));
  }

  lemma MapsApart(s: Store, w: World, p: int, q: int)
    requires p in w.mapped && q in w.mapped && p < q && MappingsOk(s.head, s.foot, s.leastAddr, w.mapped)
    ensures p + w.mapped[p].size <= q
  {
    assert MappingOk(s.head, s.foot, s.leastAddr, p, w.mapped[p])
           && MappingOk(s.head, s.foot, s.leastAddr, q, w.mapped[q]);
    assert ClearOf(RegionOf(p, w.mapped[p]), RegionOf(q, w.mapped[q]));
  }

  /** Every block lies inside a segment or inside its own mapping, and inside the address space. */
  lemma LiveInside(s: Store, w: World, p: int)
    requires p in w.live && Sound(s, w)
    ensures p > 0 && p + w.live[p] <= W64
    ensures p in w.mapped || exists g :: g in s.segs && g.base <= p && p + w.live[p] <= g.base + g.size
    ensures p in w.mapped ==>
              w.mapped[p].offset <= p
              && p + w.live[p] + FOOT_PAD == (p - w.mapped[p].offset) + MappedLength(w.mapped[p])
  {
    hide Tagged, Booked, VictimOk, TopOk, Counted, Tiled, MappingsOk, RegionsClear;
    assert LiveKind(w.tiles, w.mapped, p);
    if p in w.mapped {
      MappedNoTile(s, w, p);
    } else {
      TileAt(w.tiles, p);
      assert RegionOk(w.tiles[p].seg);
    }
  }

  /** No two neighbouring chunks are idle, top included. */
  lemma NoIdleNeighbours(s: Store, w: World, a: int)
    requires a in w.tiles && Idle(w.tiles[a].kind) && Sound(s, w)
    ensures a + w.tiles[a].size in w.tiles && !Idle(w.tiles[a + w.tiles[a].size].kind)
  {
    hide Booked, VictimOk, TopOk, Counted, Tiled, MappingsOk, RegionsClear, SegmentsOk, LiveOk, Tagged;
    TileAt(w.tiles, a);
    TagAt(w.tiles, s.head, s.foot, a);
    TagAt(w.tiles, s.head, s.foot, a + w.tiles[a].size);
  }

  /** Every binned chunk passes `ok_address`. */
  lemma BinnedAbove(s: Store, w: World, q: int)
    requires q in w.binned && Sound(s, w)
    ensures s.leastAddr <= q
  {
    hide VictimOk, TopOk, Counted, LiveOk, Tagged, Tiled, MappingsOk, RegionsClear, SegmentsOk;
    TileBounded(w.tiles, s.segs, s.leastAddr, q);
  }

  /**
   A free chunk is in the bins or the designated victim, never both; chunks in use, top and markers are in neither.
   */
  lemma FreeExactlyOnce(s: Store, w: World, a: int)
    requires a in w.tiles && Sound(s, w)
    ensures w.tiles[a].kind.Free? <==> (a in w.binned) != (a == s.dv)
    ensures a in w.binned ==> w.binned[a] == w.tiles[a].size
  {
    hide Counted, Tiled, MappingsOk, RegionsClear, SegmentsOk, LiveOk, Tagged, TopOk;
    NotNull(w.tiles);
  }

  // ---------- whole runs ----------

  /** What one call does to the blocks of clients; a request is counted in bytes. */
  datatype Event = Allocated(p: int, bytes: nat) | Released(p: int) | Resized(p: int, to: int, bytes: nat) | Refused

  /** Block `p` has `bytes` bytes beside its overhead: a head, and for a mapped chunk one word more. */
  predicate Offers(w: World, p: int, bytes: nat) {
    p in w.live && bytes + (if p in w.mapped then 16 else 8) <= w.live[p]
  }

  /** Blocks other than `p` are mapped chunks if they were. */
  ghost predicate SameKinds(w: World, w': World, p: int) {
    forall q | q in w.live && q != p :: q in w'.mapped <==> q in w.mapped
  }

  /** The effect that the contracts of the allocator's calls allow. */
  ghost predicate Step(w: World, e: Event, w': World) {
    match e
    case Allocated(p, bytes) =>
      p !in w.live && Offers(w', p, bytes) && w'.live == w.live[p := w'.live[p]] && SameKinds(w, w', p)
    case Released(p) => p in w.live && w'.live == w.live - {p} && SameKinds(w, w', p)
    case Resized(p, to, bytes) =>
      p in w.live && Offers(w', to, bytes) && (to == p || to !in w.live)
      && w'.live == (w.live - {p})[to := w'.live[to]] && SameKinds(w, w', p)
    case Refused => w' == w
  }

  /** A new block and the release of the old one are a move. */
  lemma MoveStep(w: World, w1: World, w2: World, p: int, to: int, bytes: nat)
    requires p in w.live && Step(w, Allocated(to, bytes), w1) && Step(w1, Released(p), w2)
    ensures Step(w, Resized(p, to, bytes), w2)
  {
  }

  ghost predicate Run(worlds: seq<World>, events: seq<Event>) {
    && |worlds| == |events| + 1
    && forall i | 0 <= i < |events| :: Step(worlds[i], events[i], worlds[i + 1])
  }

  predicate Concerns(e: Event, p: int) {
    (e.Released? || e.Resized?) && e.p == p
  }

  /** Between its allocation and the first call that concerns it, a block keeps its address, its size and its kind. */
  lemma {:induction false} KeptThroughout(worlds: seq<World>, events: seq<Event>, p: int, i: nat, j: nat)
    requires Run(worlds, events) && i <= j < |worlds| && p in worlds[i].live
    requires forall n | i <= n < j :: !Concerns(events[n], p)
    ensures p in worlds[j].live && worlds[j].live[p] == worlds[i].live[p]
    ensures p in worlds[j].mapped <==> p in worlds[i].mapped
    decreases j
  {
    if i < j {
      KeptThroughout(worlds, events, p, i, j - 1);
      assert Step(worlds[j - 1], events[j - 1], worlds[j]);
    }
  }

  /**
   As long as a block is held, it has the bytes asked for and its overhead, which is 16 bytes for a mapped chunk and 8
   for any other.
   */
  lemma OffersRequest(worlds: seq<World>, events: seq<Event>, i: nat, j: nat)
    requires Run(worlds, events) && i < j < |worlds| && (events[i].Allocated? || events[i].Resized?)
    requires var p := if events[i].Allocated? then events[i].p else events[i].to;
             forall n | i < n < j :: !Concerns(events[n], p)
    ensures var p := if events[i].Allocated? then events[i].p else events[i].to;
            p in worlds[j].live
            && events[i].bytes + (if p in worlds[j].mapped then 16 else 8) <= worlds[j].live[p]
  {
    assert Step(worlds[i], events[i], worlds[i + 1]);
    KeptThroughout(worlds, events, if events[i].Allocated? then events[i].p else events[i].to, i + 1, j);
  }
}
