/** Which chunk serves a request, told without the bins: best fit first, then the victim, the top and the system. */
module Policy {
  import opened Words
  import opened BinMaps
  import opened SizeClasses
  import opened Trie
  import opened TreeLinks
  import opened TreeSearch
  import opened Cycles
  import opened BinState
  import opened Tiling
  import opened Tags
  import opened HeapState
  import opened DirectMapping
  import opened Alignment
  import opened ClientMemory
  import opened HeapClaims
  import opened HeapFacts

  /**
   No binned chunk serves. A small request takes one that leaves at most 8 bytes; any other one only when the victim
   is too small. A large request takes one that fits better than the victim.
   */
  ghost predicate BinsPass(sizes: Binned, dvsize: nat, nb: nat) {
    if IsSmall(nb) then
      && (forall q | q in sizes :: !(nb <= sizes[q] <= nb + 8))
      && (nb <= dvsize || forall q | q in sizes :: sizes[q] < nb)
    else VictimWins(sizes, dvsize, nb)
  }

  /** Nothing in the heap serves. */
  ghost predicate Exhausted(s: Store, binned: Binned, nb: nat) {
    BinsPass(binned, s.dvsize, nb) && s.dvsize < nb && s.topsize <= nb
  }

  /** Exactly when `dlmalloc` fails. */
  ghost predicate Refuses(s: Store, binned: Binned, bytes: nat, sys: System) {
    var nb := MallocSize(bytes);
    bytes >= MAX_REQUEST
        || (Exhausted(s, binned, nb) && !Direct(nb, s.topsize, sys) && (sys.region.Fail? || RegionSize(nb) <= nb))
  }

  /** The address that the system leads to. */
  function FromSystem(nb: nat, topsize: nat, sys: System): int {
    if Direct(nb, topsize, sys) then Start(sys.direct.base)
    else if sys.region.Region? then Start(sys.region.base)
    else 0
  }

  /** What a served request costs: nothing, a mapped region, or a new segment in front of the list. */
  ghost predicate Charged(s: Store, s': Store, nb: nat, sys: System, system: bool) {
    if !system then AccountOf(s') == AccountOf(s)
    else if Direct(nb, s.topsize, sys)
        then AccountOf(s') == Credited(AccountOf(s), sys.direct.base, DirectSize(nb), false)
    else sys.region.Region? && AccountOf(s') == Credited(AccountOf(s), sys.region.base, RegionSize(nb), true)
  }

  lemma ChargedSame(s: Store, s1: Store, s2: Store, nb: nat, sys: System, system: bool)
    requires Charged(s, s1, nb, sys, system) && AccountOf(s2) == AccountOf(s1)
    ensures Charged(s, s2, nb, sys, system)
  {
  }

  /** What `dlmemalign` asks of `dlmalloc`. */
  function Asked(alignment: nat, bytes: nat): nat {
    if alignment <= 64 then bytes else AlignRequest(AlignExponent(alignment, 6), bytes)
  }

  /** Chunk `p` is the one that the order of preference selects. */
  ghost predicate Selected(s: Store, binned: Binned, nb: nat, sys: System, p: int) {
    if !BinsPass(binned, s.dvsize, nb) then BestChunk(binned, p, nb)
    else if nb <= s.dvsize then p == s.dv
    else if nb < s.topsize then p == s.top
    else p == FromSystem(nb, s.topsize, sys)
  }

  /** Empty small bins leave a gap among the sizes. */
  lemma SizesBeyond(raw: Raw, v: View, lo: nat, hi: nat)
    requires Ok(raw, v) && lo <= hi <= NBINS && forall j: nat | lo <= j < hi :: !Has(raw.smallmap, j)
    ensures forall q | q in v.sizes && 8 * lo <= v.sizes[q] :: 8 * hi <= v.sizes[q]
  {
    forall q | q in v.sizes && 8 * lo <= v.sizes[q]
      ensures 8 * hi <= v.sizes[q]
    {
      var j := SmallIndex(v.sizes[q]);
      assert Placed(v, q);
      assert j < NBINS ==> SmallBin(raw, v, j);
    }
  }

  lemma NoTrees(raw: Raw, v: View)
    requires Ok(raw, v) && raw.treemap == 0
    ensures forall q | q in v.sizes :: v.sizes[q] < MIN_LARGE
  {
    hide BinOf, TreeAt, Cycle, BinLo, BinBits, Ordered;
    forall q | q in v.sizes
      ensures v.sizes[q] < MIN_LARGE
    {
      if v.sizes[q] >= MIN_LARGE {
        var i := BinOf(v.sizes[q]);
        BinHolds(raw, v, q);
        assert TreeBin(raw, v, i);
        EmptyMap(i);
      }
    }
  }

  lemma EmptyMap(i: nat)
    ensures !Has(0, i)
    decreases i
  {
  }

  /** A chunk of the next non-empty small bin is a best fit. */
  lemma SmallBest(raw: Raw, v: View, nb: nat, i: nat)
    requires Ok(raw, v) && nb % 8 == 0 && nb / 8 <= i < NBINS
             && forall j: nat | nb / 8 <= j < i :: !Has(raw.smallmap, j)
    ensures forall p | p in v.sizes && v.sizes[p] == 8 * i :: BestChunk(v.sizes, p, nb)
  {
    SizesBeyond(raw, v, nb / 8, i);
  }

  /** Without a fitting small chunk, a smallest tree chunk is a best fit. */
  lemma TreeBest(raw: Raw, v: View, nb: nat)
    requires Ok(raw, v) && nb % 8 == 0 && nb / 8 < NBINS && forall j: nat | nb / 8 <= j < NBINS :: !Has(raw.smallmap, j)
    ensures forall p | IsSmallestTree(v.sizes, p) :: BestChunk(v.sizes, p, nb)
  {
    SizesBeyond(raw, v, nb / 8, NBINS);
  }

  lemma BestServes(sizes: Binned, p: int, nb: nat, dvsize: nat)
    ensures IsSmall(nb) && BestChunk(sizes, p, nb) && (dvsize < nb || sizes[p] <= nb + 8)
            ==> !BinsPass(sizes, dvsize, nb)
    ensures BestChunk(sizes, p, nb) ==> p in sizes
  {
  }

  /** The small part of `dlmalloc` finds nothing. */
  lemma SmallPasses(raw: Raw, v: View, nb: nat, dvsize: nat)
    requires Ok(raw, v) && nb % 64 == 0 && 0 < nb <= 192 && !Has(raw.smallmap, nb / 8) && !Has(raw.smallmap, nb / 8 + 1)
    requires nb <= dvsize || (raw.treemap == 0 && forall j: nat | nb / 8 <= j < NBINS :: !Has(raw.smallmap, j))
    ensures BinsPass(v.sizes, dvsize, nb)
  {
    SizesBeyond(raw, v, nb / 8, nb / 8 + 2);
    if nb > dvsize {
      SizesBeyond(raw, v, nb / 8, NBINS);
      NoTrees(raw, v);
    }
  }

  lemma LargePasses(raw: Raw, v: View, nb: nat, dvsize: nat)
    requires Ok(raw, v) && raw.treemap == 0 && MIN_LARGE <= nb
    ensures BinsPass(v.sizes, dvsize, nb)
  {
    NoTrees(raw, v);
  }

  lemma LargePass(sizes: Binned, dvsize: nat, nb: nat)
    requires MIN_LARGE <= nb
    ensures BinsPass(sizes, dvsize, nb) <==> VictimWins(sizes, dvsize, nb)
  {
  }

  /**
   What serves once the bins of the request itself are empty and the victim is too small; `i` is the next small bin in
   use.
   */
  lemma SplitChoice(raw: Raw, v: View, nb: nat, i: nat, dvsize: nat)
    requires Ok(raw, v) && nb % 64 == 0 && 0 < nb <= 192 && dvsize < nb && nb / 8 + 1 <= i <= NBINS
             && !Has(raw.smallmap, nb / 8 + 1)
    requires forall j: nat | nb / 8 <= j < i :: !Has(raw.smallmap, j)
    ensures i < NBINS ==> nb <= 8 * i && forall p | p in v.sizes && v.sizes[p] == 8 * i :: BestChunk(v.sizes, p, nb)
    ensures i == NBINS && raw.treemap != 0 ==> forall p | IsSmallestTree(v.sizes, p) :: BestChunk(v.sizes, p, nb)
    ensures i == NBINS && raw.treemap == 0 ==> BinsPass(v.sizes, dvsize, nb)
  {
    hide Ok, Has, BinsPass, BestChunk, IsSmallestTree;
    if i < NBINS {
      SmallBest(raw, v, nb, i);
    } else if raw.treemap != 0 {
      TreeBest(raw, v, nb);
    } else {
      SmallPasses(raw, v, nb, dvsize);
    }
  }

  // ---------- resizing in place ----------

  /** Chunk `p` with the idle chunk behind it, if any, has room for `nb` bytes; the top must not be used up. */
  predicate RoomAt(c: Tiles, p: int, nb: nat)
    requires p in c
  {
    var next := p + c[p].size;
    nb <= c[p].size
    || (next in c && c[next].kind.Free? && nb <= c[p].size + c[next].size)
    || (next in c && c[next].kind.Top? && nb < c[p].size + c[next].size)
  }

  /** When a block is resized where it is; a mapped one must not become small or waste more than two units. */
  predicate InPlace(w: World, p: int, nb: nat) {
    if p in w.mapped then !IsSmall(nb) && nb + 8 <= w.mapped[p].size <= nb + 2 * GRANULARITY
    else p in w.tiles && RoomAt(w.tiles, p, nb)
  }

  /** A block that is a tile has less than a minimal chunk to spare. */
  predicate BoundedTile(w: World, p: int, bytes: nat) {
    p in w.live && p !in w.mapped ==> w.live[p] < MallocSize(bytes) + MIN_CHUNK
  }

  /**
   How large a block is after it was resized from `p` to `to`. A mapped one stays as it is if it has room for the
   request and two words, and not more than two units to spare.
   */
  ghost predicate Bounded(w: World, w': World, p: int, to: int, bytes: nat) {
    && BoundedTile(w', to, bytes)
    && (p in w.mapped && p in w.live ==>
          && (to == p ==> to in w'.live && w'.live[to] == w.live[p]
                          && bytes + 16 <= w.live[p] < bytes + 72 + 2 * 262144)
          && (248 < bytes && bytes + 79 < w.live[p] <= bytes + 8 + 2 * 262144 ==> to == p))
  }

  /**
   After a move to `mem`: the bytes that block `oldmem` had, but no more than are asked for, are at the new place, and
   all others are unchanged.
   */
  ghost predicate Carried(w: World, was: int -> nat, oldmem: int, bytes: nat, mem: int, now: int -> nat) {
    oldmem - 16 in w.live
    && forall a {:trigger now(a)} ::
         now(a) == if 0 <= a - mem < bytes
                      && a - mem + (if oldmem - 16 in w.mapped then 16 else 8) < w.live[oldmem - 16]
                   then was(oldmem + (a - mem)) else was(a)
  }

  lemma Copied(w: World, was: int -> nat, oldmem: int, bytes: nat, mem: int, room: nat, now: int -> nat)
    requires Usable(w, oldmem - 16, room)
    requires forall a :: now(a) == Pasted(was, mem, oldmem, if room < bytes then room else bytes, a)
    ensures Carried(w, was, oldmem, bytes, mem, now)
  {
  }

  lemma CarriedSame(w: World, w1: World, was: int -> nat, oldmem: int, bytes: nat, mem: int, now: int -> nat)
    requires Carried(w1, was, oldmem, bytes, mem, now) && oldmem - 16 in w.live
    requires w1.live[oldmem - 16] == w.live[oldmem - 16] && (oldmem - 16 in w1.mapped <==> oldmem - 16 in w.mapped)
    ensures Carried(w, was, oldmem, bytes, mem, now)
  {
  }

  /** All bytes that a client asked for survive a move, up to the new size. */
  lemma RequestSurvives(w: World, was: int -> nat, oldmem: int, asked: nat, bytes: nat, mem: int, now: int -> nat,
                        i: nat)
    requires Offers(w, oldmem - 16, asked) && Carried(w, was, oldmem, bytes, mem, now) && i < asked && i < bytes
    ensures now(mem + i) == was(oldmem + i)
  {
  }

  /** The bounds in bytes within which a mapped block stays: room for its overhead, and at most two units of waste. */
  lemma MappedStays(s: Store, w: World, p: int, bytes: nat)
    requires p in w.mapped && p in w.live && Sound(s, w)
    ensures bytes < MAX_REQUEST && InPlace(w, p, Request2Size(bytes)) ==>
              bytes + 16 <= w.live[p] < bytes + 72 + 2 * 262144
    ensures 248 < bytes && bytes + 79 < w.live[p] <= bytes + 8 + 2 * 262144 ==>
              bytes < MAX_REQUEST && InPlace(w, p, Request2Size(bytes))
  {
    hide Tiled, Tagged, Booked, VictimOk, TopOk, SegmentsOk, RegionsClear, Counted;
    assert MappingOk(s.head, s.foot, s.leastAddr, p, w.mapped[p]);
    PagesBelow(MappedLength(w.mapped[p]));
    if bytes < MAX_REQUEST {
      PaddingFits(bytes);
    }
  }

  lemma PagesBelow(n: nat)
    requires n % 4096 == 0 && n < W64
    ensures n <= W64 - 4096
  {
  }

  /** `dlrealloc` keeps the block where it is. */
  predicate Stays(w: World, oldmem: int, bytes: nat) {
    oldmem != 0 && bytes < MAX_REQUEST && InPlace(w, oldmem - 16, Request2Size(bytes))
  }

  function ResizeEvent(oldmem: int, mem: int, bytes: nat): Event {
    if mem == 0 then Event.Refused else if oldmem == 0 then Allocated(mem - 16, bytes)
        else Resized(oldmem - 16, mem - 16, bytes)
  }

  lemma TooLarge(s: Store, binned: Binned, bytes: nat, sys: System)
    ensures bytes >= MAX_REQUEST ==> Refuses(s, binned, bytes, sys)
  {
  }

  /** Exactly when `dlmemalign` fails. */
  ghost predicate AlignRefuses(s: Store, binned: Binned, alignment: nat, bytes: nat, sys: System) {
    if alignment <= 64 then Refuses(s, binned, bytes, sys)
    else var k := AlignExponent(alignment, 6);
         bytes + Pow2(k) >= MAX_REQUEST || Refuses(s, binned, AlignRequest(k, bytes), sys)
  }

  /** What the code asks about the chunk behind. */
  predicate AsksRoom(s: Store, p: int, nb: nat) {
    && p in s.head
    && var size, next := s.head[p].size, p + s.head[p].size;
       nb <= size || (if next == s.top then nb < size + s.topsize
                      else if next == s.dv then nb <= size + s.dvsize
                      else next in s.head && !s.head[next].cinuse && nb <= size + s.head[next].size)
  }

  lemma RoomIs(s: Store, w: World, p: int, nb: nat)
    requires p in w.tiles && w.tiles[p].kind.Used? && Sound(s, w)
    ensures RoomAt(w.tiles, p, nb) <==> AsksRoom(s, p, nb)
  {
    hide Tiled, Tagged, SegmentsOk, MappingsOk, RegionsClear, LiveOk, Counted, Booked;
    TileAt(w.tiles, p);
    TagAt(w.tiles, s.head, s.foot, p);
    var next := p + w.tiles[p].size;
    TileAt(w.tiles, next);
    TagAt(w.tiles, s.head, s.foot, next);
  }

  // ---------- the first request ----------

  /** The fields and the model of the zeroed state. */
  ghost predicate Fresh(s: Store, w: World) {
    s.dvsize == 0 && s.topsize == 0 && s.segs == [] && s.footprint == 0 && w.mapped == map[] && w.binned == map[]
  }

  lemma FirstServed(s: Store, w: World, bytes: nat, base: nat)
    requires Fresh(s, w) && bytes < MAX_REQUEST && base > 0 && base % 8 == 0
    requires var nb := MallocSize(bytes); nb < RegionSize(nb) && base + RegionSize(nb) <= W64
    ensures var sys := System(Fail, Region(base));
            && SystemOk(s, w, MallocSize(bytes), sys) && !Refuses(s, w.binned, bytes, sys)
            && forall p | Selected(s, w.binned, MallocSize(bytes), sys, p) :: p == Start(base)
    ensures forall s' | Charged(s, s', MallocSize(bytes), System(Fail, Region(base)),
            Exhausted(s, w.binned, MallocSize(bytes))) ::
              s'.footprint == RegionSize(MallocSize(bytes)) && s'.segs == [Segment(base, s'.footprint)]
  {
    hide RegionSize, DirectSize, Start, Request2Size;
    MallocSizeFits(bytes);
    RegionSizeFits(MallocSize(bytes));
  }
}
