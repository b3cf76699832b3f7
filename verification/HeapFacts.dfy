/** Facts about single steps of the allocator, used by the operations of `Heaps.Heap`. */
module HeapFacts {
  import opened Words
  import opened SizeClasses
  import opened TreeLinks
  import opened ChunkHeads
  import opened TreeSearch
  import opened BinState
  import opened Tiling
  import opened Tags
  import opened HeapState
  import opened HeapSteps
  import opened Coalescing
  import opened Taking
  import opened Growing
  import opened DirectMapping
  import opened Resizing
  import opened Alignment
  import opened ClientMemory
  import opened HeapClaims

  lemma FootprintIs(s: Store, w: World)
    requires Sound(s, w)
    ensures s.footprint == SegmentBytes(s.segs) + MappedBytes(w.mapped)
  {
  }

  lemma {:induction false} SegmentBytesSnoc(segs: seq<Segment>, i: nat)
    requires i < |segs|
    ensures SegmentBytes(segs[..i + 1]) == SegmentBytes(segs[..i]) + segs[i].size
    decreases i
  {
    if i > 0 {
      SegmentBytesSnoc(segs[1..], i - 1);
      assert segs[..i + 1][1..] == segs[1..][..i] && segs[..i][1..] == segs[1..][..i - 1];
    }
  }

  /** Behind the last chunk of a segment come the top with its foot area or the fenceposts, up to the end. */
  lemma SegmentTail(s: Store, w: World, i: nat, q: int)
    requires i < |s.segs| && q in w.tiles && w.tiles[q].seg == s.segs[i] && (q == s.top || w.tiles[q].kind.Fence?)
             && s.top != 0
    requires Sound(s, w)
    ensures s.top in w.tiles && s.segs[i].base <= Start(s.segs[i].base)
    ensures q + (if q == s.top then s.topsize + TOP_FOOT else w.tiles[q].size) == s.segs[i].base + s.segs[i].size
    ensures if q == s.top then s.segs[i] == w.tiles[s.top].seg && s.segs[i] !in s.segs[..i]
            else s.segs[i] != w.tiles[s.top].seg
  {
    hide Tagged, Booked, MappingsOk, RegionsClear, VictimOk, LiveOk, Counted, Tiled;
    TileAt(w.tiles, q);
    TileAt(w.tiles, s.top);
    var foot := s.top + s.topsize;
    TileAt(w.tiles, foot);
    StartIs(s.segs[i].base);
    if q == s.top {
      OnlyOnce(s.segs, i);
    } else if q < foot {
      TilesApart(w.tiles, q, foot);
    } else if foot < q {
      TilesApart(w.tiles, foot, q);
    }
  }

  lemma OnlyOnce(segs: seq<Segment>, i: nat)
    requires i < |segs| && segs[i].size > 0 && forall a, b | 0 <= a < b < |segs| :: ClearOf(segs[a], segs[b])
    ensures segs[i] !in segs[..i]
  {
    forall j | 0 <= j < i
      ensures segs[j] != segs[i]
    {
      assert ClearOf(segs[j], segs[i]);
    }
  }

  /** What clients write leaves the links that matter alone. */
  lemma LinksSpared(s: Store, w: World, raw: Raw, v: View, links: Links)
    requires Ok(raw, v) && v.sizes == w.binned && ClientLinks(w, raw.links, links) && Sound(s, w)
    ensures forall q | q in w.binned :: Spared(raw.links, links, q)
    ensures forall i: nat | i < NBINS :: Spared(raw.links, links, Header(i))
  {
    hide Sound, TreeBin, Reached;
    forall q | q in w.binned
      ensures Spared(raw.links, links, q)
    {
      LinksUnreached(s, w, q);
    }
    forall i: nat | i < NBINS
      ensures Spared(raw.links, links, Header(i))
    {
      assert SmallBin(raw, v, i);
      LinksUnreached(s, w, Header(i));
    }
  }

  lemma SegmentStart(s: Store, w: World, g: Segment)
    requires g in s.segs && Sound(s, w)
    ensures var q := Start(g.base);
            && q in w.tiles && q in s.head && w.tiles[q].seg == g && !w.tiles[q].kind.Foot?
            && g.base <= q && q + w.tiles[q].size <= g.base + g.size
  {
    hide Tiled, Tagged, MappingsOk, RegionsClear, Booked, Counted, TopOk, VictimOk, LiveOk;
    var q := Start(g.base);
    TileAt(w.tiles, q);
    TagAt(w.tiles, s.head, s.foot, q);
  }

  /** What `traverse_and_check` asserts at a chunk, and where the next one is. */
  ghost predicate Checked(s: Store, w: World, q: int) {
    && q in w.tiles && q in s.head && Plain(w.tiles[q].kind) && s.head[q].size == w.tiles[q].size > 0
    && var next := q + w.tiles[q].size;
    && next in w.tiles && next in s.head && w.tiles[next].seg == w.tiles[q].seg && !w.tiles[next].kind.Foot?
    && next + w.tiles[next].size <= w.tiles[q].seg.base + w.tiles[q].seg.size && q < next
    && OnGrid(q) && s.leastAddr <= q
    && (!s.head[q].pinuse ==> q in s.foot && q - s.foot[q] in s.head && s.head[q - s.foot[q]].size == s.foot[q])
    && (if s.head[q].cinuse then q !in w.binned && q != s.dv && s.head[next].pinuse
        else && (q == s.dv || q in w.binned) && s.head[q].pinuse && !s.head[next].pinuse
             && next in s.foot && s.foot[next] == w.tiles[q].size && next != s.top && s.head[next].cinuse)
  }

  lemma WalkStep(s: Store, w: World, q: int)
    requires q in w.tiles && !w.tiles[q].kind.Foot? && q != s.top && q in s.head
    requires !(s.head[q].size == FENCE_HEAD && s.head[q].cinuse && s.head[q].pinuse) && Sound(s, w)
    ensures Checked(s, w, q)
  {
    hide Tiled, Tagged, MappingsOk, RegionsClear, SegmentsOk, Counted, LiveOk;
    TileAt(w.tiles, q);
    TileBounded(w.tiles, s.segs, s.leastAddr, q);
    TagAt(w.tiles, s.head, s.foot, q);
    if !s.head[q].pinuse {
      TagAt(w.tiles, s.head, s.foot, q - s.foot[q]);
    }
    var next := q + w.tiles[q].size;
    TileAt(w.tiles, next);
    TagAt(w.tiles, s.head, s.foot, next);
  }

  lemma WalkEnds(s: Store, w: World, q: int)
    requires q in w.tiles && q in s.head && !w.tiles[q].kind.Foot? && Sound(s, w)
    requires q == s.top || (s.head[q].size == FENCE_HEAD && s.head[q].cinuse && s.head[q].pinuse)
          || !(w.tiles[q].seg.base <= q < w.tiles[q].seg.base + w.tiles[q].seg.size)
    ensures q == s.top || w.tiles[q].kind.Fence?
  {
    hide Tiled, Tagged, MappingsOk, RegionsClear, SegmentsOk, Counted, LiveOk, Booked, VictimOk;
    TileAt(w.tiles, q);
    TagAt(w.tiles, s.head, s.foot, q);
    if Plain(w.tiles[q].kind) {
      GridWord(w.tiles[q].size);
    }
  }

  lemma MallocAligned(alignment0: nat, mem: int)
    requires alignment0 <= 64 && mem > 0 && mem % 64 == 0
    ensures IsMultiple(mem, Pow2(AlignExponent(alignment0, 6)))
  {
    PowTable();
    ExponentIs(alignment0, 6, 6);
    assert mem == (mem / 64) * Pow2(6);
  }

  /** The request that leaves room for the worst leader. */
  function AlignRequest(k: nat, bytes: nat): nat {
    Request2Size(bytes) + Pow2(k) + MIN_CHUNK - OVERHEAD
  }

  lemma AlignRequestFits(k: nat, bytes: nat)
    requires bytes + Pow2(k) < MAX_REQUEST
    ensures var nb := Request2Size(bytes);
            && 64 <= nb && nb % 64 == 0 && bytes + OVERHEAD <= nb && AlignRequest(k, bytes) < W64
  {
    PaddingFits(bytes);
  }

  lemma LeadIs(mem: int, up: int)
    requires mem % 64 == 0 && up % 64 == 0
    ensures (up - mem) % 64 == 0
  {
  }

  /** The block at `p` has become one at `p'` of at least `nb` bytes; every other one keeps its place and size. */
  predicate Moved(live: Blocks, live': Blocks, p: int, p': int, nb: nat) {
    OnGrid(p') && p' in live' && nb <= live'[p'] && (p' == p || p' !in live) && live' == (live - {p})[p' := live'[p']]
  }

  /** Two blocks have no byte in common. */
  lemma BlocksApart(s: Store, w: World, p: int, q: int, n: nat)
    requires p in w.live && q in w.live && p != q && n + OVERHEAD <= w.live[p] && n + OVERHEAD <= w.live[q]
             && Sound(s, w)
    ensures p + 16 + n <= q + 16 || q + 16 + n <= p + 16
  {
    hide Sound;
    if p < q {
      LiveApart(s, w, p, q);
    } else {
      LiveApart(s, w, q, p);
    }
  }

  lemma NullNotLive(s: Store, w: World)
    requires Sound(s, w)
    ensures -16 !in w.live
  {
    hide Sound;
    if -16 in w.live {
      LiveGrid(s, w, -16);
    }
  }

  lemma UsedIsLive(s: Store, w: World, p: int)
    requires p in w.tiles && w.tiles[p].kind.Used? && Sound(s, w)
    ensures p in w.live && w.live[p] == w.tiles[p].size
  {
  }

  function GrownHead(head: Heads, p: int, total: nat, nb: nat): Heads
    requires nb <= total
  {
    if total - nb < MIN_CHUNK then SetInuse(head, p, total) else SetInuse(SetInuse(head, p, nb), p + nb, total - nb)
  }

  function GrownLive(live: Blocks, p: int, total: nat, nb: nat, size: nat): Blocks
    requires nb <= total
  {
    if total - nb < MIN_CHUNK then live[p := size] else live[p := nb][p + nb := total - nb]
  }

  lemma FreeExtended(s: Store, w: World, p: int, next: int, nb: nat, l: Layout, s': Store, w': World)
    requires Around(s, w, p) && Followed(s, w, p, next) && next == p + w.tiles[p].size && next != s.top && next != s.dv
    requires next in w.tiles && next in w.binned
    requires var total := w.tiles[p].size + w.tiles[next].size;
             && w.tiles[p].size < nb <= total && nb % 64 == 0 && l == ExtendLayout(p, total, nb, Used)
             && s' == s.(head := GrownHead(s.head, p, total, nb))
             && w' == World(Lay(w.tiles, l), w.mapped, w.binned - {next}, GrownLive(w.live, p, total, nb, l.size))
    requires Sound(s, w)
    ensures Sound(s', w') && p in w.live && nb <= l.size < nb + MIN_CHUNK
    ensures var total := w.tiles[p].size + w.tiles[next].size;
            total - nb >= MIN_CHUNK ==>
                  p + nb !in w.live && p + nb in w'.tiles && w'.tiles[p + nb] == Tile(total - nb, Used, w.tiles[p].seg)
  {
    hide Sound, Lay, Around, Followed, SetInuse, NewHead, CanLay;
    IdleExtends(s, w, p, next, w.tiles[next].size, nb, l);
    ResizedSound(s, w, p, l, next, s', w');
    LayIs(w.tiles, l, p);
  }

  /** A grown chunk: the whole space, or `nb` bytes and a remainder of kind `k`. */
  function ExtendLayout(p: int, total: nat, nb: nat, k: Kind): (l: Layout)
    requires nb <= total
    ensures l.q == p && l.e == p + total && (total - nb >= MIN_CHUNK ==> l.size == nb)
  {
    if total - nb < MIN_CHUNK then Layout(p, p + total, total, Used, Used) else Layout(p, p + total, nb, Used, k)
  }

  lemma VictimEnd(s: Store, w: World, p: int, next: int)
    requires Followed(s, w, p, next) && next == s.dv
    ensures next + s.dvsize in s.head
  {
  }

  /** The fields after growing `p` into the victim. */
  ghost function VictimStore(s: Store, p: int, total: nat, nb: nat): Store
    requires nb <= total && p + total in s.head
  {
    var rest, e := total - nb, p + total;
    if rest >= MIN_CHUNK then
      s.(head := SetInuse(s.head, p, nb)[p + nb := Head(rest, false, true)][e := s.head[e].(pinuse := false)],
         foot := s.foot[e := rest], dv := p + nb, dvsize := rest)
    else s.(head := SetInuse(s.head, p, total), dv := 0, dvsize := 0)
  }

  lemma VictimExtended(s: Store, w: World, p: int, next: int, nb: nat, l: Layout, s': Store, w': World)
    requires Around(s, w, p) && Followed(s, w, p, next) && next == p + w.tiles[p].size && next == s.dv
    requires var total := w.tiles[p].size + s.dvsize;
             && w.tiles[p].size < nb <= total && nb % 64 == 0 && l == ExtendLayout(p, total, nb, Free)
             && p + total in s.head && s' == VictimStore(s, p, total, nb)
    requires w' == w.(tiles := Lay(w.tiles, l), live := w.live[p := l.size]) && Sound(s, w)
    ensures Sound(s', w') && p in w.live && nb <= l.size < nb + MIN_CHUNK
  {
    hide Sound, Lay, Around, Followed, SetInuse, NewHead, CanLay;
    VictimBehind(s, w, p, next);
    IdleExtends(s, w, p, next, s.dvsize, nb, l);
    ResizedSound(s, w, p, l, next, s', w');
  }

  lemma VictimBehind(s: Store, w: World, p: int, next: int)
    requires Followed(s, w, p, next) && next == s.dv
    ensures next != s.top && next in w.tiles && w.tiles[next].size == s.dvsize
    ensures Sound(s, w) ==> next !in w.binned
  {
    hide Tiled, Tagged, SegmentsOk, MappingsOk, RegionsClear, LiveOk, Counted, VictimOk, TopOk;
  }

  lemma FreeBehind(s: Store, w: World, p: int, next: int)
    requires Around(s, w, p) && Followed(s, w, p, next) && next == p + w.tiles[p].size && next != s.top && next != s.dv
    ensures next in w.binned && next in w.tiles && next in s.head
            && w.binned[next] == w.tiles[next].size == s.head[next].size
  {
  }

  lemma IdleExtends(s: Store, w: World, p: int, next: int, nsize: nat, nb: nat, l: Layout)
    requires Around(s, w, p) && Followed(s, w, p, next) && next == p + w.tiles[p].size && next != s.top
             && nsize == w.tiles[next].size
    requires w.tiles[p].size < nb <= w.tiles[p].size + nsize && nb % 64 == 0
    requires l == ExtendLayout(p, w.tiles[p].size + nsize, nb, Free)
             || l == ExtendLayout(p, w.tiles[p].size + nsize, nb, Used)
    ensures next in w.tiles && Idle(w.tiles[next].kind) && p in w.tiles && l.e in w.tiles && !Idle(w.tiles[l.e].kind)
    ensures l.e in s.head && p in s.head && CanLay(w.tiles, l) && Reaches(s, w, p, l, next)
            && nb <= l.size < nb + MIN_CHUNK
    ensures var total := w.tiles[p].size + nsize;
            NewHead(s.head, l) ==
              if !IsTwo(l) then SetInuse(s.head, p, total)
              else if l.second.Used? then SetInuse(SetInuse(s.head, p, nb), p + nb, total - nb)
              else SetInuse(s.head, p, nb)[p + nb := Head(total - nb, false, true)]
                  [l.e := s.head[l.e].(pinuse := false)]
  {
    GridSum(w.tiles[p].size, nsize);
    GridRest(p, w.tiles[p].size + nsize, nb);
  }

  lemma BehindIdle(s: Store, w: World, p: int, next: int)
    requires p in w.tiles && w.tiles[p].kind.Used? && next == p + w.tiles[p].size
    requires next == s.top || next == s.dv || (next in s.head && !s.head[next].cinuse)
    requires Sound(s, w)
    ensures Around(s, w, p) && Followed(s, w, p, next) && next in s.head && !s.head[next].cinuse
  {
    hide Tiled, Tagged, SegmentsOk, MappingsOk, RegionsClear, LiveOk, Counted, Booked, Followed;
    AroundUsed(s, w, p);
    BehindUsed(s, w, p, next);
  }

  lemma TopExtends(s: Store, w: World, p: int, nb: nat, l: Layout)
    requires Around(s, w, p) && Followed(s, w, p, p + w.tiles[p].size) && p + w.tiles[p].size == s.top
    requires w.tiles[p].size < nb < w.tiles[p].size + s.topsize && nb % 64 == 0
             && l == Layout(p, s.top + s.topsize, nb, Used, Top)
    ensures s.top in w.tiles && Idle(w.tiles[s.top].kind) && p in w.tiles && l.e in w.tiles && !Idle(w.tiles[l.e].kind)
    ensures l.e in s.head && p in s.head && CanLay(w.tiles, l) && Reaches(s, w, p, l, s.top) && IsTwo(l)
    ensures NewHead(s.head, l) == SetInuse(s.head, p, nb)[p + nb := Head(w.tiles[p].size + s.topsize - nb, false, true)]
  {
    TopRest(p, w.tiles[p].size, s.topsize, nb);
  }

  lemma TopNotBooked(s: Store, w: World)
    requires s.top in w.tiles && Sound(s, w)
    ensures s.top !in w.binned && s.top != s.dv
  {
    hide Tiled, Tagged, SegmentsOk, MappingsOk, RegionsClear, LiveOk, Counted;
    NotNull(w.tiles);
  }

  lemma TopRest(p: int, size: nat, topsize: nat, nb: nat)
    requires p % 64 == 48 && size % 64 == 0 && topsize % 8 == 0 && nb % 64 == 0
    ensures (size + topsize - nb) % 8 == 0 && (p + nb) % 64 == 48
  {
  }

  lemma SplitLays(s: Store, w: World, p: int, nb: nat, l: Layout)
    requires Around(s, w, p) && 0 < nb < w.tiles[p].size && nb % 64 == 0
             && l == Layout(p, p + w.tiles[p].size, nb, Used, Used)
    ensures p in w.tiles && l.e in w.tiles && l.e in s.head && p in s.head && CanLay(w.tiles, l)
            && Reaches(s, w, p, l, l.e) && IsTwo(l)
    ensures NewHead(s.head, l) == SetInuse(SetInuse(s.head, p, nb), p + nb, w.tiles[p].size - nb)
    ensures NewHead(s.head, l) == SetInuse(SetInuse(s.head, p + nb, w.tiles[p].size - nb), p, nb)
  {
    GridRest(p, w.tiles[p].size, nb);
  }

  lemma GridMem(p: int)
    requires OnGrid(p)
    ensures (p + 16) % 64 == 0
  {
  }

  lemma MallocSizeFits(bytes: nat)
    requires bytes < W64
    ensures var nb := MallocSize(bytes);
            && 64 <= nb < W64 && (nb % 64 == 0 || nb == MAX_SIZE)
            && (bytes < MAX_REQUEST ==> bytes + OVERHEAD <= nb && nb % 64 == 0)
            && (bytes >= MAX_REQUEST ==> nb == MAX_SIZE)
  {
    if bytes < MAX_REQUEST {
      PaddingFits(bytes);
    }
  }

  lemma MaxFails(nb: nat)
    ensures nb == MAX_SIZE ==> RegionSize(nb) <= nb && DirectSize(nb) <= nb
  {
    if nb == MAX_SIZE {
      RegionSizeFits(nb);
      DirectSizeFits(nb);
    }
  }

  lemma LiveGrid(s: Store, w: World, p: int)
    requires Sound(s, w) && p in w.live
    ensures OnGrid(p) && s.leastAddr <= p && p in s.head && s.head[p].size == w.live[p] && 64 <= w.live[p]
            && p + w.live[p] <= W64
    ensures p in w.mapped || (p in w.tiles && w.tiles[p].kind.Used? && w.tiles[p].size == w.live[p])
    ensures if p in w.mapped then !s.head[p].cinuse && !s.head[p].pinuse else s.head[p].cinuse
    ensures p in w.mapped ==> p in s.foot && s.foot[p] == w.mapped[p].offset && w.mapped[p].size == w.live[p]
  {
    hide Tiled, Tagged, Booked, VictimOk, TopOk, SegmentsOk, MappingsOk, RegionsClear, Counted;
    assert LiveKind(w.tiles, w.mapped, p);
    if p in w.mapped {
      MappedNoTile(s, w, p);
    } else {
      AroundUsed(s, w, p);
      TileBounded(w.tiles, s.segs, s.leastAddr, p);
      GridWord(w.tiles[p].size);
    }
  }

  /** The chunk size that `dlmalloc` looks for. */
  function MallocSize(bytes: nat): nat {
    if bytes >= MAX_REQUEST then MAX_SIZE else Request2Size(bytes)
  }

  lemma SmallRequest(bytes: nat)
    requires bytes <= MAX_SMALL_REQUEST
    ensures 0 < Request2Size(bytes) <= 192 && Request2Size(bytes) % 64 == 0 && bytes + OVERHEAD <= Request2Size(bytes)
  {
    PaddingFits(bytes);
  }

  lemma LargeRequest(bytes: nat)
    requires MAX_SMALL_REQUEST < bytes < MAX_REQUEST
    ensures PadRequest(bytes) == Request2Size(bytes) && bytes + OVERHEAD <= PadRequest(bytes) < W64
    ensures MIN_LARGE <= PadRequest(bytes) && PadRequest(bytes) % 64 == 0
  {
    PaddingFits(bytes);
  }

  lemma SizesBelow(s: Store, w: World)
    requires Sound(s, w)
    ensures s.dvsize < MAX_SIZE && s.topsize <= MAX_SIZE
  {
    hide Sound;
    VictimReady(s, w);
    if s.topsize > 0 {
      TopNonzero(s, w);
      IsTopped(s, w);
    }
  }

  lemma SmallMapBelow(raw: Raw, v: View)
    requires Ok(raw, v)
    ensures raw.smallmap < W32
  {
  }

  /** The answers of the system to the two requests that one call may make. */
  datatype System = System(direct: Answer, region: Answer)

  ghost predicate SystemOk(s: Store, w: World, nb: nat, sys: System) {
    Answers(s, w, sys.direct, DirectSize(nb)) && Answers(s, w, sys.region, RegionSize(nb))
  }

  /** The request is mapped directly. */
  predicate Direct(nb: nat, topsize: nat, sys: System) {
    nb >= MMAP_THRESHOLD && topsize != 0 && sys.direct.Region? && DirectSize(nb) > nb
  }

  /** One aligned chunk of at least `nb` bytes has been handed out; every other one keeps its place and size. */
  predicate Given(live: Blocks, live': Blocks, p: int, nb: nat) {
    OnGrid(p) && p !in live && p in live' && nb <= live'[p] && live' == live[p := live'[p]]
  }

  /** The padding covers the foot area and the worst alignment loss. */
  lemma GrantSuffices(base: nat, size: nat, nb: nat)
    requires nb + TOP_FOOT + 64 <= size
    ensures nb < TopSize(Segment(base, size))
  {
    StartIs(base);
  }

  lemma NotMax(nb: nat)
    requires nb % 64 == 0 || nb == MAX_SIZE
    requires RegionSize(nb) > nb && 64 <= nb < W64
    ensures nb % 64 == 0
  {
    RegionSizeFits(nb);
  }

  lemma MapStoreBytes(s: Store, p: int, m: Mapping, mm: nat)
    ensures AccountOf(MapStore(s, p, m, mm)) == Credited(AccountOf(s), mm, MappedLength(m), false)
  {
  }

  lemma RegionChunk(s: Store, w: World, mm: nat, mmsize: nat)
    requires Grantable(s, w, Segment(mm, mmsize)) && mmsize >= 400 && mmsize % 4096 == 0 && mmsize % 8 == 0
    ensures var offset := AlignOffset(mm + 16);
            && offset <= 63 && mm > 0 && OnGrid(mm + offset)
            && Mappable(s, w, mm + offset, Mapping(mmsize - offset - FOOT_PAD, offset))
  {
    hide Start;
    AlignedStart(mm);
    StartIs(mm);
    var offset := AlignOffset(mm + 16);
    OffsetWord(mm, offset, mmsize);
    assert RegionOf(mm + offset, Mapping(mmsize - offset - FOOT_PAD, offset)) == Segment(mm, mmsize);
  }

  lemma OffsetWord(mm: nat, offset: nat, mmsize: nat)
    requires mm % 8 == 0 && mmsize % 8 == 0 && (mm + offset) % 64 == 48
    ensures (mmsize - offset - 32) % 8 == 0
  {
    var a, b, c := mm / 8, mmsize / 8, (mm + offset) / 64;
    assert offset == 64 * c + 48 - 8 * a;
    assert mmsize - offset - 32 == 8 * (b - 8 * c - 6 + a - 4);
  }

  /** A mapped chunk as `mmap_alloc` lays it out for `nb` bytes. */
  predicate MadeFor(m: Mapping, nb: nat) {
    MMAP_THRESHOLD <= nb < DirectSize(nb) && nb < W64 && m.offset < 64 && MappedLength(m) == DirectSize(nb)
  }

  /** A mapped chunk has room for the request and its two words of overhead. */
  lemma MadeOffers(m: Mapping, bytes: nat)
    requires bytes < W64 && MadeFor(m, MallocSize(bytes))
    ensures bytes + 16 <= m.size
  {
    hide DirectSize;
    MallocSizeFits(bytes);
    DirectSizeFits(MallocSize(bytes));
  }

  /** No mapped chunk but `p` comes or goes. */
  predicate OnlyMaps(mapped: Mappings, mapped': Mappings, p: int) {
    mapped' == mapped || (p in mapped' && mapped' == mapped[p := mapped'[p]])
  }

  lemma MallocStep(w: World, s': Store, w': World, p: int, bytes: nat)
    requires Given(w.live, w'.live, p, bytes + OVERHEAD) && OnlyMaps(w.mapped, w'.mapped, p) && bytes < W64
    requires p in w'.mapped ==> MadeFor(w'.mapped[p], MallocSize(bytes))
    requires Sound(s', w')
    ensures Step(w, Allocated(p, bytes), w') && (p in w'.mapped ==> bytes + 16 <= w'.live[p])
  {
    hide Sound, MadeFor;
    LiveGrid(s', w', p);
    if p in w'.mapped {
      MadeOffers(w'.mapped[p], bytes);
    }
  }

  lemma MappedLive(s: Store, w: World)
    requires Sound(s, w)
    ensures forall p | p in w.mapped :: p in w.live
  {
  }

  lemma PagePower(k: nat)
    requires k >= 12
    ensures Pow2(k) % 4096 == 0
  {
    PowTable();
    PowAdd(12, k - 12);
  }

  lemma NextPage(x: nat, y: nat)
    requires x % 4096 == 0 && y % 4096 == 0 && x < y
    ensures x + 4096 <= y
  {
  }

  /** Giving the leader of a mapped chunk up for alignment never leaves a small one. */
  lemma LeadLeavesLarge(m: Mapping, k: nat, nb: nat, lead: nat)
    requires 6 <= k <= 63 && nb >= 64 && MadeFor(m, nb + Pow2(k) + 64) && lead + 64 <= Pow2(k)
    ensures lead + MIN_LARGE <= m.size
  {
    hide DirectSize, Pow2;
    var a := Pow2(k);
    DirectSizeFits(nb + a + 64);
    if k >= 12 {
      PagePower(k);
      NextPage(a, DirectSize(nb + a + 64));
    } else {
      PowMonotone(k, 11);
      PowTable();
    }
  }

  /** The chunk size that `dlmalloc` looks for on behalf of `internal_memalign`. */
  lemma AlignRequestSize(k: nat, bytes: nat)
    requires bytes < MAX_REQUEST && AlignRequest(k, bytes) < MAX_REQUEST && k >= 6
    ensures MallocSize(AlignRequest(k, bytes)) == Request2Size(bytes) + Pow2(k) + 64
  {
    hide Pow2, Request2Size;
    PaddingFits(bytes);
    PowerGrid(k);
    GridPlus(Request2Size(bytes), Pow2(k));
    GridPad(Request2Size(bytes) + Pow2(k));
  }

  lemma SizeAsked(bytes: nat)
    ensures bytes < MAX_REQUEST ==> MallocSize(bytes) == Request2Size(bytes)
  {
  }

  lemma GridPad(x: nat)
    requires x % 64 == 0 && x + 192 < W64 && x >= 64
    ensures Request2Size(x + 56) == x + 64
  {
  }

  /** What the system answers to a request for memory. */
  datatype Answer = Fail | Region(base: nat)

  /** The system only grants memory that is not in use. */
  ghost predicate Answers(s: Store, w: World, answer: Answer, size: nat) {
    answer.Region? ==> Grantable(s, w, Segment(answer.base, size))
  }

  lemma InitializedLeast(s: Store, w: World)
    requires Sound(s, w) && s.top != 0
    ensures s.leastAddr > 0
  {
    hide Tiled, Tagged, Booked, VictimOk, MappingsOk, RegionsClear, LiveOk;
    TopHeld(s, w);
  }

  lemma FootprintBelow(s: Store, w: World)
    requires Sound(s, w)
    ensures s.footprint <= s.maxFootprint
  {
  }

  /** The writes of `add_segment`, step by step: `head2` before the fenceposts, `head3` after them. */
  lemma SegmentWritten(head: Heads, foot: Feet, top: int, end: int, seg: Segment, sp: int, head2: Heads, head3: Heads)
    requires TopSize(seg) > 0 && top + 64 <= sp && sp + RECORD + 32 <= end
             && (end <= seg.base || seg.base + seg.size <= top)
    requires seg.base <= Start(seg.base)
    requires var p, n := Start(seg.base), TopSize(seg);
             head2 == head[p := Head(n, false, true)][p + n := Head(TOP_FOOT, false, false)]
                 [sp := Head(RECORD, true, true)]
    requires sp + RECORD in head3 && head3[sp + RECORD] == Head(FENCE_HEAD, true, true)
    requires forall a | a in head2 && !(sp + RECORD <= a < end) :: a in head3 && head3[a] == head2[a]
    ensures sp in head3
    ensures var head' := head3[sp := head3[sp].(pinuse := false)][top := Head(sp - top, false, true)];
            && NewTags(top, sp, seg, head', foot[sp := sp - top])
            && Untouched(head, foot, top, end, seg, head', foot[sp := sp - top])
  {
    hide Start;
  }

  lemma SegmentBase(s: Store, w: World, seg: Segment)
    requires Grantable(s, w, seg)
    ensures seg.base > 0
  {
  }

  lemma GrantClear(s: Store, w: World, g: Segment, seg: Segment)
    requires Grantable(s, w, seg) && g in s.segs
    ensures ClearOf(g, seg)
  {
  }

  lemma TopHeld(s: Store, w: World)
    requires Sound(s, w) && s.top != 0
    ensures s.top in w.tiles && w.tiles[s.top].seg in s.segs
    ensures var g := w.tiles[s.top].seg; g.base <= s.top < g.base + g.size
  {
    hide Tiled, Tagged, Booked, VictimOk, MappingsOk, RegionsClear, LiveOk, Counted;
    TileAt(w.tiles, s.top);
  }

  /** The segment that holds the top ends with the foot area of the top, with room for the record. */
  lemma HeldBy(s: Store, w: World, g: Segment)
    requires s.top != 0 && g in s.segs && g.base <= s.top < g.base + g.size && Sound(s, w)
    ensures s.top in w.tiles && g == w.tiles[s.top].seg && g.base + g.size >= 160
    ensures var end, sp := g.base + g.size, RecordAt(g.base + g.size);
            && RecordOk(w.tiles, s.top, sp) && 0 < s.top && s.top + 64 <= sp && sp + RECORD + 32 <= end <= W64
            && (sp - s.top) % 8 == 0
  {
    hide Tiled, Tagged, Booked, VictimOk, MappingsOk, RegionsClear, LiveOk, Counted, Start;
    TopHeld(s, w);
    SameSegment(s.segs, g, w.tiles[s.top].seg, s.top);
    TileAt(w.tiles, s.top);
    TileAt(w.tiles, s.top + s.topsize);
    RecordFits(s.top, s.topsize, g.base + g.size);
    assert RegionOk(g);
  }

  /** Every fitting tree chunk, if any, fits no better than a victim of `dvsize` bytes. */
  ghost predicate VictimWins(sizes: Binned, dvsize: nat, nb: nat) {
    forall q | q in sizes && nb <= sizes[q] :: nb <= dvsize <= sizes[q]
  }

  ghost predicate BestChunk(sizes: Binned, p: int, nb: nat) {
    p in sizes && nb <= sizes[p] && forall q | q in sizes && nb <= sizes[q] :: sizes[p] <= sizes[q]
  }

  /** The wrapped comparison of remainders prefers the tree chunk exactly when it fits better than the victim. */
  lemma ChoiceIs(sizes: Binned, v: int, rsize: nat, nb: nat, dvsize: nat)
    requires IsBestFit(sizes, v, rsize, nb) && 0 < nb < W64 && dvsize < W64
    ensures (v == 0 || rsize >= Sub64(dvsize, nb)) <==> VictimWins(sizes, dvsize, nb)
    ensures v != 0 ==> v in sizes && rsize == sizes[v] - nb && BestChunk(sizes, v, nb)
  {
  }

  lemma TopNonzero(s: Store, w: World)
    requires Sound(s, w) && s.topsize > 0
    ensures s.top != 0
  {
  }

  lemma TopPlace(s: Store, w: World)
    requires Topped(s, w)
    ensures s.top in w.tiles && OnGrid(s.top)
  {
  }

  lemma TopHeadIs(head: Heads, top: int, topsize: nat, nb: nat)
    requires nb <= topsize
    ensures TopHead(head, top, topsize, nb) == head[top + nb := Head(topsize - nb, false, true)]
            [top := Head(nb, true, true)]
  {
  }

  lemma VictimBelow(s: Store, w: World)
    requires Sound(s, w)
    ensures s.dvsize < W64
  {
    hide Sound;
    VictimReady(s, w);
  }

  /** The bins after taking `p` with the remainder as victim: an old victim is shelved if a new one comes. */
  function VictimBins(binned: Binned, p: int, dv: int, dvsize: nat, split: bool): Binned {
    var b := binned - {p};
    if split && dvsize != 0 then b[dv := dvsize] else b
  }

  lemma IntoVictimSound(s: Store, w: World, p: int, size: nat, nb: nat, l: Layout, s': Store, w': World)
    requires p in w.binned && w.binned[p] == size && 0 < nb <= size && nb % 64 == 0 && l == TakeLayout(p, size, nb)
    requires l.e in s.head && p in w.tiles
    requires s' == s.(head := TakeHead(s.head, l), foot := TakeFoot(s.foot, l),
                      dv := if IsTwo(l) then p + nb else s.dv, dvsize := if IsTwo(l) then size - nb else s.dvsize)
    requires w' == World(Lay(w.tiles, l), w.mapped, VictimBins(w.binned, p, s.dv, s.dvsize, IsTwo(l)),
             w.live[p := l.size])
    requires Sound(s, w)
    ensures Sound(s', w') && Handed(w.live, w'.live, p, nb)
  {
    hide Sound, Lay, TakeHead, TakeFoot, Idling;
    VictimReady(s, w);
    BinnedIdle(s, w, p);
    IdleNext(s, w, p, size);
    if s.dv != 0 && IsTwo(l) {
      ShelvedSound(s, w);
      var s1, w1 := s.(dv := 0, dvsize := 0), w.(binned := w.binned[s.dv := s.dvsize]);
      BinnedIdle(s1, w1, p);
      assert w'.binned == Without(w1.binned, p);
      TakenSound(s1, w1, p, size, nb, l, s', w');
    } else {
      TakenSound(s, w, p, size, nb, l, s', w');
    }
  }

  lemma EmptySound(s: Store, w: World)
    requires s == Store(map[], map[], 0, 0, 0, 0, 0, 0, 0, []) && w == World(map[], map[], map[], map[])
    ensures Sound(s, w)
  {
  }

  /** Exactly one chunk, of at least `nb` bytes and with less than a minimal chunk to spare, has been handed out. */
  predicate Handed(live: Blocks, live': Blocks, p: int, nb: nat) {
    p > 0 && p !in live && p in live' && nb <= live'[p] < nb + MIN_CHUNK && live' == live[p := live'[p]]
  }

  lemma HandedExactly(live: Blocks, live': Blocks, p: int, nb: nat, size: nat)
    requires p > 0 && p !in live && nb <= size < nb + MIN_CHUNK && live' == live[p := size]
    ensures Handed(live, live', p, nb)
  {
  }

  lemma VictimReady(s: Store, w: World)
    requires Sound(s, w)
    ensures s.dv == 0 <==> s.dvsize == 0
    ensures s.dv != 0 ==> s.dv > 0 && s.dv !in w.binned && s.dvsize % 8 == 0 && Idling(s, w, s.dv, s.dvsize)
  {
    hide Tiled, Tagged, TopOk, SegmentsOk, MappingsOk, RegionsClear, LiveOk, Counted;
    if s.dv != 0 {
      IsIdling(s, w, s.dv);
      GridWord(s.dvsize);
    }
  }

  lemma IdleNext(s: Store, w: World, p: int, size: nat)
    requires Idling(s, w, p, size)
    ensures p > 0 && p + size in s.head && p in w.tiles && w.tiles[p].size == size && s.leastAddr <= p
            && size % 64 == 0 && size < W64
  {
  }

  lemma BinnedIdle(s: Store, w: World, p: int)
    requires Sound(s, w) && p in w.binned
    ensures Idling(s, w, p, w.binned[p]) && p != s.dv
  {
    hide Tiled, Tagged, TopOk, SegmentsOk, MappingsOk, RegionsClear, LiveOk, Counted, VictimOk;
    IsIdling(s, w, p);
  }
}
