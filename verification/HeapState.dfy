/** The whole `malloc_state`: tiles, tags, bins, designated victim, top, segments and directly mapped chunks. */
module HeapState {
  import opened Words
  import opened SizeClasses
  import opened TreeLinks
  import opened ChunkHeads
  import opened Tiling
  import opened Tags

  /** A directly mapped chunk: `offset` bytes lie before it in its region, 32 behind it. */
  datatype Mapping = Mapping(size: nat, offset: nat)

  type Mappings = map<int, Mapping>
  type Blocks = map<int, nat>

  const FOOT_PAD: nat := 32

  /** The fields of `malloc_state` other than the bins, with the heads and feet in memory. */
  datatype Store = Store(head: Heads, foot: Feet, dv: int, dvsize: nat, top: int, topsize: nat,
                         leastAddr: nat, footprint: nat, maxFootprint: nat, segs: seq<Segment>)

  /** What the system has granted: segments, bytes held now and at most, and the lowest address. */
  datatype Account = Account(segs: seq<Segment>, footprint: nat, maxFootprint: nat, leastAddr: nat)

  function AccountOf(s: Store): Account {
    Account(s.segs, s.footprint, s.maxFootprint, s.leastAddr)
  }

  /** The same after a grant, which is a segment or not. */
  function Credited(a: Account, base: nat, size: nat, segment: bool): Account {
    Account(if segment then [Segment(base, size)] + a.segs else a.segs, a.footprint + size,
            if a.maxFootprint < a.footprint + size then a.footprint + size else a.maxFootprint,
            if a.leastAddr == 0 || base < a.leastAddr then base else a.leastAddr)
  }

  /**
   What it stands for: the tiles, the directly mapped chunks, the free chunks in bins, and the chunks that clients
   hold.
   */
  datatype World = World(tiles: Tiles, mapped: Mappings, binned: Binned, live: Blocks)

  // ---------- the free chunks ----------

  /** Each free chunk other than the designated victim is binned with its size, and nothing else is. */
  ghost predicate Booked(c: Tiles, binned: Binned, dv: int) {
    && (forall a | a in c && c[a].kind.Free? && a != dv :: a in binned)
    && (forall a | a in binned :: a in c && c[a].kind.Free? && a != dv && c[a].size == binned[a])
  }

  predicate VictimOk(c: Tiles, dv: int, dvsize: nat) {
    && (dv == 0 <==> dvsize == 0)
    && (dv != 0 ==> dv in c && c[dv].kind.Free? && c[dv].size == dvsize)
  }

  ghost predicate TopOk(c: Tiles, top: int, topsize: nat) {
    && (top == 0 <==> topsize == 0)
    && (if top == 0 then c == map[] else top in c && c[top].kind.Top? && c[top].size == topsize)
    && forall a | a in c && c[a].kind.Top? :: a == top
  }

  // ---------- the regions ----------

  /** `align_as_chunk`: the first chunk address of a region. */
  function Start(base: nat): int {
    base + (48 - base % 64 + 64) % 64
  }

  function RegionOf(p: int, m: Mapping): Segment
    requires m.offset <= p
  {
    Segment(p - m.offset, m.offset + m.size + FOOT_PAD)
  }

  predicate RegionOk(r: Segment) {
    0 < r.base && r.base % 8 == 0 && r.base + r.size <= W64
  }

  predicate ClearOf(r: Segment, r': Segment) {
    r.base + r.size <= r'.base || r'.base + r'.size <= r.base
  }

  ghost predicate SegmentsOk(c: Tiles, segs: seq<Segment>, leastAddr: nat) {
    && (forall a | a in c :: c[a].seg in segs)
    && (forall s | s in segs ::
         RegionOk(s) && leastAddr <= s.base && Start(s.base) in c && c[Start(s.base)].seg == s
         && !c[Start(s.base)].kind.Foot?)
    && (forall i, j | 0 <= i < j < |segs| :: ClearOf(segs[i], segs[j]))
  }

  predicate MappingOk(head: Heads, foot: Feet, leastAddr: nat, p: int, m: Mapping) {
    && OnGrid(p) && !IsSmall(m.size) && MappedLength(m) % 4096 == 0 && m.size % 8 == 0 && m.offset < p
       && p + m.size + FOOT_PAD <= W64
    && leastAddr <= p - m.offset
    && p in head && head[p] == Head(m.size, false, false)
    && p in foot && foot[p] == m.offset
    && p + m.size in head && head[p + m.size] == Head(FENCE_HEAD, true, true)
    && p + m.size + 8 in head && head[p + m.size + 8] == Head(0, false, false)
  }

  ghost predicate MappingsOk(head: Heads, foot: Feet, leastAddr: nat, mapped: Mappings) {
    && (forall p | p in mapped :: MappingOk(head, foot, leastAddr, p, mapped[p]))
    && (forall p, q | p in mapped && q in mapped && p != q && mapped[p].offset <= p && mapped[q].offset <= q ::
          ClearOf(RegionOf(p, mapped[p]), RegionOf(q, mapped[q])))
  }

  ghost predicate RegionsClear(segs: seq<Segment>, mapped: Mappings) {
    forall s, p | s in segs && p in mapped && mapped[p].offset <= p :: ClearOf(s, RegionOf(p, mapped[p]))
  }

  // ---------- conservation ----------

  function SegmentBytes(segs: seq<Segment>): nat {
    if segs == [] then 0 else segs[0].size + SegmentBytes(segs[1..])
  }

  function MappedLength(m: Mapping): nat {
    m.offset + m.size + FOOT_PAD
  }

  lemma SomeMapping(mapped: Mappings)
    ensures mapped == map[] || exists p :: p in mapped
  {
    if forall p :: p !in mapped {
      assert mapped == map[];
    }
  }

  ghost function MappedBytes(mapped: Mappings): nat {
    SomeMapping(mapped);
    if mapped == map[] then 0
    else var p :| p in mapped; MappedLength(mapped[p]) + MappedBytes(mapped - {p})
  }

  predicate LiveKind(c: Tiles, mapped: Mappings, a: int) {
    (a in c && c[a].kind.Used?) || a in mapped
  }

  /** The chunks that clients hold are the used tiles and the mapped chunks. */
  ghost predicate LiveOk(c: Tiles, mapped: Mappings, live: Blocks) {
    && (forall a | a in live :: LiveKind(c, mapped, a))
    && (forall a | a in c && c[a].kind.Used? :: a in live && live[a] == c[a].size)
    && (forall a | a in mapped :: a in live && live[a] == mapped[a].size)
  }

  ghost predicate Counted(s: Store, mapped: Mappings) {
    && s.footprint == SegmentBytes(s.segs) + MappedBytes(mapped) && s.footprint <= s.maxFootprint
    && (s.leastAddr == 0 ==> mapped == map[] && s.segs == [])
  }

  ghost predicate Sound(s: Store, w: World) {
    && Tiled(w.tiles) && Tagged(w.tiles, s.head, s.foot)
    && Booked(w.tiles, w.binned, s.dv) && VictimOk(w.tiles, s.dv, s.dvsize) && TopOk(w.tiles, s.top, s.topsize)
    && SegmentsOk(w.tiles, s.segs, s.leastAddr)
    && MappingsOk(s.head, s.foot, s.leastAddr, w.mapped) && RegionsClear(s.segs, w.mapped)
    && LiveOk(w.tiles, w.mapped, w.live) && Counted(s, w.mapped)
  }

  lemma {:induction false} MappedRemove(mapped: Mappings, p: int)
    requires p in mapped
    ensures MappedBytes(mapped) == MappedLength(mapped[p]) + MappedBytes(mapped - {p})
    decreases mapped
  {
    var k :| k in mapped && MappedBytes(mapped) == MappedLength(mapped[k]) + MappedBytes(mapped - {k});
    if k != p {
      MappedRemove(mapped - {k}, p);
      MappedRemove(mapped - {p}, k);
      assert mapped - {k} - {p} == mapped - {p} - {k};
    }
  }

  lemma MappedAdd(mapped: Mappings, p: int, m: Mapping)
    requires p !in mapped
    ensures MappedBytes(mapped[p := m]) == MappedLength(m) + MappedBytes(mapped)
  {
    MappedRemove(mapped[p := m], p);
    assert mapped[p := m] - {p} == mapped;
  }
}
