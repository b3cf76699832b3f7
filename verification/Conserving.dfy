/** Conservation: where the bytes that the system granted are. */
module Conservation {
  import opened Tiling
  import opened Tags
  import opened HeapState
  import opened Growing

  lemma SomeTile(c: Tiles)
    ensures c == map[] || exists a :: a in c
  {
    if forall a :: a !in c {
      assert c == map[];
    }
  }

  /** The sizes of all tiles together. */
  ghost function Bytes(c: Tiles): nat {
    SomeTile(c);
    if c == map[] then 0
    else var a :| a in c; c[a].size + Bytes(c - {a})
  }

  lemma {:induction false} BytesRemove(c: Tiles, a: int)
    requires a in c
    ensures Bytes(c) == c[a].size + Bytes(c - {a})
    decreases c
  {
    var k :| k in c && Bytes(c) == c[k].size + Bytes(c - {k});
    if k != a {
      BytesRemove(c - {k}, a);
      BytesRemove(c - {a}, k);
      assert c - {k} - {a} == c - {a} - {k};
    }
  }

  lemma BytesAdd(c: Tiles, a: int, t: Tile)
    requires a !in c
    ensures Bytes(c[a := t]) == t.size + Bytes(c)
  {
    BytesRemove(c[a := t], a);
    assert c[a := t] - {a} == c;
  }

  lemma SameTiles(c: Tiles, d: Tiles)
    requires forall a | a in c :: a in d && c[a] == d[a]
    requires forall a | a in d :: a in c
    ensures c == d
  {
    assert c.Keys == d.Keys by {
      assert forall a :: a in c.Keys <==> a in d.Keys;
    }
    assert forall a | a in c.Keys :: c[a] == d[a];
  }

  lemma {:induction false} BytesSplit(c: Tiles, d: Tiles, e: Tiles)
    requires forall a :: a in c <==> a in d || a in e
    requires forall a :: a in d ==> a !in e && d[a] == c[a]
    requires forall a :: a in e ==> e[a] == c[a]
    ensures Bytes(c) == Bytes(d) + Bytes(e)
    decreases d
  {
    SomeTile(d);
    if d == map[] {
      SameTiles(c, e);
    } else {
      var a :| a in d;
      BytesRemove(c, a);
      BytesRemove(d, a);
      BytesSplit(c - {a}, d - {a}, e);
    }
  }

  // ---------- one segment ----------

  /** The tiles of segment `g` from address `q` on. */
  function From(c: Tiles, g: Segment, q: int): Tiles {
    map a | a in c && c[a].seg == g && q <= a :: c[a]
  }

  /** Tiles follow each other without a gap up to the end of the segment. */
  lemma {:induction false} FromIs(c: Tiles, g: Segment, q: int)
    requires q in c && c[q].seg == g && Tiled(c)
    ensures Bytes(From(c, g, q)) == g.base + g.size - q
    decreases g.base + g.size - q
  {
    hide Tiled;
    TileAt(c, q);
    var next := q + c[q].size;
    var rest := From(c, g, next);
    forall a | a in c && c[a].seg == g && q <= a
      ensures a == q || next <= a
    {
      if q < a {
        TilesApart(c, q, a);
      }
    }
    assert From(c, g, q) == rest[q := c[q]];
    BytesAdd(rest, q, c[q]);
    if Last(c[q].kind) {
      forall a | a in rest
        ensures false
      {
        TileAt(c, a);
        assert false;
      }
      assert rest == map[];
    } else {
      FromIs(c, g, next);
    }
  }

  /** No tile lies before the first chunk. */
  lemma StartFirst(c: Tiles, g: Segment, a: int)
    requires Start(g.base) in c && a in c && c[a].seg == g && Tiled(c)
    ensures Start(g.base) <= a
  {
    hide Tiled, Start;
    TileAt(c, a);
    StartIs(g.base);
    if a < Start(g.base) {
      TilesApart(c, a, Start(g.base));
    }
  }

  /** The first chunk of a segment has nothing free before it. */
  lemma StartInuse(s: Store, w: World, g: Segment)
    requires g in s.segs && Sound(s, w)
    ensures Start(g.base) in s.head && s.head[Start(g.base)].pinuse
  {
    hide Booked, VictimOk, TopOk, Counted, LiveOk, Tagged, Tiled, MappingsOk, RegionsClear, Start;
    var q := Start(g.base);
    TagAt(w.tiles, s.head, s.foot, q);
    TileAt(w.tiles, q);
    if !s.head[q].pinuse {
      var b := q - s.foot[q];
      TileAt(w.tiles, b);
      StartFirst(w.tiles, g, b);
    }
  }

  // ---------- all segments ----------

  function TilesOf(c: Tiles, segs: seq<Segment>): Tiles {
    map a | a in c && c[a].seg in segs :: c[a]
  }

  /** The bytes before the first chunks of the segments. */
  function Gaps(segs: seq<Segment>): int {
    if segs == [] then 0 else Start(segs[0].base) - segs[0].base + Gaps(segs[1..])
  }

  predicate Distinct(segs: seq<Segment>) {
    forall i, j | 0 <= i < j < |segs| :: segs[i] != segs[j]
  }

  lemma {:induction false} SegmentsFilled(c: Tiles, segs: seq<Segment>)
    requires Tiled(c) && Distinct(segs)
    requires forall g | g in segs :: Start(g.base) in c && c[Start(g.base)].seg == g
    ensures Bytes(TilesOf(c, segs)) + Gaps(segs) == SegmentBytes(segs)
    decreases |segs|
  {
    hide Tiled, Start;
    if segs == [] {
      assert TilesOf(c, segs) == map[];
    } else {
      var g, rest := segs[0], segs[1..];
      SegmentsFilled(c, rest);
      FromIs(c, g, Start(g.base));
      forall a | a in c && c[a].seg == g
        ensures Start(g.base) <= a
      {
        StartFirst(c, g, a);
      }
      assert segs == [g] + rest && g !in rest;
      BytesSplit(TilesOf(c, segs), From(c, g, Start(g.base)), TilesOf(c, rest));
    }
  }

  // ---------- by kind ----------

  function OfKind(c: Tiles, k: Kind): Tiles {
    map a | a in c && c[a].kind == k :: c[a]
  }

  function Except(c: Tiles, kinds: set<Kind>): Tiles {
    map a | a in c && c[a].kind !in kinds :: c[a]
  }

  lemma KindSplit(c: Tiles, kinds: set<Kind>, k: Kind)
    requires k !in kinds
    ensures Bytes(Except(c, kinds)) == Bytes(OfKind(c, k)) + Bytes(Except(c, kinds + {k}))
  {
    BytesSplit(Except(c, kinds), OfKind(c, k), Except(c, kinds + {k}));
  }

  lemma KindsSum(c: Tiles)
    ensures Bytes(c) == Bytes(OfKind(c, Used)) + Bytes(OfKind(c, Record)) + Bytes(OfKind(c, Free))
                      + Bytes(OfKind(c, Top)) + Bytes(OfKind(c, Foot)) + Bytes(OfKind(c, Fence))
  {
    hide Bytes, OfKind, Except;
    NoneExcepted(c);
    KindSplit(c, {}, Used);
    KindSplit(c, {Used}, Record);
    KindSplit(c, {Used, Record}, Free);
    KindSplit(c, {Used, Record, Free}, Top);
    KindSplit(c, {Used, Record, Free, Top}, Foot);
    assert {} + {Used} == {Used} && {Used} + {Record} == {Used, Record}
           && {Used, Record} + {Free} == {Used, Record, Free};
    assert {Used, Record, Free} + {Top} == {Used, Record, Free, Top};
    FencesLeft(c);
  }

  lemma NoneExcepted(c: Tiles)
    ensures Except(c, {}) == c
  {
    SameTiles(Except(c, {}), c);
  }

  lemma FencesLeft(c: Tiles)
    ensures Except(c, {Used, Record, Free, Top} + {Foot}) == OfKind(c, Fence)
  {
    forall a | a in c
      ensures c[a].kind !in {Used, Record, Free, Top} + {Foot} <==> c[a].kind == Fence
    {
      match c[a].kind
      case _ =>
    }
  }

  /** The foot area of a segment lies behind a top chunk. */
  lemma {:induction false} FootBehindTop(c: Tiles, q: int, a: int) returns (t: int)
    requires q in c && a in c && c[q].seg == c[a].seg && q <= a && c[a].kind.Foot? && !c[q].kind.Foot? && Tiled(c)
    ensures t in c && c[t].kind.Top? && t + c[t].size == a
    decreases a - q
  {
    hide Tiled;
    TileAt(c, q);
    TileAt(c, a);
    TilesApart(c, q, a);
    var next := q + c[q].size;
    TileAt(c, next);
    if c[next].kind.Foot? {
      if next < a {
        TilesApart(c, next, a);
      }
      t := q;
    } else {
      t := FootBehindTop(c, next, a);
    }
  }

  lemma OneTop(s: Store, w: World)
    requires s.top != 0 && Sound(s, w)
    ensures Bytes(OfKind(w.tiles, Top)) == s.topsize && Bytes(OfKind(w.tiles, Foot)) == TOP_FOOT
  {
    hide Tagged, Booked, VictimOk, MappingsOk, RegionsClear, LiveOk, Counted, Tiled, Bytes, Start;
    var c, f := w.tiles, s.top + s.topsize;
    TileAt(c, s.top);
    TileAt(c, f);
    forall a | a in c && c[a].kind.Foot?
      ensures a == f
    {
      assert c[a].seg in s.segs;
      var q := Start(c[a].seg.base);
      StartFirst(c, c[a].seg, a);
      var t := FootBehindTop(c, q, a);
    }
    SameTiles(OfKind(c, Top), map[][s.top := c[s.top]]);
    SameTiles(OfKind(c, Foot), map[][f := c[f]]);
    BytesAdd(map[], s.top, c[s.top]);
    BytesAdd(map[], f, c[f]);
    NoBytes();
  }

  lemma NoBytes()
    ensures Bytes(map[]) == 0
  {
  }

  lemma SegmentsDistinct(s: Store, w: World)
    requires SegmentsOk(w.tiles, s.segs, s.leastAddr) && Tiled(w.tiles)
    ensures Distinct(s.segs)
  {
    hide Tiled, Start;
    forall i, j | 0 <= i < j < |s.segs|
      ensures s.segs[i] != s.segs[j]
    {
      assert ClearOf(s.segs[i], s.segs[j]);
      assert s.segs[i] in s.segs;
      TileAt(w.tiles, Start(s.segs[i].base));
    }
  }

  /** All tiles, the gaps before the first chunks and the mapped regions add up to what the system granted. */
  lemma TilesConserved(s: Store, w: World)
    requires Sound(s, w)
    ensures Bytes(w.tiles) + Gaps(s.segs) + MappedBytes(w.mapped) == s.footprint
  {
    hide Tagged, Booked, VictimOk, TopOk, MappingsOk, RegionsClear, LiveOk, Tiled, Start, Bytes, Gaps;
    SegmentsDistinct(s, w);
    SegmentsFilled(w.tiles, s.segs);
    SameTiles(TilesOf(w.tiles, s.segs), w.tiles);
  }

  /**
   Nothing is lost: blocks in use, segment records, free chunks, the top with its foot area, fenceposts, alignment
   gaps and mapped regions add up to the footprint.
   */
  lemma Conserved(s: Store, w: World)
    requires s.top != 0 && Sound(s, w)
    ensures s.footprint == Bytes(OfKind(w.tiles, Used)) + Bytes(OfKind(w.tiles, Free)) + s.topsize + TOP_FOOT
                         + Bytes(OfKind(w.tiles, Record)) + Bytes(OfKind(w.tiles, Fence)) + Gaps(s.segs)
                             + MappedBytes(w.mapped)
  {
    hide Sound, Bytes, Gaps, MappedBytes, OfKind;
    TilesConserved(s, w);
    KindsSum(w.tiles);
    OneTop(s, w);
  }

  // ---------- the walk over the segments ----------

  lemma {:induction false} GapsSnoc(segs: seq<Segment>, i: nat)
    requires i < |segs|
    ensures Gaps(segs[..i + 1]) == Gaps(segs[..i]) + Start(segs[i].base) - segs[i].base
    decreases i
  {
    hide Start;
    if i > 0 {
      GapsSnoc(segs[1..], i - 1);
      assert segs[..i + 1][1..] == segs[1..][..i] && segs[..i][1..] == segs[1..][..i - 1];
    }
  }

  /** The fenceposts of some segments. */
  function FencesOf(c: Tiles, segs: seq<Segment>): Tiles {
    OfKind(TilesOf(c, segs), Fence)
  }

  /** The last tile of a segment is its only foot area or fenceposts. */
  lemma OneLast(c: Tiles, q: int, a: int)
    requires q in c && a in c && c[q].seg == c[a].seg && Last(c[q].kind) && Last(c[a].kind) && Tiled(c)
    ensures q == a
  {
    hide Tiled;
    TileAt(c, q);
    TileAt(c, a);
    if q < a {
      TilesApart(c, q, a);
    } else if a < q {
      TilesApart(c, a, q);
    }
  }

  lemma FenceStep(s: Store, w: World, i: nat, q: int)
    requires i < |s.segs| && q in w.tiles && w.tiles[q].seg == s.segs[i] && (q == s.top || w.tiles[q].kind.Fence?)
             && s.top != 0
    requires Sound(s, w)
    ensures Bytes(FencesOf(w.tiles, s.segs[..i + 1]))
         == Bytes(FencesOf(w.tiles, s.segs[..i])) + if q == s.top then 0 else w.tiles[q].size
  {
    hide Tagged, Booked, VictimOk, MappingsOk, RegionsClear, LiveOk, Counted, Tiled, Bytes, Start;
    var c, f := w.tiles, s.top + s.topsize;
    TileAt(c, s.top);
    SegmentsDistinct(s, w);
    assert s.segs[..i + 1] == s.segs[..i] + [s.segs[i]] && s.segs[i] !in s.segs[..i];
    forall a | a in c && c[a].seg == s.segs[i] && c[a].kind.Fence?
      ensures q != s.top && a == q
    {
      if q == s.top {
        OneLast(c, f, a);
      } else {
        OneLast(c, q, a);
      }
    }
    var before := FencesOf(c, s.segs[..i]);
    if q == s.top {
      SameTiles(FencesOf(c, s.segs[..i + 1]), before);
    } else {
      SameTiles(FencesOf(c, s.segs[..i + 1]), before[q := c[q]]);
      BytesAdd(before, q, c[q]);
    }
  }

  lemma AllFences(s: Store, w: World)
    requires Sound(s, w)
    ensures FencesOf(w.tiles, s.segs) == OfKind(w.tiles, Fence)
  {
    hide Tagged, Booked, VictimOk, TopOk, MappingsOk, RegionsClear, LiveOk, Counted, Tiled;
    SameTiles(FencesOf(w.tiles, s.segs), OfKind(w.tiles, Fence));
  }

  lemma NoFences(c: Tiles)
    ensures Bytes(FencesOf(c, [])) == 0
  {
    SameTiles(FencesOf(c, []), map[]);
  }
}
