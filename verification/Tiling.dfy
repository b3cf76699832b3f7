/**
 How chunks tile the segments. A tile is a chunk, the foot area behind the top chunk, or the fenceposts at the end
 of an older segment. Plain chunks lie on a 64-byte grid and are at least 64 bytes long, so that the words of a chunk
 (its head, its links, and the foot word that belongs to the chunk before it) never overlap those of another.
 */
module Tiling {

  datatype Kind = Used | Record | Free | Top | Foot | Fence

  datatype Segment = Segment(base: nat, size: nat)

  datatype Tile = Tile(size: nat, kind: Kind, seg: Segment)

  type Tiles = map<int, Tile>

  const TOP_FOOT: nat := 176

  /** The tile counts as in use: its `cinuse` bit is set, and `pinuse` of the tile behind it. */
  predicate Busy(k: Kind) {
    k.Used? || k.Record? || k.Fence?
  }

  predicate Plain(k: Kind) {
    k.Used? || k.Record? || k.Free?
  }

  /** The last tile of a segment. */
  predicate Last(k: Kind) {
    k.Foot? || k.Fence?
  }

  predicate OnGrid(a: int) {
    a > 0 && a % 64 == 48
  }

  /** What a tile of kind `k` may look like. */
  predicate Sizable(a: int, size: nat, k: Kind) {
    && a > 0 && size > 0
    && (Plain(k) ==> OnGrid(a) && size % 64 == 0)
    && (k.Top? ==> OnGrid(a) && size % 8 == 0)
    && (k.Foot? ==> size == TOP_FOOT)
    && (k.Fence? ==> OnGrid(a))
  }

  predicate Within(seg: Segment, a: int, size: nat) {
    seg.base <= a && a + size <= seg.base + seg.size
  }

  /**
   Tile `a` fits its kind and segment and is followed by another tile unless it is the last one. The foot area follows
   the top, and fenceposts follow a segment record.
   */
  predicate TileOk(c: Tiles, a: int)
    requires a in c
  {
    var t := c[a];
    && Sizable(a, t.size, t.kind) && Within(t.seg, a, t.size)
    && (if Last(t.kind) then a + t.size == t.seg.base + t.seg.size
        else && a + t.size in c && c[a + t.size].seg == t.seg && (c[a + t.size].kind.Foot? <==> t.kind.Top?)
             && (c[a + t.size].kind.Fence? ==> t.kind.Record?))
  }

  predicate Apart(c: Tiles, a: int, b: int)
    requires a in c && b in c
  {
    a < b ==> a + c[a].size <= b
  }

  ghost predicate Disjoint(c: Tiles) {
    forall a, b | a in c && b in c :: Apart(c, a, b)
  }

  ghost predicate AllTiles(c: Tiles) {
    forall a | a in c :: TileOk(c, a)
  }

  ghost predicate Tiled(c: Tiles) {
    AllTiles(c) && Disjoint(c)
  }

  lemma TileAt(c: Tiles, a: int)
    requires Tiled(c) && a in c
    ensures TileOk(c, a)
  {
  }

  lemma TilesApart(c: Tiles, a: int, b: int)
    requires Tiled(c) && a in c && b in c && a < b
    ensures a + c[a].size <= b
  {
    assert Apart(c, a, b);
  }

  /** One or two chunks in place of whatever tiles lay between `q` and `e`. */
  datatype Layout = Layout(q: int, e: int, size: nat, first: Kind, second: Kind)

  predicate IsTwo(l: Layout) {
    l.q + l.size < l.e
  }

  function LastKind(l: Layout): Kind {
    if IsTwo(l) then l.second else l.first
  }

  predicate CanLay(c: Tiles, l: Layout) {
    && l.q in c && l.e in c && c[l.q].seg == c[l.e].seg && !Last(c[l.q].kind)
    && l.q + l.size <= l.e
    && Sizable(l.q, l.size, l.first) && !Last(l.first)
    && (IsTwo(l) ==> Plain(l.first) && Sizable(l.q + l.size, l.e - l.q - l.size, l.second) && !Last(l.second))
    && (LastKind(l).Top? <==> c[l.e].kind.Foot?) && (c[l.e].kind.Fence? ==> LastKind(l).Record?)
  }

  function Lay(c: Tiles, l: Layout): Tiles
    requires l.q in c
  {
    var cut := map a | a in c && !(l.q <= a < l.e) :: c[a];
    var one := cut[l.q := Tile(l.size, l.first, c[l.q].seg)];
    if IsTwo(l) then one[l.q + l.size := Tile(l.e - l.q - l.size, l.second, c[l.q].seg)] else one
  }

  lemma LayIs(c: Tiles, l: Layout, a: int)
    requires CanLay(c, l)
    ensures a < l.q || a >= l.e ==> (a in Lay(c, l) <==> a in c) && (a in c ==> Lay(c, l)[a] == c[a])
    ensures l.q <= a < l.e ==> (a in Lay(c, l) <==> a == l.q || (IsTwo(l) && a == l.q + l.size))
    ensures l.q in Lay(c, l) && Lay(c, l)[l.q] == Tile(l.size, l.first, c[l.q].seg)
    ensures IsTwo(l) ==> l.q + l.size in Lay(c, l)
    ensures IsTwo(l) ==> Lay(c, l)[l.q + l.size] == Tile(l.e - l.q - l.size, l.second, c[l.q].seg)
  {
  }

  /** A new tiling is proper again. */
  lemma LayTiled(c: Tiles, l: Layout)
    requires Tiled(c) && CanLay(c, l)
    ensures Tiled(Lay(c, l))
  {
    var c' := Lay(c, l);
    forall a | a in c'
      ensures TileOk(c', a)
    {
      LayTile(c, l, a);
    }
    forall a, b | a in c' && b in c'
      ensures Apart(c', a, b)
    {
      LayApart(c, l, a, b);
    }
  }

  lemma LayTile(c: Tiles, l: Layout, a: int)
    requires Tiled(c) && CanLay(c, l) && a in Lay(c, l)
    ensures TileOk(Lay(c, l), a)
  {
    hide Tiled, Lay;
    LayIs(c, l, a);
    TileAt(c, l.q);
    TileAt(c, l.e);
    LayIs(c, l, l.e);
    if a < l.q {
      TileAt(c, a);
      TilesApart(c, a, l.q);
      LayIs(c, l, a + c[a].size);
    } else if a >= l.e {
      TileAt(c, a);
      LayIs(c, l, a + c[a].size);
    }
  }

  lemma LayApart(c: Tiles, l: Layout, a: int, b: int)
    requires Tiled(c) && CanLay(c, l) && a in Lay(c, l) && b in Lay(c, l)
    ensures Apart(Lay(c, l), a, b)
  {
    hide Tiled, Lay;
    LayIs(c, l, a);
    LayIs(c, l, b);
    if a < b {
      if a in c && b in c && !(l.q <= a < l.e) {
        TilesApart(c, a, b);
      }
      if a < l.q {
        TilesApart(c, a, l.q);
      }
    }
  }
}
