/** Boundary tags: the heads and feet in memory agree with the tiles, and no two neighbouring chunks are free. */
module Tags {
  import opened ChunkHeads
  import opened Tiling

  type Feet = map<int, nat>

  const FENCE_HEAD: nat := 8

  function HeadSize(t: Tile): nat {
    if t.kind.Fence? then FENCE_HEAD else t.size
  }

  predicate Idle(k: Kind) {
    k.Free? || k.Top?
  }

  /** The head of tile `a`, what it writes into the tile behind it, and that nothing idle lies before an idle chunk. */
  predicate TagOk(c: Tiles, head: Heads, foot: Feet, a: int)
    requires a in c
  {
    var t := c[a];
    var next := a + t.size;
    && a in head && head[a].size == HeadSize(t) && head[a].cinuse == Busy(t.kind)
    && (!Last(t.kind) ==> next in head && head[next].pinuse == Busy(t.kind))
    && (t.kind.Free? ==> next in foot && foot[next] == t.size)
    && (Idle(t.kind) || t.kind.Fence? ==> head[a].pinuse)
  }

  /** Without `pinuse`, the foot leads back to the free chunk before. */
  predicate BackOk(c: Tiles, head: Heads, foot: Feet, a: int)
    requires a in c
  {
    a in head && !head[a].pinuse && !c[a].kind.Foot? ==>
      a in foot && a - foot[a] in c && c[a - foot[a]].kind.Free? && c[a - foot[a]].size == foot[a]
  }

  ghost predicate Tagged(c: Tiles, head: Heads, foot: Feet) {
    forall a | a in c :: TagOk(c, head, foot, a) && BackOk(c, head, foot, a)
  }

  lemma TagAt(c: Tiles, head: Heads, foot: Feet, a: int)
    requires Tagged(c, head, foot) && a in c
    ensures TagOk(c, head, foot, a) && BackOk(c, head, foot, a)
  {
  }

  /** Nothing has changed outside a new layout. */
  ghost predicate Outside(head: Heads, foot: Feet, l: Layout, head': Heads, foot': Feet) {
    && (forall a | a in head && !(l.q <= a <= l.e) :: a in head' && head'[a] == head[a])
    && (forall a | a in foot && !(l.q < a <= l.e) :: a in foot' && foot'[a] == foot[a])
  }

  /** The tags that a new layout needs. */
  predicate Rewritten(c: Tiles, head: Heads, foot: Feet, l: Layout, head': Heads, foot': Feet)
    requires l.e in c
  {
    var m := l.q + l.size;
    && l.q in head && l.e in head && l.q in head' && l.e in head'
    && head'[l.q] == Head(l.size, Busy(l.first), head[l.q].pinuse)
    && (IsTwo(l) ==> m in head' && head'[m] == Head(l.e - m, Busy(l.second), Busy(l.first)))
    && (l.first.Free? ==> m in foot' && foot'[m] == l.size)
    && (IsTwo(l) && l.second.Free? ==> l.e in foot' && foot'[l.e] == l.e - m)
    && head'[l.e] == head[l.e].(pinuse := Busy(LastKind(l)))
    && (Idle(l.first) ==> head[l.q].pinuse)
    && (IsTwo(l) && Idle(l.second) ==> Busy(l.first))
    && (Idle(c[l.e].kind) ==> Busy(LastKind(l)))
  }

  ghost predicate Retags(c: Tiles, head: Heads, foot: Feet, l: Layout, head': Heads, foot': Feet) {
    CanLay(c, l) && Outside(head, foot, l, head', foot') && Rewritten(c, head, foot, l, head', foot')
  }

  lemma RetagsFrame(head: Heads, foot: Feet, l: Layout, head': Heads, foot': Feet, a: int)
    requires Outside(head, foot, l, head', foot')
    ensures a in head && !(l.q <= a <= l.e) ==> a in head' && head'[a] == head[a]
    ensures a in foot && !(l.q < a <= l.e) ==> a in foot' && foot'[a] == foot[a]
  {
  }

  lemma TagBefore(c: Tiles, head: Heads, foot: Feet, l: Layout, head': Heads, foot': Feet, a: int)
    requires Tiled(c) && Tagged(c, head, foot) && Retags(c, head, foot, l, head', foot')
    requires a in c && a < l.q
    ensures a in Lay(c, l) && TagOk(Lay(c, l), head', foot', a) && BackOk(Lay(c, l), head', foot', a)
  {
    hide Tiled, Tagged, Lay, Outside;
    TileAt(c, a);
    TilesApart(c, a, l.q);
    TagAt(c, head, foot, a);
    LayIs(c, l, a);
    RetagsFrame(head, foot, l, head', foot', a);
    RetagsFrame(head, foot, l, head', foot', a + c[a].size);
    if a in foot {
      LayIs(c, l, a - foot[a]);
      if a - foot[a] in c {
        TileAt(c, a - foot[a]);
      }
    }
  }

  lemma TagBehind(c: Tiles, head: Heads, foot: Feet, l: Layout, head': Heads, foot': Feet, a: int)
    requires Tiled(c) && Tagged(c, head, foot) && Retags(c, head, foot, l, head', foot')
    requires a in c && a > l.e
    ensures a in Lay(c, l) && TagOk(Lay(c, l), head', foot', a) && BackOk(Lay(c, l), head', foot', a)
  {
    hide Tiled, Tagged, Lay, Outside;
    TileAt(c, a);
    TagAt(c, head, foot, a);
    LayIs(c, l, a);
    RetagsFrame(head, foot, l, head', foot', a);
    RetagsFrame(head, foot, l, head', foot', a + c[a].size);
    if a in foot && a - foot[a] in c && c[a - foot[a]].size == foot[a] {
      LayIs(c, l, a - foot[a]);
      if a - foot[a] < l.e {
        TilesApart(c, a - foot[a], l.e);
      }
    }
  }

  lemma TagEnd(c: Tiles, head: Heads, foot: Feet, l: Layout, head': Heads, foot': Feet)
    requires Tiled(c) && Tagged(c, head, foot) && Retags(c, head, foot, l, head', foot')
    ensures var c' := Lay(c, l); l.e in c' && TagOk(c', head', foot', l.e) && BackOk(c', head', foot', l.e)
  {
    hide Tiled, Tagged, Lay, Outside;
    TileAt(c, l.e);
    TagAt(c, head, foot, l.e);
    LayIs(c, l, l.e);
    LayIs(c, l, l.q);
    RetagsFrame(head, foot, l, head', foot', l.e + c[l.e].size);
  }

  lemma TagInside(c: Tiles, head: Heads, foot: Feet, l: Layout, head': Heads, foot': Feet, a: int)
    requires Tiled(c) && Tagged(c, head, foot) && Retags(c, head, foot, l, head', foot')
    requires a in Lay(c, l) && l.q <= a < l.e
    ensures TagOk(Lay(c, l), head', foot', a) && BackOk(Lay(c, l), head', foot', a)
  {
    hide Tiled, Tagged, Lay, Outside;
    LayIs(c, l, a);
    if a == l.q {
      TileAt(c, l.q);
      TagAt(c, head, foot, l.q);
      RetagsFrame(head, foot, l, head', foot', l.q);
      if l.q in foot && l.q - foot[l.q] in c {
        LayIs(c, l, l.q - foot[l.q]);
        TileAt(c, l.q - foot[l.q]);
      }
    }
  }

  /** Whoever writes the tags of a new layout right keeps all tags right. */
  lemma Retagged(c: Tiles, head: Heads, foot: Feet, l: Layout, head': Heads, foot': Feet)
    requires Tiled(c) && Tagged(c, head, foot) && Retags(c, head, foot, l, head', foot')
    ensures Tagged(Lay(c, l), head', foot')
  {
    assert l.q in c;
    hide Tiled, Lay, Outside, Rewritten, TagOk, BackOk;
    forall a | a in Lay(c, l)
      ensures TagOk(Lay(c, l), head', foot', a) && BackOk(Lay(c, l), head', foot', a)
    {
      LayIs(c, l, a);
      if a < l.q {
        TagBefore(c, head, foot, l, head', foot', a);
      } else if a > l.e {
        TagBehind(c, head, foot, l, head', foot', a);
      } else if a == l.e {
        TagEnd(c, head, foot, l, head', foot');
      } else {
        TagInside(c, head, foot, l, head', foot', a);
      }
    }
  }
}
