/** Resizing a chunk in use: splitting it, and growing it into the top, the victim or a free chunk behind it. */
module Resizing {
  import opened TreeLinks
  import opened ChunkHeads
  import opened Tiling
  import opened Tags
  import opened HeapState
  import opened HeapSteps
  import opened Coalescing

  /** The head at `a`, whatever is there. */
  function Stale(head: Heads, a: int): Head {
    if a in head then head[a] else Head(0, false, false)
  }

  /** `set_inuse`: keeps `pinuse` of the chunk and sets that of the word behind it. */
  function SetInuse(head: Heads, p: int, size: nat): Heads {
    head[p := Head(size, true, Stale(head, p).pinuse)][p + size := Stale(head, p + size).(pinuse := true)]
  }

  /** The chunk and how far the layout reaches: to the next tile, or over that one when it is idle. */
  ghost predicate Reaches(s: Store, w: World, p: int, l: Layout, next: int) {
    && Around(s, w, p) && next == p + w.tiles[p].size && l.q == p && l.first.Used? && 0 < l.size && p + l.size <= l.e
    && (l.e == next || (Followed(s, w, p, next) && l.e == next + w.tiles[next].size))
  }

  function NewHead(head: Heads, l: Layout): Heads
    requires l.q in head && l.e in head
  {
    var h := head[l.q := Head(l.size, true, head[l.q].pinuse)];
    if IsTwo(l) then
      h[l.q + l.size := Head(l.e - l.q - l.size, Busy(l.second), true)][l.e := head[l.e].(pinuse := Busy(l.second))]
    else h[l.e := head[l.e].(pinuse := true)]
  }

  function NewFoot(foot: Feet, l: Layout): Feet {
    if IsTwo(l) && l.second.Free? then foot[l.e := l.e - l.q - l.size] else foot
  }

  lemma ResizeRetags(s: Store, w: World, p: int, l: Layout, next: int)
    requires Reaches(s, w, p, l, next) && CanLay(w.tiles, l)
             && (IsTwo(l) && Idle(l.second) ==> !Idle(w.tiles[l.e].kind))
    ensures l.q in s.head && l.e in s.head && Retags(w.tiles, s.head, s.foot, l, NewHead(s.head, l), NewFoot(s.foot, l))
  {
    hide HeadSize;
  }

  lemma ResizeMembers(s: Store, w: World, p: int, l: Layout, next: int, a: int)
    requires Reaches(s, w, p, l, next) && Tiled(w.tiles) && a in w.tiles && Among(l, a)
    ensures a == p || (a == next && l.e > next)
  {
    hide Tiled;
    if p < a < next {
      TilesApart(w.tiles, p, a);
    } else if next < a {
      TilesApart(w.tiles, next, a);
    }
  }

  /** What happens to bins, victim, top and clients. */
  ghost predicate Resizes(s: Store, w: World, p: int, l: Layout, next: int, s': Store, w': World)
    requires l.q in s.head && l.e in s.head && l.q in w.tiles
  {
    var m, rest := l.q + l.size, l.e - l.q - l.size;
    var swallowed := l.e > next;
    && s' == s.(head := NewHead(s.head, l), foot := NewFoot(s.foot, l), dv := s'.dv, dvsize := s'.dvsize,
       top := s'.top, topsize := s'.topsize)
    && w'.tiles == Lay(w.tiles, l) && w'.mapped == w.mapped
    && w'.binned == (if swallowed then Without(w.binned, next) else w.binned)
    && (if swallowed && s.dv == next then
          if IsTwo(l) && l.second.Free? then s'.dv == m && s'.dvsize == rest else s'.dv == 0 && s'.dvsize == 0
        else s'.dv == s.dv && s'.dvsize == s.dvsize)
    && (IsTwo(l) && l.second.Free? ==> swallowed && s.dv == next)
    && (if IsTwo(l) && l.second.Top? then swallowed && s.top == next && s'.top == m && s'.topsize == rest
        else s'.top == s.top && s'.topsize == s.topsize && (swallowed ==> s.top != next))
    && w'.live == (if IsTwo(l) && l.second.Used? then w.live[p := l.size][m := rest] else w.live[p := l.size])
  }

  lemma ResizeBooks(l: Layout, next: int, swallowed: bool, binned: Binned, dv: int, dvsize: nat, binned': Binned,
                    dv': int, dvsize': nat)
    requires 0 < l.q && l.first.Used? && 0 < l.size && l.q + l.size <= l.e && l.q < next <= l.e
             && (swallowed <==> l.e > next)
    requires forall a | a in binned && Among(l, a) :: a == next && swallowed
    requires Among(l, dv) ==> dv == next && swallowed
    requires next in binned ==> dv != next
    requires dv == 0 ==> dvsize == 0
    requires binned' == if swallowed then Without(binned, next) else binned
    requires if swallowed && dv == next then
               if IsTwo(l) && l.second.Free? then dv' == l.q + l.size && dvsize' == l.e - dv'
               else dv' == 0 && dvsize' == 0
             else dv' == dv && dvsize' == dvsize
    requires IsTwo(l) && l.second.Free? ==> swallowed && dv == next
    ensures Rebooked(l, binned, dv, binned', dv') && NewVictim(l, dv, dvsize, dv', dvsize')
  {
  }

  lemma ResizeOnly(s: Store, w: World, p: int, l: Layout, next: int)
    requires Reaches(s, w, p, l, next) && Tiled(w.tiles) && Booked(w.tiles, w.binned, s.dv)
             && VictimOk(w.tiles, s.dv, s.dvsize)
    requires TopOk(w.tiles, s.top, s.topsize)
    ensures forall a | a in w.binned && Among(l, a) :: a == next && l.e > next
    ensures Among(l, s.dv) ==> s.dv == next && l.e > next
    ensures next in w.binned ==> s.dv != next
    ensures Among(l, s.top) ==> s.top == next && l.e > next
    ensures p > 0 && p < next <= l.e
  {
    assert p > 0 && p < next <= l.e && w.tiles[p].kind.Used?;
    hide Tiled, Around, Followed;
    forall a | a in w.tiles && Among(l, a)
      ensures a == p || (a == next && l.e > next)
    {
      ResizeMembers(s, w, p, l, next, a);
    }
  }

  lemma ResizeHolder(s: Store, w: World, p: int, l: Layout, next: int)
    requires Reaches(s, w, p, l, next) && Tiled(w.tiles) && LiveOk(w.tiles, w.mapped, w.live)
             && (l.e == next || Idle(w.tiles[next].kind))
    requires forall a | a in w.mapped :: !Among(l, a)
    ensures p in w.live && forall a | a in w.live && Among(l, a) :: a == p
  {
    assert w.tiles[p].kind.Used?;
    hide Tiled, Around, Followed;
    forall a | a in w.live && Among(l, a)
      ensures a == p
    {
      assert LiveKind(w.tiles, w.mapped, a);
      ResizeMembers(s, w, p, l, next, a);
    }
  }

  lemma ResizeHanded(p: int, l: Layout, live: Blocks, live': Blocks)
    requires l.q == p && l.first.Used? && 0 < l.size && p + l.size <= l.e
    requires p in live && forall a | a in live && Among(l, a) :: a == p
    requires live' == if IsTwo(l) && l.second.Used? then live[p := l.size][p + l.size := l.e - p - l.size]
                      else live[p := l.size]
    ensures Rehanded(l, live, live') && (IsTwo(l) ==> p + l.size !in live)
  {
  }

  /** Resizing keeps every invariant of the heap. */
  lemma ResizedSound(s: Store, w: World, p: int, l: Layout, next: int, s': Store, w': World)
    requires Reaches(s, w, p, l, next) && CanLay(w.tiles, l)
             && (IsTwo(l) && Idle(l.second) ==> !Idle(w.tiles[l.e].kind))
    requires l.q in s.head && l.e in s.head && Resizes(s, w, p, l, next, s', w')
             && (l.e == next || Idle(w.tiles[next].kind))
    requires next in w.tiles && Sound(s, w)
    ensures Sound(s', w') && p in w.live && (IsTwo(l) ==> p + l.size !in w.live)
  {
    hide Tiled, Tagged, Booked, TopOk, SegmentsOk, MappingsOk, RegionsClear, LiveOk, Counted, Around, Followed,
         Rebooked, Rehanded, Retags, Lay, CanLay, NewHead, NewFoot, NewVictim;
    ResizeRetags(s, w, p, l, next);
    ResizeOnly(s, w, p, l, next);
    ResizeBooks(l, next, l.e > next, w.binned, s.dv, s.dvsize, w'.binned, s'.dv, s'.dvsize);
    forall a | a in w.mapped
      ensures !Among(l, a)
    {
      MappedOutside(w.tiles, l, s.head, s.foot, s.segs, s.leastAddr, w.mapped, a);
    }
    ResizeHolder(s, w, p, l, next);
    ResizeHanded(p, l, w.live, w'.live);
    assert NewTop(l, s.top, s.topsize, s'.top, s'.topsize);
    assert Relays(s, w, l, s', w');
    Relaid(s, w, l, s', w');
  }
}
