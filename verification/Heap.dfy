/** The allocator as an object: `malloc_state` with its memory, and the operations that update both in place. */
module Heaps {
  import opened Words
  import opened SizeClasses
  import opened TreeLinks
  import opened ChunkHeads
  import opened TreeSearch
  import opened BinState
  import opened BinOrder
  import opened BinStore
  import opened Tiling
  import opened Tags
  import opened HeapState
  import opened HeapSteps
  import opened Coalescing
  import opened Taking
  import opened Growing
  import opened DirectMapping
  import opened Resizing
  import opened Alignment
  import opened HeapClaims
  import opened ClientMemory
  import opened HeapFacts
  import opened Conservation
  import opened Policy
  import opened BinMaps

  class Heap {
    var head: Heads
    var foot: Feet
    var dv: int
    var dvsize: nat
    var top: int
    var topsize: nat
    var leastAddr: nat
    var footprint: nat
    var maxFootprint: nat
    var segs: seq<Segment>
    const bins: Bins
    const data: Contents
    ghost var tiles: Tiles
    ghost var mapped: Mappings
    ghost var live: Blocks

    function Fields(): Store
      reads this
    {
      Store(head, foot, dv, dvsize, top, topsize, leastAddr, footprint, maxFootprint, segs)
    }

    ghost function Model(): World
      reads this, bins
    {
      World(tiles, mapped, bins.view.sizes, live)
    }

    /** What the system has granted. */
    function Ledger(): Account
      reads this
    {
      Account(segs, footprint, maxFootprint, leastAddr)
    }

    ghost predicate Valid()
      reads this, bins
    {
      bins.Valid() && Sound(Fields(), Model())
    }

    /** The zeroed static state. */
    constructor ()
      ensures Valid() && fresh(bins) && live == map[] && top == 0 && footprint == 0 && segs == []
      ensures dvsize == 0 && topsize == 0 && bins.view.sizes == map[] && mapped == map[]
    {
      head, foot := map[], map[];
      dv, dvsize, top, topsize := 0, 0, 0, 0;
      leastAddr, footprint, maxFootprint := 0, 0, 0;
      segs := [];
      bins := new Bins();
      data := new Contents();
      tiles, mapped, live := map[], map[], map[];
      hide Sound, Ok;
      new;
      EmptySound(Fields(), Model());
    }

    /** Consolidating backward; `done` when the victim before the chunk takes it in and the chunk behind is in use. */
    method MergeBack(p0: int, psize0: nat, ghost w: World, ghost l: Layout) returns (p: int, psize: nat, done: bool)
      requires bins.Valid() && bins.view.sizes == w.binned
      requires Passage(Fields(), w, p0, l, p0 + psize0)
      modifies this, bins
      ensures bins.Valid() && bins.view.sizes == Without(w.binned, l.q)
      ensures p == l.q && psize == p0 + psize0 - p && unchanged(this`tiles, this`mapped, this`live)
      ensures done ==> Among(l, old(dv)) && l.first.Free? && p0 + psize0 !in w.binned
      ensures l.e in old(head) && Fields() == if done then FreedStore(old(Fields()), l) else old(Fields())
      ensures !done && p == dv && p < p0 ==> !head[p0 + psize0].cinuse
    {
      hide Ok, Sized;
      p, psize, done := p0, psize0, false;
      var next := p + psize;
      if !head[p].pinuse {
        var prevsize := foot[p];
        p := p - prevsize;
        psize := psize + prevsize;
        assert leastAddr <= p;
        if p != dv {
          bins.UnlinkChunk(p, prevsize);
        } else if head[next].cinuse && head[next].pinuse {
          dvsize := psize;
          head := head[p := Head(psize, false, true)][next := head[next].(pinuse := false)];
          foot := foot[next := psize];
          done := true;
        }
      }
    }

    /** Consolidating forward. */
    method MergeAhead(p0: int, p: int, psize0: nat, next: int, ghost w: World, ghost l: Layout)
                      returns (psize: nat, done: bool)
      requires bins.Valid() && bins.view.sizes == Without(w.binned, l.q)
      requires Passage(Fields(), w, p0, l, next) && p == l.q && psize0 == next - p
      requires p == dv && p < p0 ==> !head[next].cinuse
      modifies this, bins
      ensures bins.Valid() && bins.view.sizes == Without(Without(w.binned, l.q), next)
      ensures unchanged(this`tiles, this`mapped, this`live)
      ensures done <==> !(l.first.Free? && !Among(l, old(dv)))
      ensures !done ==> psize == l.size
      ensures l.e in old(head) && Fields() == FreedStore(old(Fields()), l)
    {
      hide Ok, Sized, ReadsBack;
      assert leastAddr <= next && p < next && head[next].pinuse;
      psize, done := psize0, false;
      if !head[next].cinuse {
        FreeHeadBeforeFree(head, l);
        if next == top {
          topsize := topsize + psize;
          top := p;
          head := head[p := Head(topsize, false, true)];
          if p == dv {
            dv := 0;
            dvsize := 0;
          }
          done := true;
        } else if next == dv {
          dvsize := dvsize + psize;
          dv := p;
          head := head[p := Head(dvsize, false, true)];
          foot := foot[p + dvsize := dvsize];
          done := true;
        } else {
          var nsize := head[next].size;
          psize := psize + nsize;
          bins.UnlinkChunk(next, nsize);
          head := head[p := Head(psize, false, true)];
          foot := foot[p + psize := psize];
          if p == dv {
            dvsize := psize;
            done := true;
          }
        }
      } else {
        head := head[p := Head(psize, false, true)][next := head[next].(pinuse := false)];
        foot := foot[next := psize];
      }
    }

    /** `dispose_chunk` on a chunk of a segment. */
    method Dispose(p0: int, psize0: nat)
      requires Valid() && p0 in tiles && tiles[p0].kind.Used? && psize0 == tiles[p0].size
      modifies this, bins
      ensures Valid() && live == old(live) - {p0} && mapped == old(mapped)
      ensures Ledger() == old(Ledger())
    {
      ghost var s, w := Fields(), Model();
      var next := p0 + psize0;
      hide Sound, Freeable, FreeLayout, Around, ReadsBack, ReadsAhead, Lay, Ok, Sized, FreeHead, FreeFoot;
      IsFreeable(s, w, p0);
      ghost var l := FreeLayout(s, w, p0);
      FreePassage(s, w, p0, l, next);
      FreedSound(s, w, p0, l);
      var p, psize, done := MergeBack(p0, psize0, w, l);
      if !done {
        psize, done := MergeAhead(p0, p, psize, next, w, l);
      }
      if !done {
        bins.InsertChunk(p, psize, head);
      }
      tiles := Lay(tiles, l);
      live := live - {p0};
    }

    // ---------- taking free chunks ----------

    /** Writes the tags of a chunk taken into use: whole when the remainder would be too small, else split. */
    method SetTaken(p: int, size: nat, nb: nat)
      requires nb <= size && p + size in head
      modifies this`head, this`foot
      ensures var l := TakeLayout(p, size, nb); head == TakeHead(old(head), l) && foot == TakeFoot(old(foot), l)
    {
      var rsize := size - nb;
      if rsize < MIN_CHUNK {
        head := head[p := Head(size, true, true)][p + size := head[p + size].(pinuse := true)];
      } else {
        head := head[p := Head(nb, true, true)][p + nb := Head(rsize, false, true)];
        foot := foot[p + nb + rsize := rsize];
      }
    }

    /** `replace_dv`. */
    method ReplaceVictim(r: int, rsize: nat)
      requires bins.Valid()
      requires dvsize != 0 ==> dv > 0 && dv !in bins.view.sizes && IsSmall(dvsize) && dvsize % 8 == 0
      modifies this`dv, this`dvsize, bins
      ensures dv == r && dvsize == rsize && bins.Valid()
      ensures bins.view.sizes == if old(dvsize) == 0 then old(bins.view.sizes)
              else old(bins.view.sizes)[old(dv) := old(dvsize)]
    {
      hide Ok;
      if dvsize != 0 {
        bins.Touch(dv);
        bins.InsertSmall(dv, dvsize);
      }
      dvsize := rsize;
      dv := r;
    }

    /** A remainderless fit from small bin `i`. */
    method TakeSmall(i: nat) returns (p: int)
      requires Valid() && i < NBINS && Has(bins.smallmap, i)
      modifies this, bins
      ensures Valid() && p > 0 && p !in old(live) && live == old(live)[p := 8 * i]
      ensures p in old(bins.view.sizes) && old(bins.view.sizes)[p] == 8 * i && NextInLine(old(bins.view), p)
      ensures mapped == old(mapped) && Ledger() == old(Ledger())
    {
      ghost var s, w := Fields(), Model();
      hide Sound, Ok, Lay, Has, TakeHead, TakeFoot, NextInLine;
      p := bins.UnlinkFirstSmall(i);
      BinnedIdle(s, w, p);
      IdleNext(s, w, p, 8 * i);
      ghost var l := TakeLayout(p, 8 * i, 8 * i);
      SetTaken(p, 8 * i, 8 * i);
      tiles := Lay(tiles, l);
      live := live[p := l.size];
      TakenSound(s, w, p, 8 * i, 8 * i, l, Fields(), Model());
    }

    /** Takes `nb` bytes of the unlinked chunk `p`; a remainder becomes the designated victim. */
    method TakeIntoVictim(p: int, size: nat, nb: nat, ghost s: Store, ghost w: World)
      requires Sound(s, w) && Fields() == s && World(tiles, mapped, w.binned, live) == w
      requires bins.Valid() && p in w.binned && w.binned[p] == size && bins.view.sizes == w.binned - {p}
      requires dvsize < nb <= size && nb % 64 == 0 && IsSmall(nb)
      modifies this, bins
      ensures Valid() && Handed(old(live), live, p, nb)
      ensures mapped == old(mapped) && Ledger() == old(Ledger())
    {
      hide Sound, Ok, Lay, TakeHead, TakeFoot, Idling;
      BinnedIdle(s, w, p);
      VictimReady(s, w);
      IdleNext(s, w, p, size);
      ghost var l := TakeLayout(p, size, nb);
      SetTaken(p, size, nb);
      if size - nb >= MIN_CHUNK {
        ReplaceVictim(p + nb, size - nb);
      }
      tiles := Lay(tiles, l);
      live := live[p := l.size];
      IntoVictimSound(s, w, p, size, nb, l, Fields(), Model());
    }

    /** Splits a chunk of small bin `i`. */
    method SplitSmall(i: nat, nb: nat) returns (p: int)
      requires Valid() && i < NBINS && Has(bins.smallmap, i) && dvsize < nb <= 8 * i && nb % 64 == 0 && IsSmall(nb)
      modifies this, bins
      ensures Valid() && Handed(old(live), live, p, nb) && p in old(bins.view.sizes) && old(bins.view.sizes)[p] == 8 * i
      ensures NextInLine(old(bins.view), p)
      ensures mapped == old(mapped) && Ledger() == old(Ledger())
    {
      ghost var s, w := Fields(), Model();
      hide Sound, Ok, Has, Handed, NextInLine;
      p := bins.UnlinkFirstSmall(i);
      TakeIntoVictim(p, 8 * i, nb, s, w);
    }

    /** `tmalloc_small`: splits a smallest tree chunk. */
    method TMallocSmall(nb: nat) returns (p: int)
      requires Valid() && bins.treemap != 0 && dvsize < nb && nb % 64 == 0 && IsSmall(nb)
      modifies this, bins
      ensures Valid() && Handed(old(live), live, p, nb) && IsSmallestTree(old(bins.view.sizes), p)
      ensures NextInLine(old(bins.view), p)
      ensures mapped == old(mapped) && Ledger() == old(Ledger())
    {
      ghost var s, w := Fields(), Model();
      hide Sound, Ok, Sized, IsSmallestTree, Handed, Idling, NextInLine;
      SoundSized(s, w);
      var v, rsize := FindSmallest(bins.Memory(), head, nb, bins.view);
      SmallestOpen(w.binned, v);
      BinnedIdle(s, w, v);
      IdleNext(s, w, v, w.binned[v]);
      assert leastAddr <= v < v + nb;
      bins.UnlinkLarge(v);
      TakeIntoVictim(v, rsize + nb, nb, s, w);
      p := v;
    }

    /** Takes `nb` bytes of the unlinked chunk `p`; a remainder goes into a bin. */
    method TakeIntoBin(p: int, size: nat, nb: nat, ghost s: Store, ghost w: World)
      requires Sound(s, w) && Fields() == s && World(tiles, mapped, w.binned, live) == w
      requires bins.Valid() && p in w.binned && w.binned[p] == size && bins.view.sizes == w.binned - {p}
      requires 0 < nb <= size && nb % 64 == 0
      modifies this, bins
      ensures Valid() && Handed(old(live), live, p, nb)
      ensures mapped == old(mapped) && Ledger() == old(Ledger())
    {
      hide Sound, Ok, Lay, TakeHead, TakeFoot, Idling, Sized;
      BinnedIdle(s, w, p);
      IdleNext(s, w, p, size);
      GridRest(48, size, nb);
      ghost var l := TakeLayout(p, size, nb);
      SetTaken(p, size, nb);
      if size - nb >= MIN_CHUNK {
        TakeSized(s, w, p, size, l);
        GridWord(size - nb);
        bins.InsertChunk(p + nb, size - nb, head);
      }
      tiles := Lay(tiles, l);
      live := live[p := l.size];
      TakenSound(s, w, p, size, nb, l, Fields(), Model());
    }

    /** `tmalloc_large`: a best fitting tree chunk, or 0 when there is none or the victim fits at least as well. */
    method TMallocLarge(nb: nat) returns (p: int)
      requires Valid() && MIN_LARGE <= nb < W64 && nb % 64 == 0
      modifies this, bins
      ensures Valid() && mapped == old(mapped) && Ledger() == old(Ledger())
      ensures p == 0 <==> VictimWins(old(bins.view.sizes), old(dvsize), nb)
      ensures p == 0 ==> Fields() == old(Fields()) && Model() == old(Model())
      ensures p != 0 ==> Handed(old(live), live, p, nb) && BestChunk(old(bins.view.sizes), p, nb)
      ensures p != 0 ==> NextInLine(old(bins.view), p)
    {
      ghost var s, w := Fields(), Model();
      hide Sound, Ok, Sized, Idling, IsBestFit, Handed, VictimWins, Sub64, BestChunk, NextInLine;
      SoundSized(s, w);
      VictimBelow(s, w);
      var v, rsize := FindFit(bins.Memory(), head, nb, bins.view);
      ChoiceIs(w.binned, v, rsize, nb, dvsize);
      if v == 0 || rsize >= Sub64(dvsize, nb) {
        return 0;
      }
      p := v;
      BinnedIdle(s, w, v);
      IdleNext(s, w, v, w.binned[v]);
      assert leastAddr <= v < v + nb;
      bins.UnlinkLarge(v);
      TakeIntoBin(v, rsize + nb, nb, s, w);
    }

    /** The designated victim serves the request. */
    method FromVictim(nb: nat) returns (p: int)
      requires Valid() && 0 < nb <= dvsize && nb % 64 == 0
      modifies this, bins
      ensures Valid() && Handed(old(live), live, p, nb) && p == old(dv)
      ensures mapped == old(mapped) && Ledger() == old(Ledger())
    {
      ghost var s, w := Fields(), Model();
      hide Sound, Ok, Lay, TakeHead, TakeFoot, Idling;
      VictimReady(s, w);
      IdleNext(s, w, dv, dvsize);
      p := dv;
      ghost var l := TakeLayout(p, dvsize, nb);
      SetTaken(p, dvsize, nb);
      if dvsize - nb >= MIN_CHUNK {
        dv := p + nb;
        dvsize := dvsize - nb;
      } else {
        dvsize := 0;
        dv := 0;
      }
      tiles := Lay(tiles, l);
      live := live[p := l.size];
      TakenSound(s, w, p, s.dvsize, nb, l, Fields(), Model());
    }

    /** The front of the top chunk serves the request. */
    method FromTop(nb: nat) returns (p: int)
      requires Valid() && 0 < nb < topsize && nb % 64 == 0
      modifies this
      ensures Valid() && Handed(old(live), live, p, nb) && p == old(top) && OnGrid(p)
      ensures mapped == old(mapped) && Ledger() == old(Ledger())
    {
      ghost var s, w := Fields(), Model();
      hide Sound, Ok, Lay, TopHead, Topped;
      TopNonzero(s, w);
      IsTopped(s, w);
      TopPlace(s, w);
      ghost var l := TopLayout(top, topsize, nb);
      var rsize := topsize - nb;
      p := top;
      var r := p + nb;
      topsize := rsize;
      top := r;
      head := head[r := Head(rsize, false, true)];
      head := head[p := Head(nb, true, true)];
      tiles := Lay(tiles, l);
      live := live[p := nb];
      TopHeadIs(s.head, s.top, s.topsize, nb);
      TopTakenSound(s, w, nb, l, Fields(), Model());
    }

    // ---------- memory from the system ----------

    /** `segment_holding`. */
    method SegmentHolding(a: int) returns (found: bool, g: Segment)
      ensures found ==> g in segs && g.base <= a < g.base + g.size
      ensures !found ==> forall h | h in segs :: !(h.base <= a < h.base + h.size)
    {
      found, g := false, Segment(0, 0);
      var i := 0;
      while i < |segs|
        invariant 0 <= i <= |segs|
        invariant forall j | 0 <= j < i :: !(segs[j].base <= a < segs[j].base + segs[j].size)
      {
        if segs[i].base <= a < segs[i].base + segs[i].size {
          return true, segs[i];
        }
        i := i + 1;
      }
    }

    /** `init_top`. */
    method InitTop(tbase: nat, tsize: nat)
      requires tsize >= TOP_FOOT + 64
      modifies this`head, this`top, this`topsize
      ensures var seg := Segment(tbase, tsize);
              && TopSize(seg) > 0 && top == Start(tbase) && topsize == TopSize(seg)
              && head == old(head)[top := Head(topsize, false, true)][top + topsize := Head(TOP_FOOT, false, false)]
    {
      AlignedStart(tbase);
      hide Start;
      var offset := AlignOffset(tbase + 16);
      var psize := tsize - TOP_FOOT - offset;
      top := tbase + offset;
      topsize := psize;
      head := head[top := Head(psize, false, true)];
      head := head[top + psize := Head(TOP_FOOT, false, false)];
    }

    /** The trailing fenceposts of `add_segment`. */
    method Fences(t: int, end: int) returns (n: nat)
      requires t + 32 <= end
      modifies this`head
      ensures n >= 2 && t in head && head[t] == Head(FENCE_HEAD, true, true)
      ensures forall a | a in old(head) && !(t <= a < end) :: a in head && head[a] == old(head)[a]
    {
      var p := t;
      head := head[p := Head(FENCE_HEAD, true, true)];
      n := 1;
      while p + 8 + 8 < end
        invariant t <= p < end && p == t + 8 * (n - 1)
        invariant t in head && head[t] == Head(FENCE_HEAD, true, true)
        invariant forall a | a in old(head) && !(t <= a < end) :: a in head && head[a] == old(head)[a]
        decreases end - p
      {
        p := p + 8;
        head := head[p := Head(FENCE_HEAD, true, true)];
        n := n + 1;
      }
    }

    /** What `add_segment` writes, given the segment `g` of the old top. */
    method WriteSegment(tbase: nat, tsize: nat, g: Segment) returns (csp: int)
      requires g.base <= top && tsize >= TOP_FOOT + 64 && ClearOf(g, Segment(tbase, tsize)) && g.base + g.size >= 160
      requires var end := g.base + g.size; top + 64 <= RecordAt(end) && RecordAt(end) + RECORD + 32 <= end
      modifies this`head, this`foot, this`top, this`topsize, this`segs
      ensures csp == RecordAt(g.base + g.size) && segs == [Segment(tbase, tsize)] + old(segs)
      ensures top == Start(tbase) && topsize == TopSize(Segment(tbase, tsize))
      ensures NewTags(old(top), csp, Segment(tbase, tsize), head, foot)
      ensures Untouched(old(head), old(foot), old(top), g.base + g.size, Segment(tbase, tsize), head, foot)
    {
      hide Start, AlignOffset, NewTags, Untouched;
      var oldTop, oldEnd := top, g.base + g.size;
      var rawsp := oldEnd - (RECORD + 32 + 63);
      AlignedStart(rawsp);
      AlignedStart(tbase);
      var asp := rawsp + AlignOffset(rawsp + 16);
      csp := if asp < oldTop + MIN_CHUNK then oldTop else asp;
      InitTop(tbase, tsize);
      head := head[csp := Head(RECORD, true, true)];
      ghost var head2 := head;
      segs := [Segment(tbase, tsize)] + segs;
      var nfences := Fences(csp + RECORD, oldEnd);
      assert nfences >= 2 && csp != oldTop;
      ghost var head3 := head;
      if csp != oldTop {
        var psize := csp - oldTop;
        head := head[csp := head[csp].(pinuse := false)][oldTop := Head(psize, false, true)];
        foot := foot[csp := psize];
      }
      SegmentWritten(old(head), old(foot), oldTop, oldEnd, Segment(tbase, tsize), csp, head2, head3);
    }

    /**
     `add_segment`: the new region becomes the top; the old top leaves a free chunk, the segment record and fenceposts.
     */
    method AddSegment(tbase: nat, tsize: nat, ghost s: Store, ghost w: World)
      requires s.top != 0 && bins.Valid() && w == Model()
      requires Fields() == s.(footprint := footprint, maxFootprint := maxFootprint, leastAddr := leastAddr)
      requires footprint == s.footprint + tsize <= maxFootprint && 0 < leastAddr <= s.leastAddr && leastAddr <= tbase
      requires tsize >= TOP_FOOT + 64 && Grantable(s, w, Segment(tbase, tsize))
      requires Sound(s, w)
      modifies this, bins
      ensures Valid() && live == old(live) && mapped == old(mapped) && segs == [Segment(tbase, tsize)] + old(segs)
      ensures top == Start(tbase) && topsize == TopSize(Segment(tbase, tsize)) 
      ensures Ledger() == old(Ledger()).(segs := [Segment(tbase, tsize)] + old(segs))
    {
      hide Sound, Ok, Sized, Grantable, RecordOk, Extended, Remains, Start, Untouched, NewTags;
      var oldTop := top;
      TopHeld(s, w);
      var found, g := SegmentHolding(oldTop);
      HeldBy(s, w, g);
      GrantClear(s, w, g, Segment(tbase, tsize));
      var csp := WriteSegment(tbase, tsize, g);
      tiles := Extended(Remains(tiles, oldTop, csp), Start(tbase), topsize, Segment(tbase, tsize));
      ghost var seg, w' := Segment(tbase, tsize), World(tiles, mapped, w.binned[oldTop := csp - oldTop], live);
      GrownSound(s, w, csp, seg, Fields(), w');
      bins.InsertChunk(oldTop, csp - oldTop, head);
    }

    /** The first-time initialization. */
    method FirstSegment(tbase: nat, tsize: nat, ghost s: Store, ghost w: World)
      requires s.top == 0 && bins.Valid() && w == Model()
               && Fields() == s.(footprint := footprint, maxFootprint := maxFootprint)
      requires footprint == s.footprint + tsize <= maxFootprint
      requires tsize >= TOP_FOOT + 64 && tbase > 0 && Grantable(s, w, Segment(tbase, tsize)) && Sound(s, w)
      modifies this, bins
      ensures Valid() && live == old(live) && mapped == old(mapped) && segs == [Segment(tbase, tsize)] + old(segs)
      ensures top == Start(tbase) && topsize == TopSize(Segment(tbase, tsize)) 
      ensures Ledger() == old(Ledger()).(segs := [Segment(tbase, tsize)],
                leastAddr := if old(leastAddr) == 0 || tbase < old(leastAddr) then tbase else old(leastAddr))
    {
      hide Sound, Ok, Grantable, Start, Extended;
      ghost var seg := Segment(tbase, tsize);
      if leastAddr == 0 || tbase < leastAddr {
        leastAddr := tbase;
      }
      segs := [Segment(tbase, tsize)];
      Uninitialised(s, w);
      bins.InitBins();
      InitTop(tbase, tsize);
      tiles := Extended(map[], top, topsize, seg);
      InitSound(s, w, seg, Fields(), Model());
    }

    /** What `sys_alloc` does with a region granted by the system. */
    method Grow(tbase: nat, tsize: nat)
      requires Valid() && Grantable(Fields(), Model(), Segment(tbase, tsize)) && tsize >= TOP_FOOT + 64
      modifies this, bins
      ensures Valid() && live == old(live) && mapped == old(mapped)
      ensures top == Start(tbase) && topsize == TopSize(Segment(tbase, tsize))
      ensures Ledger() == Credited(old(Ledger()), tbase, tsize, true)
    {
      ghost var s, w, seg := Fields(), Model(), Segment(tbase, tsize);
      hide Sound, Ok, Grantable, Start, Extended;
      FootprintBelow(s, w);
      AddFootprint(tsize);
      SegmentBase(s, w, seg);
      if top == 0 {
        FirstSegment(tbase, tsize, s, w);
      } else {
        InitializedLeast(s, w);
        if tbase < leastAddr {
          leastAddr := tbase;
        }
        AddSegment(tbase, tsize, s, w);
      }
    }

    /** Counts a granted region. */
    method AddFootprint(n: nat)
      requires footprint <= maxFootprint
      modifies this`footprint, this`maxFootprint
      ensures footprint == old(footprint) + n <= maxFootprint
      ensures maxFootprint == if footprint > old(maxFootprint) then footprint else old(maxFootprint)
    {
      footprint := footprint + n;
      if footprint > maxFootprint {
        maxFootprint := footprint;
      }
    }

    /** Writes the tags and fields for a mapped chunk `p` of a region at `mm`. */
    method SetMapping(p: int, psize: nat, offset: nat, mm: nat, mmsize: nat)
      requires mmsize == offset + psize + FOOT_PAD && footprint <= maxFootprint
      modifies this`head, this`foot, this`leastAddr, this`footprint, this`maxFootprint
      ensures Fields() == MapStore(old(Fields()), p, Mapping(psize, offset), mm)
    {
      foot := foot[p := offset];
      head := head[p := Head(psize, false, false)];
      head := head[p + psize := Head(FENCE_HEAD, true, true)];
      head := head[p + psize + 8 := Head(0, false, false)];
      if leastAddr == 0 || mm < leastAddr {
        leastAddr := mm;
      }
      footprint := footprint + mmsize;
      if footprint > maxFootprint {
        maxFootprint := footprint;
      }
    }

    /** Lays a mapped chunk into the granted region. */
    method MapRegion(mm: nat, mmsize: nat) returns (p: int)
      requires Valid() && top != 0 && Grantable(Fields(), Model(), Segment(mm, mmsize)) && mmsize >= 400
               && mmsize % 4096 == 0 && mmsize % 8 == 0
      modifies this
      ensures Valid() && OnGrid(p) && p !in old(live) && p in mapped && p == Start(mm)
      ensures p in live && mmsize - 63 - FOOT_PAD <= live[p] && live == old(live)[p := live[p]]
      ensures mapped[p].offset < 64 && MappedLength(mapped[p]) == mmsize && OnlyMaps(old(mapped), mapped, p)
      ensures tiles == old(tiles) && Ledger() == Credited(old(Ledger()), mm, mmsize, false)
    {
      ghost var s, w := Fields(), Model();
      hide Sound, Ok, Grantable, MapHead, AlignOffset, OnGrid, Mappable, MapStore, Start;
      AlignedStart(mm);
      RegionChunk(s, w, mm, mmsize);
      InitializedLeast(s, w);
      FootprintBelow(s, w);
      MapStoreBytes(s, mm + AlignOffset(mm + 16),
          Mapping(mmsize - AlignOffset(mm + 16) - FOOT_PAD, AlignOffset(mm + 16)), mm);
      var offset := AlignOffset(mm + 16);
      var psize := mmsize - offset - FOOT_PAD;
      p := mm + offset;
      SetMapping(p, psize, offset, mm, mmsize);
      mapped, live := mapped[p := Mapping(psize, offset)], live[p := psize];
      MapSound(s, w, p, Mapping(psize, offset), Fields(), Model());
    }

    /** `mmap_alloc`. */
    method MmapAlloc(nb: nat, answer: Answer) returns (p: int)
      requires Valid() && top != 0 && MMAP_THRESHOLD <= nb < W64 && Answers(Fields(), Model(), answer, DirectSize(nb))
      modifies this
      ensures Valid() && tiles == old(tiles)
      ensures p == 0 <==> answer.Fail? || DirectSize(nb) <= nb
      ensures p == 0 ==> Fields() == old(Fields()) && Model() == old(Model())
      ensures p != 0 ==>
                OnGrid(p) && p == Start(answer.base) && p !in old(live) && p in mapped
                && Ledger() == Credited(old(Ledger()), answer.base, DirectSize(nb), false)
      ensures p != 0 ==> p in live && nb + 16 <= live[p] && live == old(live)[p := live[p]] && MadeFor(mapped[p], nb)
      ensures OnlyMaps(old(mapped), mapped, p)
    {
      hide Sound, Ok, Grantable, DirectSize;
      var mmsize := DirectSize(nb);
      p := 0;
      if mmsize > nb {
        if answer.Region? {
          DirectSizeFits(nb);
          p := MapRegion(answer.base, mmsize);
        }
      }
    }

    /** `sys_alloc`: direct mapping for large requests, else a new segment from whose top the request is served. */
    method SysAlloc(nb: nat, sys: System) returns (p: int)
      requires Valid() && 64 <= nb < W64 && (nb % 64 == 0 || nb == MAX_SIZE) && SystemOk(Fields(), Model(), nb, sys)
      modifies this, bins
      ensures Valid()
      ensures p == 0 ==> Fields() == old(Fields()) && Model() == old(Model())
      ensures p == 0 <==> (sys.region.Fail? || RegionSize(nb) <= nb) && !Direct(nb, old(topsize), sys)
      ensures p != 0 ==> Given(old(live), live, p, nb) && p == FromSystem(nb, old(topsize), sys)
      ensures p != 0 ==> Charged(old(Fields()), Fields(), nb, sys, true)
      ensures OnlyMaps(old(mapped), mapped, p) && (p != 0 && p in mapped ==> MadeFor(mapped[p], nb))
      ensures p != 0 && p !in mapped ==> live[p] < nb + MIN_CHUNK
    {
      ghost var s, w := Fields(), Model();
      hide Sound, Ok, Grantable, DirectSize, RegionSize, Start, MadeFor;
      MappedLive(s, w);
      p := 0;
      if nb >= MMAP_THRESHOLD && topsize != 0 {
        TopNonzero(s, w);
        p := MmapAlloc(nb, sys.direct);
        if p != 0 {
          return;
        }
      }
      var asize := RegionSize(nb);
      if asize <= nb {
        return;
      }
      if sys.region.Region? {
        RegionSizeFits(nb);
        var tbase := sys.region.base;
        Grow(tbase, asize);
        GrantSuffices(tbase, asize, nb);
        assert nb < topsize;
        NotMax(nb);
        p := FromTop(nb);
      }
    }

    // ---------- malloc and free ----------

    /** Splits a best fitting binned chunk for a small request that neither its own bins nor the victim can serve. */
    method SmallSplit(nb: nat, idx: nat, smallbits: nat) returns (p: int)
      requires Valid() && nb == 8 * idx && 0 < nb <= 192 && nb % 64 == 0 && dvsize < nb && bins.smallmap < W32
      requires !Has(bins.smallmap, idx) && !Has(bins.smallmap, idx + 1) && smallbits == Shr(bins.smallmap, idx)
      modifies this, bins
      ensures Valid() && mapped == old(mapped) && Ledger() == old(Ledger())
      ensures p == 0 ==>
                Fields() == old(Fields()) && Model() == old(Model()) && BinsPass(old(bins.view.sizes), old(dvsize), nb)
      ensures p != 0 ==> Handed(old(live), live, p, nb) && BestChunk(old(bins.view.sizes), p, nb)
      ensures p != 0 ==> NextInLine(old(bins.view), p)
    {
      hide Sound, Ok, Has, And, Shr, Shl32, LeftBits, LeastBit, Bit2Idx, Bit, BinsPass, BestChunk, IsSmallestTree, Scan,
           NextInLine;
      NextSmall(bins.smallmap, idx);
      SplitChoice(bins.Memory(), bins.view, nb, Scan(bins.smallmap, idx + 1), dvsize);
      p := 0;
      if smallbits != 0 {
        var leftbits := And(Shl32(smallbits, idx), LeftBits(Bit(idx)));
        var i := Bit2Idx(LeastBit(leftbits));
        p := SplitSmall(i, nb);
      } else if bins.treemap != 0 {
        p := TMallocSmall(nb);
      }
    }

    /** The small-request part of `dlmalloc`: bins only; 0 when victim, top or system must serve. */
    method SmallPath(nb: nat) returns (p: int)
      requires Valid() && 0 < nb <= 192 && nb % 64 == 0
      modifies this, bins
      ensures Valid() && mapped == old(mapped) && Ledger() == old(Ledger())
      ensures p == 0 ==> Fields() == old(Fields()) && Model() == old(Model())
      ensures p == 0 <==> BinsPass(old(bins.view.sizes), old(dvsize), nb)
      ensures p != 0 ==> Handed(old(live), live, p, nb) && BestChunk(old(bins.view.sizes), p, nb)
      ensures p != 0 ==> NextInLine(old(bins.view), p)
    {
      ghost var dvsize0, raw, view := dvsize, bins.Memory(), bins.view;
      hide Sound, Handed, Ok, Has, And, Shr, Not32, BinsPass, BestChunk, NextInLine;
      SmallMapBelow(raw, view);
      var idx := nb / 8;
      SmallBits(bins.smallmap, idx);
      var smallbits := Shr(bins.smallmap, idx);
      p := 0;
      if And(smallbits, 3) != 0 {
        idx := idx + And(Not32(smallbits), 1);
        SmallBest(raw, view, nb, idx);
        p := TakeSmall(idx);
        HandedExactly(old(live), live, p, nb, 8 * idx);
      } else if nb > dvsize {
        p := SmallSplit(nb, idx, smallbits);
      } else {
        SmallPasses(raw, view, nb, dvsize);
      }
      BestServes(view.sizes, p, nb, dvsize0);
    }

    /** The first part of `dlmalloc`: the size to look for, and the bins. */
    method FromBins(bytes: nat) returns (nb: nat, p: int)
      requires Valid() && bytes < W64
      modifies this, bins
      ensures Valid() && nb == MallocSize(bytes)
      ensures p == 0 ==> Fields() == old(Fields()) && Model() == old(Model())
      ensures p == 0 <==> bytes >= MAX_REQUEST || BinsPass(old(bins.view.sizes), old(dvsize), nb)
      ensures p != 0 ==> Ledger() == old(Ledger()) && mapped == old(mapped)
      ensures p != 0 ==> Handed(old(live), live, p, nb) && BestChunk(old(bins.view.sizes), p, nb)
      ensures p != 0 ==> NextInLine(old(bins.view), p)
    {
      hide Sound, Ok, Handed, PadRequest, BinsPass, BestChunk, VictimWins, NextInLine;
      p := 0;
      if bytes <= MAX_SMALL_REQUEST {
        nb := Request2Size(bytes);
        SmallRequest(bytes);
        p := SmallPath(nb);
      } else if bytes >= MAX_REQUEST {
        nb := MAX_SIZE;
      } else {
        nb := PadRequest(bytes);
        LargeRequest(bytes);
        LargePass(bins.view.sizes, dvsize, nb);
        if bins.treemap != 0 {
          p := TMallocLarge(nb);
        } else {
          LargePasses(bins.Memory(), bins.view, nb, dvsize);
        }
      }
    }

    /** The second part of `dlmalloc`: victim, top, system. */
    method FromRest(nb: nat, sys: System) returns (p: int)
      requires Valid() && 64 <= nb < W64 && (nb % 64 == 0 || nb == MAX_SIZE) && SystemOk(Fields(), Model(), nb, sys)
      modifies this, bins
      ensures Valid()
      ensures p == 0 ==> Fields() == old(Fields()) && Model() == old(Model())
      ensures p == 0 <==>
                old(dvsize) < nb && old(topsize) <= nb && !Direct(nb, old(topsize), sys)
                && (sys.region.Fail? || RegionSize(nb) <= nb)
      ensures nb == MAX_SIZE ==> p == 0
      ensures p != 0 ==> Given(old(live), live, p, nb)
      ensures p != 0 ==>
                Charged(old(Fields()), Fields(), nb, sys, old(dvsize) < nb && old(topsize) <= nb)
      ensures OnlyMaps(old(mapped), mapped, p) && (p != 0 && p in mapped ==> MadeFor(mapped[p], nb))
      ensures p != 0 ==> p == if nb <= old(dvsize) then old(dv) else if nb < old(topsize) then old(top)
              else FromSystem(nb, old(topsize), sys)
      ensures p != 0 && p !in mapped ==> live[p] < nb + MIN_CHUNK
    {
      hide Sound, Ok, Grantable, RegionSize, DirectSize, Start, MadeFor;
      MappedLive(Fields(), Model());
      SizesBelow(Fields(), Model());
      MaxFails(nb);
      if nb <= dvsize {
        p := FromVictim(nb);
        LiveGrid(Fields(), Model(), p);
      } else if nb < topsize {
        p := FromTop(nb);
      } else {
        p := SysAlloc(nb, sys);
      }
    }

    /** `dlmalloc`. */
    method Malloc(bytes: nat, sys: System) returns (mem: int)
      requires Valid() && bytes < W64 && SystemOk(Fields(), Model(), MallocSize(bytes), sys)
      modifies this, bins
      ensures Valid()
      ensures mem == 0 ==> Fields() == old(Fields()) && Model() == old(Model())
      ensures mem == 0 <==> Refuses(old(Fields()), old(bins.view.sizes), bytes, sys)
      ensures mem != 0 ==> mem % 64 == 0 && Given(old(live), live, mem - 16, bytes + OVERHEAD)
      ensures mem != 0 ==> Selected(old(Fields()), old(bins.view.sizes), MallocSize(bytes), sys, mem - 16)
      ensures mem != 0 && !BinsPass(old(bins.view.sizes), old(dvsize), MallocSize(bytes)) ==>
                NextInLine(old(bins.view), mem - 16)
      ensures mem != 0 && mem - 16 !in mapped ==> live[mem - 16] < MallocSize(bytes) + MIN_CHUNK
      ensures mem != 0 && mem - 16 in mapped ==> MadeFor(mapped[mem - 16], MallocSize(bytes))
      ensures OnlyMaps(old(mapped), mapped, mem - 16)
      ensures mem != 0 ==> Charged(old(Fields()), Fields(), MallocSize(bytes), sys,
                                   Exhausted(old(Fields()), old(bins.view.sizes), MallocSize(bytes)))
      ensures Step(old(Model()), if mem == 0 then Refused else Allocated(mem - 16, bytes), Model())
    {
      hide Sound, Ok, Grantable, RegionSize, DirectSize, Request2Size, BinsPass, BestChunk, FromSystem, Direct, MadeFor,
           NextInLine;
      ghost var w := Model();
      MappedLive(Fields(), w);
      MallocSizeFits(bytes);
      var nb, p := FromBins(bytes);
      if p == 0 {
        p := FromRest(nb, sys);
      } else {
        LiveGrid(Fields(), Model(), p);
      }
      if p == 0 {
        return 0;
      }
      mem := p + 16;
      GridMem(p);
      MallocStep(w, Fields(), Model(), p, bytes);
    }

    /** `dlfree`. */
    method Free(mem: int)
      requires Valid() && (mem == 0 || mem - 16 in live)
      modifies this, bins
      ensures Valid() && segs == old(segs)
      ensures live == if mem == 0 then old(live) else old(live) - {mem - 16}
      ensures mapped == if mem == 0 then old(mapped) else old(mapped) - {mem - 16}
      ensures Step(old(Model()), if mem == 0 then Refused else Released(mem - 16), Model())
      ensures Ledger() == old(Ledger()).(footprint := footprint)
      ensures footprint == if mem != 0 && mem - 16 in old(mapped)
              then old(footprint) - MappedLength(old(mapped)[mem - 16]) else old(footprint)
    {
      hide Sound, Ok;
      if mem != 0 {
        var p := mem - 16;
        ghost var s, w := Fields(), Model();
        LiveGrid(s, w, p);
        assert leastAddr <= p && (head[p].cinuse || !head[p].pinuse);
        var psize := head[p].size;
        if !head[p].pinuse && !head[p].cinuse {
          var prevsize := foot[p];
          psize := psize + prevsize + FOOT_PAD;
          UnmapSound(s, w, p);
          footprint := footprint - psize;
          mapped := mapped - {p};
          live := live - {p};
        } else {
          Dispose(p, psize);
        }
      }
    }

    /** `dlmalloc_usable_size`. */
    method UsableSize(mem: int) returns (n: nat)
      requires Valid() && (mem == 0 || mem - 16 in live)
      ensures mem == 0 ==> n == 0
      ensures mem != 0 ==> Usable(Model(), mem - 16, n)
    {
      hide Sound, Ok;
      n := 0;
      if mem != 0 {
        var p := mem - 16;
        LiveGrid(Fields(), Model(), p);
        if head[p].cinuse || !head[p].pinuse {
          n := head[p].size - if !head[p].cinuse && !head[p].pinuse then 16 else OVERHEAD;
        }
      }
    }

    // ---------- realloc and memalign ----------

    /** Splits a chunk in use into two: two calls of `set_inuse`, in either order. */
    method SplitUsed(p: int, size: nat, nb: nat, backFirst: bool)
      requires Valid() && p in tiles && tiles[p].kind.Used? && size == tiles[p].size && 0 < nb < size && nb % 64 == 0
      modifies this
      ensures Valid() && mapped == old(mapped) && Ledger() == old(Ledger())
      ensures p in old(live) && p + nb !in old(live) && live == old(live)[p := nb][p + nb := size - nb]
      ensures p + nb in tiles && tiles[p + nb].kind.Used? && tiles[p + nb].size == size - nb
      ensures p in tiles && tiles[p].kind.Used? && tiles[p].size == nb
    {
      ghost var s, w := Fields(), Model();
      ghost var next := p + size;
      hide Sound, Ok, Lay, Around, SetInuse, NewHead;
      AroundUsed(s, w, p);
      ghost var l := Layout(p, next, nb, Used, Used);
      SplitLays(s, w, p, nb, l);
      if backFirst {
        head := SetInuse(head, p + nb, size - nb);
        head := SetInuse(head, p, nb);
      } else {
        head := SetInuse(head, p, nb);
        head := SetInuse(head, p + nb, size - nb);
      }
      tiles := Lay(tiles, l);
      live := live[p := nb][p + nb := size - nb];
      LayIs(w.tiles, l, p);
      ResizedSound(s, w, p, l, next, Fields(), Model());
    }

    /** Growing into the top chunk. */
    method ExtendIntoTop(p: int, oldsize: nat, nb: nat)
      requires Valid() && p in tiles && tiles[p].kind.Used? && oldsize == tiles[p].size && p + oldsize == top
      requires oldsize < nb < oldsize + topsize && nb % 64 == 0
      modifies this
      ensures Valid() && mapped == old(mapped) && Ledger() == old(Ledger())
      ensures p in old(live) && live == old(live)[p := nb]
    {
      ghost var s, w := Fields(), Model();
      ghost var next := p + oldsize;
      hide Sound, Ok, Lay, Around, Followed, SetInuse, NewHead;
      BehindIdle(s, w, p, next);
      ghost var l := Layout(p, next + topsize, nb, Used, Top);
      TopExtends(s, w, p, nb, l);
      TopNotBooked(s, w);
      var newsize := oldsize + topsize;
      var newtopsize := newsize - nb;
      var newtop := p + nb;
      head := SetInuse(head, p, nb);
      head := head[newtop := Head(newtopsize, false, true)];
      top := newtop;
      topsize := newtopsize;
      tiles := Lay(tiles, l);
      live := live[p := nb];
      ResizedSound(s, w, p, l, next, Fields(), Model());
    }

    /** Writes the tags for a chunk grown into the victim behind it, `total` bytes in all. */
    method SetIntoVictim(p: int, total: nat, nb: nat)
      requires nb <= total && p + total in head
      modifies this`head, this`foot, this`dv, this`dvsize
      ensures Fields() == VictimStore(old(Fields()), p, total, nb)
    {
      var dsize := total - nb;
      if dsize >= MIN_CHUNK {
        var r := p + nb;
        var n := r + dsize;
        head := SetInuse(head, p, nb)[r := Head(dsize, false, true)][n := head[n].(pinuse := false)];
        foot := foot[n := dsize];
        dvsize, dv := dsize, r;
      } else {
        head := SetInuse(head, p, total);
        dvsize, dv := 0, 0;
      }
    }

    /** Growing into the designated victim. */
    method ExtendIntoVictim(p: int, oldsize: nat, nb: nat)
      requires p in tiles && tiles[p].kind.Used? && oldsize == tiles[p].size && p + oldsize == dv
      requires oldsize < nb <= oldsize + dvsize && nb % 64 == 0 && Valid()
      modifies this
      ensures Valid() && mapped == old(mapped) && Ledger() == old(Ledger())
      ensures p in old(live) && p in live && nb <= live[p] < nb + MIN_CHUNK && live == old(live)[p := live[p]]
    {
      ghost var s, w := Fields(), Model();
      ghost var next := p + oldsize;
      hide Sound, Ok, Lay, Around, Followed, VictimStore, ExtendLayout;
      BehindIdle(s, w, p, next);
      ghost var l := ExtendLayout(p, oldsize + dvsize, nb, Kind.Free);
      VictimEnd(s, w, p, next);
      SetIntoVictim(p, oldsize + dvsize, nb);
      tiles, live := Lay(tiles, l), live[p := l.size];
      VictimExtended(s, w, p, next, nb, l, Fields(), Model());
    }

    /** Writes the tags for a chunk grown into a free one: whole, or followed by a new chunk in use. */
    method SetIntoFree(p: int, total: nat, nb: nat)
      requires nb <= total
      modifies this`head
      ensures head == GrownHead(old(head), p, total, nb)
    {
      var rsize := total - nb;
      if rsize < MIN_CHUNK {
        head := SetInuse(head, p, total);
      } else {
        head := SetInuse(head, p, nb);
        head := SetInuse(head, p + nb, rsize);
      }
    }

    /** Growing into the free chunk behind: a remainder becomes a chunk of its own and is disposed of. */
    method ExtendIntoFree(p: int, oldsize: nat, nb: nat)
      requires p in tiles && tiles[p].kind.Used? && oldsize == tiles[p].size && nb % 64 == 0
      requires var next := p + oldsize;
               next in head && !head[next].cinuse && next != top && next != dv
               && oldsize < nb <= oldsize + head[next].size
      requires Valid()
      modifies this, bins
      ensures Valid() && mapped == old(mapped) && Ledger() == old(Ledger())
      ensures p in old(live) && p in live && nb <= live[p] < nb + MIN_CHUNK && live == old(live)[p := live[p]]
    {
      ghost var s, w := Fields(), Model();
      var next := p + oldsize;
      hide Sound, Ok, Lay, Around, Followed, GrownHead, ExtendLayout;
      BehindIdle(s, w, p, next);
      FreeBehind(s, w, p, next);
      var nextsize := head[next].size;
      var total := oldsize + nextsize;
      ghost var l := ExtendLayout(p, total, nb, Used);
      bins.UnlinkChunk(next, nextsize);
      SetIntoFree(p, total, nb);
      tiles := Lay(tiles, l);
      live := GrownLive(live, p, total, nb, l.size);
      FreeExtended(s, w, p, next, nb, l, Fields(), Model());
      if total - nb >= MIN_CHUNK {
        Dispose(p + nb, total - nb);
      }
    }

    /** `mmap_resize`: without remapping, a mapped chunk is kept when it is large enough but not far too large. */
    method MmapResize(p: int, nb: nat) returns (newp: int)
      requires p in head && nb < W64
      ensures newp == if !IsSmall(nb) && nb + 8 <= head[p].size <= nb + 2 * GRANULARITY then p else 0
    {
      var oldsize := head[p].size;
      if IsSmall(nb) {
        return 0;
      }
      if oldsize >= nb + 8 && oldsize - nb <= 2 * GRANULARITY {
        return p;
      }
      return 0;
    }

    /** The part of `try_realloc_chunk` for chunks of a segment. */
    method ReallocTile(p: int, nb: nat) returns (newp: int)
      requires p in tiles && tiles[p].kind.Used? && 64 <= nb < W64 && nb % 64 == 0 && Valid()
      modifies this, bins
      ensures Valid() && mapped == old(mapped) && Ledger() == old(Ledger())
      ensures newp == 0 ==> Fields() == old(Fields()) && Model() == old(Model())
      ensures newp != 0 <==> RoomAt(old(tiles), p, nb)
      ensures newp != 0 ==>
                newp == p && p in old(live) && p in live && nb <= live[p] < nb + MIN_CHUNK
                && live == old(live)[p := live[p]]
    {
      ghost var s, w := Fields(), Model();
      hide Sound, Ok, Followed, RoomAt;
      RoomIs(s, w, p, nb);
      AroundUsed(s, w, p);
      UsedIsLive(s, w, p);
      newp := 0;
      var oldsize := head[p].size;
      var next := p + oldsize;
      assert p < next && head[next].pinuse;
      if oldsize >= nb {
        var rsize := oldsize - nb;
        if rsize >= MIN_CHUNK {
          SplitUsed(p, oldsize, nb, false);
          Dispose(p + nb, rsize);
        }
        newp := p;
      } else if next == top {
        if oldsize + topsize > nb {
          ExtendIntoTop(p, oldsize, nb);
          newp := p;
        }
      } else if next == dv {
        if oldsize + dvsize >= nb {
          ExtendIntoVictim(p, oldsize, nb);
          newp := p;
        }
      } else if !head[next].cinuse {
        if oldsize + head[next].size >= nb {
          ExtendIntoFree(p, oldsize, nb);
          newp := p;
        }
      }
    }

    /** `try_realloc_chunk`. */
    method TryRealloc(p: int, nb: nat) returns (newp: int)
      requires p in live && 64 <= nb < W64 && nb % 64 == 0 && Valid()
      modifies this, bins
      ensures Valid() && mapped == old(mapped) && Ledger() == old(Ledger())
      ensures newp == 0 ==> Fields() == old(Fields()) && Model() == old(Model())
      ensures newp != 0 <==> InPlace(old(Model()), p, nb)
      ensures newp != 0 ==> newp == p && p in live && nb <= live[p] && live == old(live)[p := live[p]]
      ensures newp != 0 ==> if p in mapped then live == old(live) else live[p] < nb + MIN_CHUNK
    {
      ghost var s, w := Fields(), Model();
      hide Sound, Ok, RoomAt;
      LiveGrid(s, w, p);
      assert leastAddr <= p && (head[p].cinuse || !head[p].pinuse);
      if !head[p].cinuse && !head[p].pinuse {
        newp := MmapResize(p, nb);
      } else {
        newp := ReallocTile(p, nb);
      }
    }

    /** The copy of `dlrealloc`: what the old block holds, less its overhead, but no more than the new one is for. */
    method CopyBlock(oldmem: int, bytes: nat, mem: int)
      requires Valid() && oldmem - 16 in live && mem - 16 in live && mem != oldmem
               && bytes + OVERHEAD <= live[mem - 16]
      modifies data
      ensures Carried(Model(), old(data.at), oldmem, bytes, mem, data.at)
    {
      hide Sound, Ok;
      var oldp := oldmem - 16;
      LiveGrid(Fields(), Model(), oldp);
      var overhead := if head[oldp].cinuse || head[oldp].pinuse then OVERHEAD else 16;
      var oc := head[oldp].size - overhead;
      var copied := if oc < bytes then oc else bytes;
      BlocksApart(Fields(), Model(), mem - 16, oldp, copied);
      data.Copy(mem, oldmem, copied);
      Copied(Model(), old(data.at), oldmem, bytes, mem, oc, data.at);
    }

    /** The part of `dlrealloc` for a block that cannot stay: a new block, a copy, and the old block is given back. */
    method MoveBlock(oldmem: int, bytes: nat, sys: System) returns (mem: int)
      requires Valid() && oldmem - 16 in live && bytes < MAX_REQUEST
               && SystemOk(Fields(), Model(), MallocSize(bytes), sys)
      modifies this, bins, data
      ensures Valid()
      ensures mem == 0 ==> Fields() == old(Fields()) && Model() == old(Model())
      ensures mem == 0 <==> Refuses(old(Fields()), old(bins.view.sizes), bytes, sys)
      ensures mem != 0 ==> mem != oldmem && Moved(old(live), live, oldmem - 16, mem - 16, bytes + OVERHEAD)
      ensures BoundedTile(Model(), mem - 16, bytes)
      ensures Step(old(Model()), ResizeEvent(oldmem, mem, bytes), Model())
      ensures mem == 0 ==> data.at == old(data.at)
      ensures mem != 0 ==> Carried(old(Model()), old(data.at), oldmem, bytes, mem, data.at)
    {
      hide Sound, Ok, Grantable, RegionSize, DirectSize, Request2Size, Refuses, Selected, Charged, Exhausted, MadeFor,
           MallocSize;
      var oldp := oldmem - 16;
      LiveGrid(Fields(), Model(), oldp);
      ghost var w := Model();
      NullNotLive(Fields(), w);
      mem := Malloc(bytes, sys);
      if mem != 0 {
        ghost var w1 := Model();
        CopyBlock(oldmem, bytes, mem);
        Free(oldmem);
        MoveStep(w, w1, Model(), oldp, mem - 16, bytes);
        CarriedSame(w, w1, old(data.at), oldmem, bytes, mem, data.at);
      }
    }

    /** `dlrealloc`. */
    method Realloc(oldmem: int, bytes: nat, sys: System) returns (mem: int)
      requires Valid() && (oldmem == 0 || oldmem - 16 in live) && bytes < W64
               && SystemOk(Fields(), Model(), MallocSize(bytes), sys)
      modifies this, bins, data
      ensures Valid()
      ensures mem == 0 ==> Fields() == old(Fields()) && Model() == old(Model())
      ensures mem == 0 <==>
                Refuses(old(Fields()), old(bins.view.sizes), bytes, sys) && !Stays(old(Model()), oldmem, bytes)
      ensures oldmem != 0 ==> (mem == oldmem <==> Stays(old(Model()), oldmem, bytes))
      ensures mem != 0 ==> Moved(old(live), live, oldmem - 16, mem - 16, bytes + OVERHEAD)
      ensures Step(old(Model()), ResizeEvent(oldmem, mem, bytes), Model())
      ensures oldmem != 0 ==> Bounded(old(Model()), Model(), oldmem - 16, mem - 16, bytes)
      ensures mem == 0 || mem == oldmem || oldmem == 0 ==> data.at == old(data.at)
      ensures mem != 0 && mem != oldmem && oldmem != 0 ==>
                Carried(old(Model()), old(data.at), oldmem, bytes, mem, data.at)
    {
      hide Sound, Ok, Grantable, RegionSize, DirectSize, Request2Size, Refuses, Selected, InPlace, Charged, Exhausted,
           MadeFor;
      mem := 0;
      TooLarge(Fields(), bins.view.sizes, bytes, sys);
      MallocSizeFits(bytes);
      NullNotLive(Fields(), Model());
      if oldmem != 0 && oldmem - 16 in mapped {
        MappedStays(Fields(), Model(), oldmem - 16, bytes);
      }
      if oldmem == 0 {
        mem := Malloc(bytes, sys);
      } else if bytes < MAX_REQUEST {
        var nb := Request2Size(bytes);
        var oldp := oldmem - 16;
        LiveGrid(Fields(), Model(), oldp);
        var newp := TryRealloc(oldp, nb);
        if newp != 0 {
          mem := newp + 16;
        } else {
          mem := MoveBlock(oldmem, bytes, sys);
        }
      }
    }

    /** Gives the leader of a misaligned block back, or moves a mapped one up, so that the rest is aligned. */
    method AlignFront(p: int, k: nat, nb: nat) returns (newp: int)
      requires p > 0 && p in live && 6 <= k <= 63 && nb >= 64 && nb + Pow2(k) + 64 <= live[p]
               && Truncated(p + 16, k) != p + 16
      requires p in mapped ==> MadeFor(mapped[p], nb + Pow2(k) + 64)
      requires Valid()
      modifies this, bins
      ensures Valid() && Ledger() == old(Ledger())
      ensures forall q | q != p && q != newp :: q in mapped <==> q in old(mapped)
      ensures newp in live && nb + 128 <= live[newp] && (newp != p ==> newp !in old(live))
              && live == (old(live) - {p})[newp := live[newp]]
      ensures IsMultiple(newp + 16, Pow2(k)) && newp > p
    {
      ghost var s, w := Fields(), Model();
      hide Sound, Ok, Truncated, Pow2, And, IsMultiple, MadeFor;
      LiveGrid(s, w, p);
      var mem, alignment := p + 16, Pow2(k);
      GridMem(p);
      AlignMasks(mem, k, 64);
      NextAligned(mem, k);
      var br := And(mem + alignment - 1, W64 - alignment) - 16;
      var pos := if br - p >= MIN_CHUNK then br else br + alignment;
      newp := pos;
      var leadsize := pos - p;
      var size := head[p].size;
      var newsize := size - leadsize;
      LeadIs(mem, mem + leadsize);
      if !head[p].cinuse && !head[p].pinuse {
        LeadLeavesLarge(mapped[p], k, nb, leadsize);
        MoveMapped(p, leadsize);
      } else {
        SplitUsed(p, size, leadsize, true);
        Dispose(p, leadsize);
      }
    }

    /** The mapped case: only the offset and the size change. */
    method MoveMapped(p: int, lead: nat)
      requires p in mapped && lead % 64 == 0 && 0 < lead && lead + MIN_LARGE <= mapped[p].size && p in head && p in foot
      requires head[p].size == mapped[p].size && foot[p] == mapped[p].offset && Valid()
      modifies this
      ensures Valid() && Ledger() == old(Ledger()) && p + lead !in old(live)
      ensures live == (old(live) - {p})[p + lead := old(head)[p].size - lead]
      ensures mapped.Keys == old(mapped).Keys - {p} + {p + lead}
    {
      ghost var s, w := Fields(), Model();
      hide Sound, Ok;
      var newp := p + lead;
      foot := foot[newp := foot[p] + lead];
      head := head[newp := Head(head[p].size - lead, false, false)];
      ghost var m := mapped[p];
      mapped := (mapped - {p})[newp := Mapping(m.size - lead, m.offset + lead)];
      live := (live - {p})[newp := m.size - lead];
      RemapSound(s, w, p, lead, Fields(), Model());
    }

    /** Gives spare room at the end of a block back. */
    method TrimTail(p: int, nb: nat)
      requires p in live && 64 <= nb <= live[p] && nb % 64 == 0 && Valid()
      modifies this, bins
      ensures Valid() && Ledger() == old(Ledger()) && mapped == old(mapped)
      ensures p in live && nb <= live[p] && live == old(live)[p := live[p]]
              && if p in mapped then live == old(live) else live[p] <= nb + MIN_CHUNK
    {
      hide Sound, Ok;
      LiveGrid(Fields(), Model(), p);
      if head[p].cinuse || head[p].pinuse {
        var size := head[p].size;
        if size > nb + MIN_CHUNK {
          SplitUsed(p, size, nb, false);
          Dispose(p + nb, size - nb);
        }
      }
    }

    /** Makes an over-allocated block an aligned one. */
    method AlignBlock(p: int, k: nat, nb: nat) returns (newp: int)
      requires p > 0 && p in live && 6 <= k <= 63 && nb >= 64 && nb % 64 == 0 && nb + Pow2(k) + 64 <= live[p]
      requires p in mapped ==> MadeFor(mapped[p], nb + Pow2(k) + 64)
      requires Valid()
      modifies this, bins
      ensures Valid() && Ledger() == old(Ledger()) && OnGrid(newp)
      ensures forall q | q != p && q != newp :: q in mapped <==> q in old(mapped)
      ensures newp in live && nb <= live[newp] && (newp != p ==> newp !in old(live))
              && live == (old(live) - {p})[newp := live[newp]]
      ensures if newp in mapped then nb + 8 <= live[newp] else live[newp] <= nb + MIN_CHUNK
      ensures IsMultiple(newp + 16, Pow2(k))
    {
      hide Sound, Ok, IsMultiple, And, Truncated, Pow2, MadeFor;
      var mem := p + 16;
      LiveGrid(Fields(), Model(), p);
      AlignMasks(mem, k, 64);
      TruncatedMultiple(mem, k);
      newp := p;
      if And(mem, Pow2(k) - 1) != 0 {
        newp := AlignFront(p, k, nb);
      }
      TrimTail(newp, nb);
      LiveGrid(Fields(), Model(), newp);
    }

    /** `internal_memalign` for the alignment `2^k`. */
    method AlignedMalloc(k: nat, bytes: nat, sys: System) returns (mem: int)
      requires 6 <= k <= 63 && bytes < W64 && Valid()
               && SystemOk(Fields(), Model(), MallocSize(AlignRequest(k, bytes)), sys)
      modifies this, bins
      ensures Valid()
      ensures mem == 0 ==> Fields() == old(Fields()) && Model() == old(Model())
      ensures mem != 0 ==> IsMultiple(mem, Pow2(k)) && Given(old(live), live, mem - 16, bytes + OVERHEAD)
      ensures mem != 0 && mem - 16 !in mapped ==> live[mem - 16] <= Request2Size(bytes) + MIN_CHUNK
      ensures mem != 0 && mem - 16 in mapped ==> bytes + 16 <= live[mem - 16]
      ensures SameKinds(old(Model()), Model(), mem - 16)
      ensures mem != 0 ==> Charged(old(Fields()), Fields(), MallocSize(AlignRequest(k, bytes)), sys,
                                   Exhausted(old(Fields()), old(bins.view.sizes), MallocSize(AlignRequest(k, bytes))))
      ensures mem == 0 <==>
                bytes + Pow2(k) >= MAX_REQUEST
                || Refuses(old(Fields()), old(bins.view.sizes), AlignRequest(k, bytes), sys)
    {
      hide Sound, Ok, Grantable, RegionSize, DirectSize, Request2Size, IsMultiple, And, Truncated, Pow2, MallocSize,
           Refuses, Selected, MadeFor, Charged, Exhausted;
      ghost var s, sizes := Fields(), bins.view.sizes;
      var alignment := Pow2(k);
      if bytes + alignment >= MAX_REQUEST {
        return 0;
      }
      AlignRequestFits(k, bytes);
      var nb := Request2Size(bytes);
      var req := nb + alignment + MIN_CHUNK - OVERHEAD;
      mem := Malloc(req, sys);
      if mem != 0 {
        TooLarge(s, sizes, req, sys);
        AlignRequestSize(k, bytes);
        ghost var s1 := Fields();
        var p := mem - 16;
        p := AlignBlock(p, k, nb);
        mem := p + 16;
        ChargedSame(s, s1, Fields(), MallocSize(req), sys, Exhausted(s, sizes, MallocSize(req)));
      }
    }

    /** `dlmemalign`. */
    method Memalign(alignment0: nat, bytes: nat, sys: System) returns (mem: int)
      requires alignment0 <= Pow2(63) && bytes < W64 && Valid()
      requires SystemOk(Fields(), Model(), MallocSize(Asked(alignment0, bytes)), sys)
      modifies this, bins
      ensures Valid()
      ensures mem == 0 ==> Fields() == old(Fields()) && Model() == old(Model())
      ensures mem == 0 <==> AlignRefuses(old(Fields()), old(bins.view.sizes), alignment0, bytes, sys)
      ensures mem != 0 ==>
                Given(old(live), live, mem - 16, bytes + OVERHEAD)
                && IsMultiple(mem, Pow2(AlignExponent(alignment0, 6)))
      ensures mem != 0 && mem - 16 !in mapped ==> live[mem - 16] <= Request2Size(bytes) + MIN_CHUNK
      ensures mem != 0 ==> Charged(old(Fields()), Fields(), MallocSize(Asked(alignment0, bytes)), sys,
                                   Exhausted(old(Fields()), old(bins.view.sizes), MallocSize(Asked(alignment0, bytes))))
      ensures Step(old(Model()), if mem == 0 then Refused else Allocated(mem - 16, bytes), Model())
    {
      hide Sound, Ok, Grantable, RegionSize, DirectSize, IsMultiple, Pow2, MallocSize, AlignRequest, Refuses, Selected,
           Charged, Exhausted, MadeFor, Request2Size;
      TooLarge(Fields(), bins.view.sizes, bytes, sys);
      SizeAsked(bytes);
      if alignment0 <= 64 {
        mem := Malloc(bytes, sys);
        if mem != 0 {
          MallocAligned(alignment0, mem);
        }
      } else {
        var alignment, k := RoundAlignment(alignment0);
        mem := AlignedMalloc(k, bytes, sys);
      }
    }

    // ---------- clients and checks ----------

    /** Clients write into their blocks, over heads, feet and links of former chunks. */
    method ClientWrites(heads: Heads, feet: Feet, links: Links)
      requires Valid() && ClientHeads(Model(), head, heads) && ClientFeet(Model(), foot, feet)
      requires ClientLinks(Model(), bins.links, links) && forall i: nat | i < NBINS :: Slot(i) !in links
      modifies this`head, this`foot, bins`links
      ensures Valid() && Model() == old(Model())
    {
      ghost var s, w, raw := Fields(), Model(), bins.Memory();
      hide Sound, Ok, ClientHeads, ClientFeet, ClientLinks;
      LinksSpared(s, w, raw, bins.view, links);
      head, foot := heads, feet;
      bins.links := links;
      ScribbleSound(s, w, heads, feet);
      OkScribble(raw, bins.view, bins.Memory());
    }

    /** The inner loop of `traverse_and_check`: adds up the chunks of segment `g` and checks them on the way. */
    method WalkSegment(g: Segment) returns (sum: nat, q: int)
      requires g in segs && Valid()
      ensures q in tiles && tiles[q].seg == g && (q == top || tiles[q].kind.Fence?)
      ensures Start(g.base) + sum == q
    {
      ghost var s, w := Fields(), Model();
      hide Sound, Ok, Start;
      SegmentStart(s, w, g);
      StartInuse(s, w, g);
      sum, q := 0, Start(g.base);
      assert head[q].pinuse;
      while g.base <= q < g.base + g.size && q != top
          && !(head[q].size == FENCE_HEAD && head[q].cinuse && head[q].pinuse)
        invariant q in tiles && q in head && tiles[q].seg == g && !tiles[q].kind.Foot?
                  && q + tiles[q].size <= g.base + g.size && g.base <= q
        invariant Start(g.base) + sum == q
        decreases g.base + g.size - q
      {
        WalkStep(s, w, q);
        assert (q + 16) % 64 == 0 && leastAddr <= q;
        if head[q].cinuse {
          if !head[q].pinuse {
            var prev := q - foot[q];
            assert prev + head[prev].size == q;
          }
          assert q !in bins.view.sizes && q != dv && head[q + head[q].size].pinuse;
        } else {
          assert (q == dv || q in bins.view.sizes) && head[q].pinuse;
          assert !head[q + head[q].size].pinuse && foot[q + head[q].size] == head[q].size;
          assert q + head[q].size != top && head[q + head[q].size].cinuse;
          if q != dv {
            BinnedLinks(bins.Memory(), bins.view, q);
            var fd, bk := bins.links[q].fd, bins.links[q].bk;
            assert bins.links[fd].bk == q && bins.links[bk].fd == q;
          }
        }
        sum := sum + head[q].size;
        q := q + head[q].size;
      }
      WalkEnds(s, w, q);
    }

    /**
     `traverse_and_check` over all segments: every chunk, the top and its foot area are counted once, fenceposts never.
     */
    method Traverse() returns (total: nat)
      requires Valid() && top != 0
      ensures total == Bytes(OfKind(tiles, Used)) + Bytes(OfKind(tiles, Record)) + Bytes(OfKind(tiles, Kind.Free))
              + topsize + TOP_FOOT
      ensures total + Bytes(OfKind(tiles, Fence)) + Gaps(segs) + MappedBytes(mapped) == footprint
    {
      ghost var s, w := Fields(), Model();
      hide Sound, Ok, Start, FencesOf, Bytes, OfKind, MappedBytes;
      IsTopped(s, w);
      TopHeld(s, w);
      NoFences(tiles);
      ghost var home := tiles[top].seg;
      total := topsize + TOP_FOOT;
      var i := 0;
      while i < |segs|
        invariant 0 <= i <= |segs|
        invariant total + Gaps(segs[..i]) + Bytes(FencesOf(tiles, segs[..i]))
               == SegmentBytes(segs[..i]) + if home in segs[..i] then 0 else topsize + TOP_FOOT
      {
        var sum, q := WalkSegment(segs[i]);
        SegmentTail(s, w, i, q);
        SegmentBytesSnoc(segs, i);
        FenceStep(s, w, i, q);
        GapsSnoc(segs, i);
        assert segs[..i + 1] == segs[..i] + [segs[i]];
        total := total + sum;
        i := i + 1;
      }
      assert segs[..i] == segs;
      FootprintIs(s, w);
      AllFences(s, w);
      Conserved(s, w);
    }
  }
  /** The first request of a program: whatever region the system grants, its first chunk address serves. */
  method FirstRequest(bytes: nat, base: nat) returns (heap: Heap, mem: int)
    requires bytes < MAX_REQUEST && base > 0 && base % 8 == 0
    requires var nb := MallocSize(bytes); nb < RegionSize(nb) && base + RegionSize(nb) <= W64
    ensures heap.Valid() && mem == Start(base) + 16 && mem - 16 in heap.live
    ensures bytes + OVERHEAD <= heap.live[mem - 16] && heap.live == map[mem - 16 := heap.live[mem - 16]]
    ensures heap.footprint == RegionSize(MallocSize(bytes)) && heap.segs == [Segment(base, heap.footprint)]
  {
    heap := new Heap();
    var sys := System(Fail, Region(base));
    FirstServed(heap.Fields(), heap.Model(), bytes, base);
    hide Sound, Ok, RegionSize, DirectSize, SystemOk, Refuses, Selected, Charged, MallocSize, Start;
    mem := heap.Malloc(bytes, sys);
  }
}
