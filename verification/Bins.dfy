/** The bins of `malloc_state` as an object: small lists, tries and their maps, updated in place. */
module BinStore {
  import opened Words
  import opened BinMaps
  import opened SizeClasses
  import opened TreeIndexing
  import opened Trie
  import opened TrieBits
  import opened TreeLinks
  import opened TreeEdits
  import opened TreeUnlink
  import opened Cycles
  import opened BinState
  import opened BinSteps
  import opened BinOrder
  import opened TreeSearch
  import opened ChunkHeads

  class Bins {
    var smallmap: nat
    var treemap: nat
    var treebins: seq<int>
    var links: Links
    ghost var view: View

    function Memory(): Raw
      reads this
    {
      Raw(smallmap, treemap, treebins, links)
    }

    ghost predicate Valid()
      reads this
    {
      Ok(Memory(), view)
    }

    /** The zeroed bins of a fresh `malloc_state`. */
    constructor ()
      ensures Valid() && view.sizes == map[]
    {
      smallmap, treemap := 0, 0;
      treebins := seq(NBINS, i => 0);
      links := ZeroHeaders(NBINS);
      view := View(map[], seq(NBINS, i => []), seq(NBINS, i => Nil));
      new;
      ZeroHeadersHas(NBINS);
      EmptyOk(Memory(), view);
    }

    /** `init_bins`: every header links to itself. */
    method InitBins()
      requires Valid() && view.sizes == map[]
      modifies this
      ensures Valid() && view == old(view)
      ensures forall i: nat | i < NBINS :: Header(i) in links && links[Header(i)].fd == Header(i) == links[Header(i)].bk
    {
      hide Ok;
      for i := 0 to NBINS
        invariant Valid() && view == old(view)
        invariant forall j: nat | j < i :: Header(j) in links && links[Header(j)].fd == Header(j) == links[Header(j)].bk
      {
        ghost var raw := Memory();
        HeaderKnown(raw, view, i);
        links := links[Header(i) := links[Header(i)].(fd := Header(i), bk := Header(i))];
        EmptyScribble(raw, view, Memory());
      }
    }

    /** The record of a chunk is the memory of the chunk itself, whatever that holds. */
    method Touch(p: int)
      requires Valid() && p > 0
      modifies this
      ensures Valid() && p in links && view == old(view)
    {
      hide Ok;
      if p !in links {
        ghost var raw := Memory();
        links := links[p := Link(0, 0, 0, 0, 0, 0)];
        TouchOk(raw, view, p, Memory());
      }
    }

    /** `insert_chunk`. */
    method InsertChunk(p: int, s: nat, heads: Heads)
      requires Valid() && p > 0 && p !in view.sizes && MIN_CHUNK <= s < W64 && s % 8 == 0 && Sized(view.sizes, heads)
      modifies this
      ensures Valid() && view.sizes == old(view.sizes)[p := s]
      ensures if IsSmall(s) then Pushed(old(view), view, p, s) else Enqueued(old(view), view, p, s)
    {
      hide Ok;
      Touch(p);
      if IsSmall(s) {
        InsertSmall(p, s);
      } else {
        InsertLarge(p, s, heads);
      }
    }

    /** `unlink_chunk`. */
    method UnlinkChunk(p: int, s: nat)
      requires Valid() && p in view.sizes && view.sizes[p] == s
      modifies this
      ensures Valid() && view.sizes == old(view.sizes) - {p}
      ensures Departed(old(view), view, p, s)
    {
      hide Ok;
      if IsSmall(s) {
        UnlinkSmall(p, s);
      } else {
        UnlinkLarge(p);
      }
    }

    /** `insert_small_chunk`. */
    method InsertSmall(p: int, s: nat)
      requires Valid() && p > 0 && p !in view.sizes && p in links && IsSmall(s) && s % 8 == 0
      modifies this
      ensures Valid() && view.sizes == old(view.sizes)[p := s] && links.Keys == old(links.Keys)
      ensures Pushed(old(view), view, p, s)
    {
      var i := SmallIndex(s);
      ghost var raw, v := Memory(), view;
      assert SmallBin(raw, v, i);
      LinkSmallCycle(raw, v, p, i);
      if Has(smallmap, i) {
        FirstOfBin(raw, v, i);
      }
      hide Ok, SmallBin, Cycle, Has, Mark;
      var b := Header(i);
      var f := b;
      if !Has(smallmap, i) {
        smallmap := Mark(smallmap, i);
      } else {
        f := links[b].fd;
        assert f in view.sizes;
      }
      links := links[b := links[b].(fd := p)];
      links := links[f := links[f].(bk := p)];
      links := links[p := links[p].(fd := f, bk := b)];
      assert links == LinkSmall(raw.links, b, p, Has(raw.smallmap, i));
      LinkSmallKeys(raw, p, i);
      InsertSmallOk(raw, v, p, i, Memory());
      SmallPushed(v, p, s);
      view := SmallInserted(v, p, i);
    }

    /** `unlink_small_chunk`. */
    method UnlinkSmall(p: int, s: nat)
      requires Valid() && p in view.sizes && view.sizes[p] == s && IsSmall(s)
      modifies this
      ensures Valid() && view.sizes == old(view.sizes) - {p} && links.Keys == old(links.Keys)
      ensures Departed(old(view), view, p, s)
    {
      var i := SmallIndex(s);
      ghost var raw, v := Memory(), view;
      assert SmallBin(raw, v, i) && Placed(v, p);
      UnlinkSmallCycle(raw, v, p, i);
      SmallNeighbours(raw, v, p, i);
      hide Ok, SmallBin, Cycle, Clear;
      var f, b := links[p].fd, links[p].bk;
      assert p != b && p != f && (f == Header(i) || (f in view.sizes && links[f].bk == p));
      if b == f {
        smallmap := Clear(smallmap, i);
      } else {
        assert b == Header(i) || (b in view.sizes && links[b].fd == p);
        links := links[f := links[f].(bk := b)];
        links := links[b := links[b].(fd := f)];
      }
      UnlinkSmallKeys(raw.links, v.small[i], p);
      UnlinkSmallOk(raw, v, p, i, Memory());
      SmallDeparted(v, p, s);
      view := SmallRemoved(v, p, i);
    }

    /** `unlink_first_small_chunk`: takes the chunk behind the header. */
    method UnlinkFirstSmall(i: nat) returns (p: int)
      requires Valid() && i < NBINS && Has(smallmap, i)
      modifies this
      ensures Valid() && p in old(view.sizes) && old(view.sizes)[p] == 8 * i
      ensures view.sizes == old(view.sizes) - {p} && links.Keys == old(links.Keys)
      ensures NextInLine(old(view), p) && Departed(old(view), view, p, 8 * i)
    {
      ghost var raw, v := Memory(), view;
      assert SmallBin(raw, v, i);
      FirstOfBin(raw, v, i);
      var b := Header(i);
      p := links[b].fd;
      UnlinkSmallCycle(raw, v, p, i);
      SmallNeighbours(raw, v, p, i);
      hide Ok, SmallBin, Cycle, Clear, Has;
      var f := links[p].fd;
      assert p != b && p != f;
      if b == f {
        smallmap := Clear(smallmap, i);
      } else {
        assert f in view.sizes && links[f].bk == p;
        links := links[f := links[f].(bk := b)];
        links := links[b := links[b].(fd := f)];
      }
      UnlinkSmallKeys(raw.links, v.small[i], p);
      UnlinkSmallOk(raw, v, p, i, Memory());
      SmallDeparted(v, p, 8 * i);
      view := SmallRemoved(v, p, i);
    }

    /** The descent of `insert_large_chunk`: finds the node of size `s`, or the child link where it belongs. */
    method Descend(i: nat, s: nat, heads: Heads) returns (t: int, right: bool, same: bool)
      requires Valid() && LargeIn(s, i) && Has(treemap, i) && Sized(view.sizes, heads)
      ensures Ordered(view.trees[i], BinLo(i), BinBits(i))
      ensures var r := Reach(view.trees[i], s, BinLo(i), BinBits(i), Slot(i), false);
              if same then r.sub.Node? && r.sub.ring != [] && t == r.sub.ring[0] && t in links
              else r.sub.Nil? && r.parent == t && r.right == right && t in links
    {
      assert TreeBin(Memory(), view, i);
      WalkStart(Memory(), view, i, s);
      t := treebins[i];
      right := false;
      same := false;
      var bits := Shl64(s, LeftShift(i));
      ghost var g, parent, lo, n := view.trees[i], Slot(i), BinLo(i), BinBits(i);
      hide Ok, Shl64, TreeBin, BinOf, Walking, Reach, Ordered, Half, HalfLo, GoesRight, Has,
           SignSet, Double64, LeftShift, BinLo, BinBits;
      while true
        invariant Walking(view.sizes, links, view.trees[i], i, s, g, t, parent, right, lo, n, bits)
        decreases n
      {
        WalkAt(view.sizes, links, view.trees[i], i, s, g, t, parent, right, lo, n, bits);
        if heads[t].size == s {
          WalkFound(view.sizes, links, view.trees[i], i, s, g, t, parent, right, lo, n, bits);
          same := true;
          return;
        }
        WalkDown(view.sizes, links, view.trees[i], i, s, g, t, parent, right, lo, n, bits);
        var down := SignSet(bits);
        bits := Double64(bits);
        var child := if down then links[t].right else links[t].left;
        right := down;
        if child == 0 {
          return;
        }
        parent, g, lo, n := t, Half(g, s, lo, n), HalfLo(s, lo, n), n - 1;
        t := child;
      }
    }

    /** The three ways in which `insert_large_chunk` ends: a new root, a further chunk of a ring, a new leaf. */
    method NewRoot(x: int, s: nat, i: nat)
      requires Insertable(Memory(), view, x, s, i) && !Has(treemap, i)
      modifies this
      ensures Valid() && view.sizes == old(view.sizes)[x := s] && links.Keys == old(links.Keys)
      ensures Enqueued(old(view), view, x, s)
    {
      ghost var raw, v := Memory(), view;
      hide Ok, LargeIn, Mark, Has, Ordered, Insert;
      treemap := Mark(treemap, i);
      treebins := treebins[i := x];
      links := links[x := Link(x, x, 0, 0, Slot(i), i)];
      InsertEmpty(raw, v, x, s, i, Memory());
      BinOfLarge(s, i);
      LargeEnqueued(v, x, s, i);
      view := LargeInserted(v, x, s, i);
    }

    method JoinRing(x: int, s: nat, i: nat, t: int)
      requires Insertable(Memory(), view, x, s, i) && Has(treemap, i)
      requires var r := Reach(view.trees[i], s, BinLo(i), BinBits(i), Slot(i), false);
               r.sub.Node? && r.sub.ring != [] && t == r.sub.ring[0]
      modifies this
      ensures Valid() && view.sizes == old(view.sizes)[x := s] && links.Keys == old(links.Keys)
      ensures Enqueued(old(view), view, x, s)
    {
      ghost var raw, v := Memory(), view;
      InsertSameReady(raw, v, x, s, i, t);
      hide Ok, LargeIn, Has, Ordered, Insert, Reach, TreeAt, Within;
      var f := links[t].fd;
      assert t in view.sizes && f in view.sizes;
      links := links[t := links[t].(fd := x)];
      links := links[f := links[f].(bk := x)];
      links := links[x := Link(f, t, 0, 0, 0, i)];
      InsertSame(raw, v, x, s, i, t, Memory());
      BinOfLarge(s, i);
      LargeEnqueued(v, x, s, i);
      view := LargeInserted(v, x, s, i);
    }

    method NewLeaf(x: int, s: nat, i: nat, t: int, right: bool)
      requires Insertable(Memory(), view, x, s, i) && Has(treemap, i) && t in links
      requires var r := Reach(view.trees[i], s, BinLo(i), BinBits(i), Slot(i), false);
               r.sub.Nil? && r.parent == t && r.right == right
      modifies this
      ensures Valid() && view.sizes == old(view.sizes)[x := s] && links.Keys == old(links.Keys)
      ensures Enqueued(old(view), view, x, s)
    {
      ghost var raw, v := Memory(), view;
      AboveIsBinned(raw, v, x, s, i);
      hide Ok, LargeIn, Has, Ordered, Insert, Reach;
      assert t in view.sizes;
      links := links[x := Link(x, x, 0, 0, t, i)];
      links := links[t := SetChild(links[t], right, x)];
      InsertLeaf(raw, v, x, s, i, t, right, Memory());
      BinOfLarge(s, i);
      LargeEnqueued(v, x, s, i);
      view := LargeInserted(v, x, s, i);
    }

    /** `insert_large_chunk`. */
    method InsertLarge(x: int, s: nat, heads: Heads)
      requires Valid() && x > 0 && x !in view.sizes && x in links && MIN_LARGE <= s < W64 && Sized(view.sizes, heads)
      modifies this
      ensures Valid() && view.sizes == old(view.sizes)[x := s] && links.Keys == old(links.Keys)
      ensures Enqueued(old(view), view, x, s)
    {
      var i := ComputeTreeIndex(s);
      CanInsert(Memory(), view, x, s, i);
      hide Ok, BinOf, MinSize, Has, Reach, Ordered;
      if !Has(treemap, i) {
        NewRoot(x, s, i);
      } else {
        var t, right, same := Descend(i, s, heads);
        if same {
          JoinRing(x, s, i, t);
        } else {
          NewLeaf(x, s, i, t, right);
        }
      }
    }

    /** The walk of `unlink_large_chunk` to a leaf below `x`: right whenever possible, else left. */
    method FindLeaf(x: int, ghost sub: Tree, ghost lo: nat, ghost n: nat) returns (r: int, a: int, right: bool)
      requires sub.Node? && Ordered(sub, lo, n) && exists parent :: TreeAt(view.sizes, links, sub, x, parent)
      requires x in links && x in view.sizes
      ensures r == 0 <==> Below(sub).Nil?
      ensures r != 0 ==> a in view.sizes
      ensures r != 0 ==> Tail(r, a, right) == Rightmost(Below(sub), x, sub.right.Node?)
    {
      ghost var parent :| TreeAt(view.sizes, links, sub, x, parent);
      RootSize(view.sizes, links, sub.left, links[x].left, x);
      RootSize(view.sizes, links, sub.right, links[x].right, x);
      hide RingAt, Ordered;
      a := x;
      right := links[x].right != 0;
      r := if right then links[x].right else links[x].left;
      if r == 0 {
        return;
      }
      ghost var g := Below(sub);
      LeafWalkAt(view.sizes, links, g, r, a);
      while links[r].right != 0 || links[r].left != 0
        invariant g.Node? && r in links && r != 0 && r in view.sizes && a in view.sizes
        invariant TreeAt(view.sizes, links, g, r, a)
        invariant Rightmost(Below(sub), x, sub.right.Node?) == Rightmost(g, a, right)
        decreases g
      {
        RootSize(view.sizes, links, g.left, links[r].left, r);
        RootSize(view.sizes, links, g.right, links[r].right, r);
        g := Below(g);
        a := r;
        right := links[r].right != 0;
        r := if right then links[r].right else links[r].left;
        LeafWalkAt(view.sizes, links, g, r, a);
      }
      RootSize(view.sizes, links, g.left, links[r].left, r);
      RootSize(view.sizes, links, g.right, links[r].right, r);
      LeafWalkAt(view.sizes, links, g, r, a);
    }

    /** The last part of `unlink_large_chunk`: `r` takes the place of the tree node `x`. */
    method Replace(x: int, parent: int, r: int, i: nat)
      requires x in links && parent != x && (r != 0 ==> r in links) && r != x
      requires (links[x].left != 0 ==> links[x].left in links) && (links[x].right != 0 ==> links[x].right in links)
      requires i < |treebins| && i < NBINS && (treebins[i] == x <==> parent !in links)
      requires (parent in links ==> parent in view.sizes) && (r != 0 ==> Replaceable(view.sizes, links, x, r))
      modifies this
      ensures links == TakeOver(old(links), x, parent, r) && view == old(view) && smallmap == old(smallmap)
      ensures treebins == if old(treebins[i]) == x then old(treebins)[i := r] else old(treebins)
      ensures treemap == if old(treebins[i]) == x && r == 0 then Clear(old(treemap), i) else old(treemap)
    {
      hide Clear;
      if treebins[i] == x {
        treebins := treebins[i := r];
        if r == 0 {
          treemap := Clear(treemap, i);
        }
      } else {
        assert parent in view.sizes;
        if links[parent].left == x {
          links := links[parent := links[parent].(left := r)];
        } else {
          links := links[parent := links[parent].(right := r)];
        }
      }
      if r != 0 {
        assert r in view.sizes;
        links := links[r := links[r].(parent := parent)];
        var c0 := links[x].left;
        if c0 != 0 {
          assert c0 in view.sizes;
          links := links[r := links[r].(left := c0)];
          links := links[c0 := links[c0].(parent := r)];
        }
        var c1 := links[x].right;
        if c1 != 0 {
          assert c1 in view.sizes;
          links := links[r := links[r].(right := c1)];
          links := links[c1 := links[c1].(parent := r)];
        }
      }
    }

    /** `unlink_large_chunk`. */
    method UnlinkLarge(x: int)
      requires Valid() && x in view.sizes && !IsSmall(view.sizes[x])
      modifies this
      ensures Valid() && view.sizes == old(view.sizes) - {x} && links.Keys == old(links.Keys)
      ensures Departed(old(view), view, x, old(view.sizes)[x])
    {
      ghost var raw, v := Memory(), view;
      ghost var s := v.sizes[x];
      CanUnlinkLarge(raw, v, x, s);
      var i := links[x].index;
      ghost var sp := Place(v, s, i);
      hide Ok, Removable, Has, Clear, Place, BinOf;
      var parent := links[x].parent;
      var r: int;
      if links[x].bk != x {
        ReadyByRing(raw, v, x, s, i, sp);
        var f := links[x].fd;
        r := links[x].bk;
        assert f in view.sizes && links[f].bk == x && links[r].fd == x;
        links := links[f := links[f].(bk := r)];
        links := links[r := links[r].(fd := f)];
      } else {
        var a, right;
        r, a, right := FindLeaf(x, sp.sub, sp.lo, sp.n);
        ReadyByLeaf(raw, v, x, s, i, sp, Tail(r, a, right), r);
        if r != 0 {
          assert a in view.sizes;
          links := links[a := SetChild(links[a], right, 0)];
        }
      }
      ghost var links1 := links;
      if parent != 0 {
        AboveUnlinked(raw, v, x, s, i, sp, links1, r);
        Replace(x, parent, r, i);
        TreeNodeGone(raw, v, x, s, i, sp, links1, r, Memory());
      } else {
        ChainedGone(raw, v, x, s, i, sp, Memory());
      }
      RemovableOpen(v, x, s, i);
      OwnRing(raw, v, x);
      LargeDeparted(v, x, s, i);
      view := LargeRemoved(v, x, s, i);
    }
  }

  function ZeroHeaders(n: nat): Links
    decreases n, 0
  {
    if n == 0 then map[] else ZeroHeaders(n - 1)[Header(n - 1) := Link(0, 0, 0, 0, 0, 0)]
  }

  lemma {:induction false} ZeroHeadersHas(n: nat)
    ensures forall i: nat | i < n :: Header(i) in ZeroHeaders(n)
    ensures forall a | a in ZeroHeaders(n) :: a <= -101
  {
    if n > 0 {
      ZeroHeadersHas(n - 1);
    }
  }

  lemma EmptyOk(raw: Raw, v: View)
    requires raw.smallmap == 0 && raw.treemap == 0 && |raw.treebins| == NBINS && |v.small| == NBINS
             && |v.trees| == NBINS
    requires forall i: nat | i < NBINS :: Slot(i) !in raw.links && Header(i) in raw.links
    requires forall i: nat | i < NBINS :: raw.treebins[i] == 0 && v.small[i] == [] && v.trees[i] == Nil
    requires v.sizes == map[]
    ensures Ok(raw, v)
  {
    hide BinOf;
  }

  lemma HeaderKnown(raw: Raw, v: View, i: nat)
    requires Ok(raw, v) && i < NBINS
    ensures Header(i) in raw.links
  {
    assert SmallBin(raw, v, i);
  }

  lemma SomeMember(list: seq<int>) returns (q: int)
    requires list != []
    ensures q in list
  {
    q := list[0];
  }

  lemma NothingSmall(sizes: Binned, list: seq<int>, i: nat)
    requires sizes == map[] && forall q | q in list :: q in sizes && sizes[q] == 8 * i
    ensures list == []
  {
    if list != [] {
      var q := SomeMember(list);
      assert false;
    }
  }

  /** Without binned chunks the links of the headers mean nothing. */
  lemma EmptyScribble(raw: Raw, v: View, raw': Raw)
    requires Ok(raw, v) && v.sizes == map[] && raw' == raw.(links := raw'.links) && raw'.links.Keys == raw.links.Keys
    ensures Ok(raw', v)
  {
    forall i: nat | i < NBINS
      ensures SmallBin(raw', v, i) && TreeBin(raw', v, i)
    {
      assert SmallBin(raw, v, i) && TreeBin(raw, v, i) && Slot(i) !in raw.links;
      hide BinOf, Ordered;
      NothingSmall(v.sizes, v.small[i], i);
      RootSize(v.sizes, raw.links, v.trees[i], raw.treebins[i], Slot(i));
    }
  }

  lemma TouchOk(raw: Raw, v: View, p: int, raw': Raw)
    requires Ok(raw, v) && p > 0 && p !in raw.links && raw' == raw.(links := raw.links[p := Link(0, 0, 0, 0, 0, 0)])
    ensures Ok(raw', v)
  {
    forall i: nat | i < NBINS
      ensures Slot(i) !in raw'.links && Spared(raw.links, raw'.links, Header(i))
    {
      HeaderKnown(raw, v, i);
    }
    OkScribble(raw, v, raw');
  }

  /** Where the descent for size `s` stands: at chunk `t`, the root of `g`, with the remaining bits of `s` in `bits`. */
  ghost predicate Walking(sizes: Binned, links: Links, root: Tree, i: nat, s: nat,
                          g: Tree, t: int, parent: int, right: bool, lo: nat, n: nat, bits: nat) {
    && g.Node? && TreeAt(sizes, links, g, t, parent) && Ordered(g, lo, n) && InRange(s, lo, n)
    && BitsOf(bits, s, lo, n)
    && Ordered(root, BinLo(i), BinBits(i))
    && Reach(root, s, BinLo(i), BinBits(i), Slot(i), false) == Reach(g, s, lo, n, parent, right)
  }

  lemma WalkStart(raw: Raw, v: View, i: nat, s: nat)
    requires Ok(raw, v) && LargeIn(s, i) && v.trees[i].Node?
    ensures LeftShift(i) == 64 - BinBits(i)
    ensures Walking(v.sizes, raw.links, v.trees[i], i, s, v.trees[i], raw.treebins[i], Slot(i), false,
                    BinLo(i), BinBits(i), Shl64(s, LeftShift(i)))
  {
    hide BinOf, Lift, MinSize, RingAt;
    assert TreeBin(raw, v, i);
    BinRange(s, i);
    BinLoAligned(i);
    var q: nat :| BinLo(i) == q * Pow2(BinBits(i));
    ShiftIn(s, BinLo(i), BinBits(i), q);
  }

  /** One step down: the sign bit picks the child on the side of `s`. */
  lemma WalkDown(sizes: Binned, links: Links, root: Tree, i: nat, s: nat,
                 g: Tree, t: int, parent: int, right: bool, lo: nat, n: nat, bits: nat)
    requires Walking(sizes, links, root, i, s, g, t, parent, right, lo, n, bits) && g.size != s
    ensures n > 0 && t in links && (SignSet(bits) <==> GoesRight(s, lo, n))
    ensures var child := if SignSet(bits) then links[t].right else links[t].left;
            if child == 0 then
              Reach(root, s, BinLo(i), BinBits(i), Slot(i), false)
                  == Spot(Nil, HalfLo(s, lo, n), n - 1, t, GoesRight(s, lo, n))
            else
              Walking(sizes, links, root, i, s, Half(g, s, lo, n), child, t, GoesRight(s, lo, n),
                      HalfLo(s, lo, n), n - 1, Double64(bits))
  {
    hide BinOf, Lift, RingAt;
    ShiftOn(bits, s, lo, n);
    RootSize(sizes, links, g.left, links[t].left, t);
    RootSize(sizes, links, g.right, links[t].right, t);
    assert Reach(g, s, lo, n, parent, right)
        == Reach(Half(g, s, lo, n), s, HalfLo(s, lo, n), n - 1, t, GoesRight(s, lo, n));
  }

  lemma WalkAt(sizes: Binned, links: Links, root: Tree, i: nat, s: nat,
               g: Tree, t: int, parent: int, right: bool, lo: nat, n: nat, bits: nat)
    requires Walking(sizes, links, root, i, s, g, t, parent, right, lo, n, bits)
    ensures g.Node? && t in sizes && sizes[t] == g.size && t in links
  {
    hide BinOf;
    RootSize(sizes, links, g, t, parent);
  }

  /** At a node of size `s` the descent ends. */
  lemma WalkFound(sizes: Binned, links: Links, root: Tree, i: nat, s: nat,
                  g: Tree, t: int, parent: int, right: bool, lo: nat, n: nat, bits: nat)
    requires Walking(sizes, links, root, i, s, g, t, parent, right, lo, n, bits) && g.size == s
    ensures var r := Reach(root, s, BinLo(i), BinBits(i), Slot(i), false);
            r.sub.Node? && r.sub.ring != [] && r.sub.ring[0] == t && t in links
  {
  }

  lemma FirstOfBin(raw: Raw, v: View, i: nat)
    requires Shaped(raw, v) && i < NBINS && SmallBin(raw, v, i) && v.small[i] != []
    ensures Header(i) in raw.links
    ensures var p := raw.links[Header(i)].fd;
            p == v.small[i][0] && p in v.small[i] && p in v.sizes && p in raw.links && raw.links[p].bk == Header(i)
  {
    var ring := [Header(i)] + v.small[i];
    CycleAt(raw.links, ring, 0);
    CycleAt(raw.links, ring, 1);
    assert ring[1] in v.small[i];
  }

  // ---------- insertion into a tree bin ----------

  /** What `insert_large_chunk` starts from. */
  ghost predicate Insertable(raw: Raw, v: View, x: int, s: nat, i: nat) {
    && Ok(raw, v) && Shaped(raw, v) && LargeIn(s, i) && x > 0 && x !in v.sizes && x in raw.links && i < NBINS
    && Ordered(v.trees[i], BinLo(i), BinBits(i)) && InRange(s, BinLo(i), BinBits(i))
  }

  lemma CanInsert(raw: Raw, v: View, x: int, s: nat, i: nat)
    requires Ok(raw, v) && MIN_LARGE <= s < W64 && i == BinOf(s) && x > 0 && x !in v.sizes && x in raw.links
    ensures Insertable(raw, v, x, s, i)
  {
    assert TreeBin(raw, v, i);
    BinRange(s, i);
  }

  lemma BinOfLarge(s: nat, i: nat)
    requires LargeIn(s, i)
    ensures BinOf(s) == i
  {
  }

  lemma AboveIsBinned(raw: Raw, v: View, x: int, s: nat, i: nat)
    requires Insertable(raw, v, x, s, i)
    ensures var a := Reach(v.trees[i], s, BinLo(i), BinBits(i), Slot(i), false).parent;
            a != x && (a in raw.links ==> a in v.sizes)
  {
    hide BinOf, RingAt, BinLo, BinBits;
    assert TreeBin(raw, v, i) && Slot(i) !in raw.links;
    ReachParent(v.sizes, raw.links, v.trees[i], raw.treebins[i], Slot(i), false, s, BinLo(i), BinBits(i));
  }

  lemma AttachWithin(raw: Raw, v: View, x: int, s: nat, i: nat, r: Spot)
    requires Insertable(raw, v, x, s, i) && r == Reach(v.trees[i], s, BinLo(i), BinBits(i), Slot(i), false)
    ensures Within(v.sizes, raw.links, Attach(raw.links, r, x, i), v.trees[i], x)
  {
    hide BinOf, RingAt, BinLo, BinBits;
    assert TreeBin(raw, v, i) && Slot(i) !in raw.links;
    ReachParent(v.sizes, raw.links, v.trees[i], raw.treebins[i], Slot(i), false, s, BinLo(i), BinBits(i));
  }

  lemma InsertEmpty(raw: Raw, v: View, x: int, s: nat, i: nat, raw': Raw)
    requires Insertable(raw, v, x, s, i) && !Has(raw.treemap, i)
    requires raw' == Retreed(raw, i, Mark(raw.treemap, i), x, raw.links[x := Link(x, x, 0, 0, Slot(i), i)])
    ensures Ok(raw', LargeInserted(v, x, s, i)) && raw'.links.Keys == raw.links.Keys
  {
    hide RingAt, Mark, Has;
    assert TreeBin(raw, v, i) && Slot(i) !in raw.links;
    var r := Reach(v.trees[i], s, BinLo(i), BinBits(i), Slot(i), false);
    AttachStores(v.sizes, raw.links, v.trees[i], raw.treebins[i], Slot(i), s, BinLo(i), BinBits(i), x);
    AttachWithin(raw, v, x, s, i, r);
    InsertLargeOk(raw, v, x, s, i, x, raw'.links, raw');
  }

  lemma InsertLeaf(raw: Raw, v: View, x: int, s: nat, i: nat, t: int, right: bool, raw': Raw)
    requires Insertable(raw, v, x, s, i) && Has(raw.treemap, i) && t in raw.links
    requires var r := Reach(v.trees[i], s, BinLo(i), BinBits(i), Slot(i), false);
             r.sub.Nil? && r.parent == t && r.right == right
    requires raw' == raw.(links := raw.links[x := Link(x, x, 0, 0, t, i)][t := SetChild(raw.links[t], right, x)])
    ensures Ok(raw', LargeInserted(v, x, s, i)) && raw'.links.Keys == raw.links.Keys
  {
    hide RingAt, Has;
    assert TreeBin(raw, v, i) && Slot(i) !in raw.links;
    var r := Reach(v.trees[i], s, BinLo(i), BinBits(i), Slot(i), false);
    AttachStores(v.sizes, raw.links, v.trees[i], raw.treebins[i], Slot(i), s, BinLo(i), BinBits(i), x);
    AttachWithin(raw, v, x, s, i, r);
    assert raw.treebins[i := raw.treebins[i]] == raw.treebins;
    InsertLargeOk(raw, v, x, s, i, raw.treebins[i], raw'.links, raw');
  }

  lemma InsertSameReady(raw: Raw, v: View, x: int, s: nat, i: nat, t: int)
    requires Insertable(raw, v, x, s, i)
    requires var r := Reach(v.trees[i], s, BinLo(i), BinBits(i), Slot(i), false);
             r.sub.Node? && r.sub.ring != [] && t == r.sub.ring[0]
    ensures t in raw.links && raw.links[t].fd in raw.links && t in v.sizes && raw.links[t].fd in v.sizes
    ensures Within(v.sizes, raw.links, ChainBehind(raw.links, t, x, i), v.trees[i], x)
    ensures TreeAt(v.sizes[x := s], ChainBehind(raw.links, t, x, i),
                   Insert(v.trees[i], s, x, BinLo(i), BinBits(i)), raw.treebins[i], Slot(i))
  {
    hide BinOf, BinLo, BinBits;
    assert TreeBin(raw, v, i) && Slot(i) !in raw.links;
    var tree, p := v.trees[i], raw.treebins[i];
    ReachSpot(tree, s, BinLo(i), BinBits(i), Slot(i), false);
    var r := Reach(tree, s, BinLo(i), BinBits(i), Slot(i), false);
    ReachHolds(tree, s, BinLo(i), BinBits(i), Slot(i), false, s);
    var y := ReachStored(v.sizes, raw.links, tree, p, Slot(i), false, s, BinLo(i), BinBits(i));
    RingMember(v.sizes, raw.links, r.sub.ring, s, 0);
    RingMember(v.sizes, raw.links, r.sub.ring, s, Next(0, |r.sub.ring|));
    hide RingAt;
    ChainStores(v.sizes, raw.links, tree, p, Slot(i), s, BinLo(i), BinBits(i), x, t);
  }

  lemma InsertSame(raw: Raw, v: View, x: int, s: nat, i: nat, t: int, raw': Raw)
    requires Insertable(raw, v, x, s, i) && Has(raw.treemap, i)
    requires var r := Reach(v.trees[i], s, BinLo(i), BinBits(i), Slot(i), false);
             r.sub.Node? && r.sub.ring != [] && t == r.sub.ring[0]
    requires t in raw.links && raw.links[t].fd in raw.links
    requires raw' == raw.(links := ChainBehind(raw.links, t, x, i))
    ensures Ok(raw', LargeInserted(v, x, s, i)) && raw'.links.Keys == raw.links.Keys
  {
    hide BinOf, BinLo, BinBits, Has, ChainBehind, Reach, Ordered;
    InsertSameReady(raw, v, x, s, i, t);
    assert raw.treebins[i := raw.treebins[i]] == raw.treebins;
    InsertLargeOk(raw, v, x, s, i, raw.treebins[i], raw'.links, raw');
  }

  // ---------- removal from a tree bin ----------

  lemma LeafWalkAt(sizes: Binned, links: Links, g: Tree, r: int, a: int)
    requires g.Node? && TreeAt(sizes, links, g, r, a)
    ensures r > 0 && r in links && First(g) == r
  {
    RootSize(sizes, links, g, r, a);
  }

  /** The place of size `s` in bin `i`. */
  ghost function Place(v: View, s: nat, i: nat): Spot
    requires i < |v.trees| && Ordered(v.trees[i], BinLo(i), BinBits(i))
  {
    Reach(v.trees[i], s, BinLo(i), BinBits(i), Slot(i), false)
  }

  /** What the records say about a chunk that is about to be unlinked. */
  ghost predicate Unlinkable(raw: Raw, v: View, x: int, s: nat, i: nat, sp: Spot) {
    && Ok(raw, v) && Shaped(raw, v) && Removable(v, x, s, i) && i < NBINS && sp == Place(v, s, i)
    && x in raw.links && raw.links[x].index == i && x > 0 && Slot(i) !in raw.links && Linked(v.sizes, raw.links)
    && sp.sub.Node? && sp.sub.size == s && x in sp.sub.ring && Ordered(sp.sub, sp.lo, sp.n)
    && RingAt(v.sizes, raw.links, sp.sub.ring, s)
    && (raw.links[x].bk != x <==> |sp.sub.ring| > 1)
    && (raw.links[x].bk == x ==> raw.links[x].parent != 0)
    && (raw.links[x].parent != 0 ==>
          && raw.links[x].parent == sp.parent && TreeAt(v.sizes, raw.links, sp.sub, x, sp.parent)
          && sp.parent != x && sp.parent != 0
          && (raw.treebins[i] == x <==> sp.parent !in raw.links)
          && (sp.parent in v.sizes ==> !Holds(sp.sub, v.sizes[sp.parent])))
  }

  lemma CanUnlinkLarge(raw: Raw, v: View, x: int, s: nat)
    requires Ok(raw, v) && x in v.sizes && v.sizes[x] == s && !IsSmall(s)
    ensures x in raw.links
    ensures var i := raw.links[x].index;
            && i < |v.trees| && Ordered(v.trees[i], BinLo(i), BinBits(i))
            && Unlinkable(raw, v, x, s, i, Place(v, s, i))
  {
    var i := BinOf(s);
    assert Placed(v, x) && TreeBin(raw, v, i) && Slot(i) !in raw.links;
    BinRange(s, i);
    hide BinOf, BinLo, BinBits, MinSize;
    UnlinkPlace(raw, v, x, s, i);
  }

  lemma UnlinkPlace(raw: Raw, v: View, x: int, s: nat, i: nat)
    requires Ok(raw, v) && Removable(v, x, s, i) && i < NBINS && TreeBin(raw, v, i) && Slot(i) !in raw.links
    ensures x in raw.links && raw.links[x].index == i && Unlinkable(raw, v, x, s, i, Place(v, s, i))
  {
    hide BinLo, BinBits, BinOf, SmallBin, Placed, Has, Ordered;
    var t, p, lo, n := v.trees[i], raw.treebins[i], BinLo(i), BinBits(i);
    ReachSpot(t, s, lo, n, Slot(i), false);
    SubstLookup(t, s, lo, n, Slot(i), false, Nil);
    var sp := Place(v, s, i);
    var y := ReachStored(v.sizes, raw.links, t, p, Slot(i), false, s, lo, n);
    ReachParent(v.sizes, raw.links, t, p, Slot(i), false, s, lo, n);
    RingPosition(v.sizes, raw.links, sp.sub, y, sp.parent, x);
    RootSize(v.sizes, raw.links, t, p, Slot(i));
  }

  lemma RingPosition(sizes: Binned, links: Links, sub: Tree, y: int, parent: int, x: int)
    requires sub.Node? && TreeAt(sizes, links, sub, y, parent) && x in sub.ring
    ensures x in links && x > 0 && x in sizes && sizes[x] == sub.size && links[x].index == BinOf(sub.size)
    ensures links[x].bk != x <==> |sub.ring| > 1
    ensures links[x].bk == x ==> links[x].parent != 0
    ensures links[x].parent != 0 ==> x == y && links[x].parent == parent
  {
    hide BinOf;
    var j := IndexOf(sub.ring, x);
    RingMember(sizes, links, sub.ring, sub.size, j);
    RingDiffers(sizes, links, sub.ring, sub.size, j, Prev(j, |sub.ring|));
  }

  lemma RemovableOpen(v: View, x: int, s: nat, i: nat)
    requires Removable(v, x, s, i)
    ensures i == BinOf(s) && i < |v.trees| && Ordered(v.trees[i], BinLo(i), BinBits(i))
            && InRange(s, BinLo(i), BinBits(i))
    ensures x in Lookup(v.trees[i], s, BinLo(i), BinBits(i))
  {
  }

  /** The replacement `r` waits, and apart from the place of `x` nothing has changed. */
  ghost predicate Prepared(raw: Raw, v: View, x: int, sp: Spot, links1: Links, r: int)
    requires sp.sub.Node? && x in sp.sub.ring
  {
    && links1.Keys == raw.links.Keys && x in links1 && r != x
    && Waiting(v.sizes - {x}, links1, x, RemoveHere(sp.sub, x), r, sp.parent)
    && Confined(v.sizes, raw.links, links1, sp.sub)
  }

  /** The replacement of `x` and the children that it takes over are binned. */
  predicate Replaceable(sizes: Binned, links: Links, x: int, r: int)
    requires x in links
  {
    && r in sizes && (links[x].left != 0 ==> links[x].left in sizes)
       && (links[x].right != 0 ==> links[x].right in sizes)
  }

  lemma AboveUnlinked(raw: Raw, v: View, x: int, s: nat, i: nat, sp: Spot, links1: Links, r: int)
    requires Unlinkable(raw, v, x, s, i, sp) && raw.links[x].parent != 0 && Prepared(raw, v, x, sp, links1, r)
    ensures sp.parent in links1 ==> sp.parent in v.sizes
    ensures r != 0 ==> Replaceable(v.sizes, links1, x, r)
  {
    hide BinOf, BinLo, BinBits;
    assert TreeBin(raw, v, i) && Slot(i) !in raw.links;
    ReachParent(v.sizes, raw.links, v.trees[i], raw.treebins[i], Slot(i), false, s, BinLo(i), BinBits(i));
    if r != 0 {
      var u := RemoveHere(sp.sub, x);
      RingMember(v.sizes - {x}, links1, u.ring, u.size, 0);
      RootSize(v.sizes - {x}, links1, u.left, links1[x].left, x);
      RootSize(v.sizes - {x}, links1, u.right, links1[x].right, x);
    }
  }

  // ---------- links both ways ----------

  /** Every binned chunk is linked both ways. */
  lemma BinnedLinks(raw: Raw, v: View, q: int)
    requires Ok(raw, v) && q in v.sizes
    ensures q in raw.links
    ensures var f, b := raw.links[q].fd, raw.links[q].bk;
            f in raw.links && raw.links[f].bk == q && b in raw.links && raw.links[b].fd == q
  {
    assert Placed(v, q);
    var s := v.sizes[q];
    if IsSmall(s) {
      assert SmallBin(raw, v, SmallIndex(s));
      SmallNeighbours(raw, v, q, SmallIndex(s));
    } else {
      RingLinks(raw, v, q, s);
    }
  }

  lemma RingLinks(raw: Raw, v: View, q: int, s: nat)
    requires Ok(raw, v) && q in v.sizes && v.sizes[q] == s && !IsSmall(s)
    ensures q in raw.links
    ensures var f, b := raw.links[q].fd, raw.links[q].bk;
            f in raw.links && raw.links[f].bk == q && b in raw.links && raw.links[b].fd == q
  {
    CanUnlinkLarge(raw, v, q, s);
    hide Ok, Removable, BinOf, BinLo, BinBits, Ordered;
    var ring := Place(v, s, raw.links[q].index).sub.ring;
    var j := IndexOf(ring, q);
    RingMember(v.sizes, raw.links, ring, s, j);
    RingMember(v.sizes, raw.links, ring, s, Next(j, |ring|));
    RingMember(v.sizes, raw.links, ring, s, Prev(j, |ring|));
  }

  lemma WaitingIs(sizes: Binned, links1: Links, x: int, u: Tree, r: int, parent: int)
    requires Ready(sizes, links1, x, u, r) && Linked(sizes, links1) && x in links1 && x !in sizes
    requires parent != x && parent != 0 && (parent in sizes ==> !Holds(u, sizes[parent]))
    requires u.Nil? ==> links1[x].left == 0 && links1[x].right == 0 && x != 0
    ensures Waiting(sizes, links1, x, u, r, parent) && r != x
  {
    hide BinOf;
    if u.Node? {
      RingMember(sizes, links1, u.ring, u.size, 0);
      RootSize(sizes, links1, u.left, links1[x].left, x);
      RootSize(sizes, links1, u.right, links1[x].right, x);
    }
  }

  lemma ReadyByRing(raw: Raw, v: View, x: int, s: nat, i: nat, sp: Spot)
    requires Unlinkable(raw, v, x, s, i, sp) && raw.links[x].bk != x
    ensures var f, r := raw.links[x].fd, raw.links[x].bk;
            && f in raw.links && f in v.sizes && raw.links[f].bk == x && r in raw.links && r in v.sizes
               && raw.links[r].fd == x
    ensures raw.links[x].parent != 0 ==> Prepared(raw, v, x, sp, Unchain(raw.links, x), raw.links[x].bk)
  {
    hide Ok, Removable, BinOf, Place, Ordered;
    var j := IndexOf(sp.sub.ring, x);
    RingMember(v.sizes, raw.links, sp.sub.ring, s, j);
    RingMember(v.sizes, raw.links, sp.sub.ring, s, Next(j, |sp.sub.ring|));
    RingMember(v.sizes, raw.links, sp.sub.ring, s, Prev(j, |sp.sub.ring|));
    hide RingAt;
    if raw.links[x].parent != 0 {
      ReadyFromRing(v.sizes, raw.links, sp.sub, x, sp.parent, sp.lo, sp.n);
      RemoveHereHolds(sp.sub, x);
      UnchainLink(raw.links, x, x);
      WaitingIs(v.sizes - {x}, Unchain(raw.links, x), x, RemoveHere(sp.sub, x), raw.links[x].bk, sp.parent);
    }
  }

  lemma ReadyByLeaf(raw: Raw, v: View, x: int, s: nat, i: nat, sp: Spot, w: Tail, r: int)
    requires Unlinkable(raw, v, x, s, i, sp) && raw.links[x].bk == x
    requires r == 0 <==> Below(sp.sub).Nil?
    requires r != 0 ==> w == Rightmost(Below(sp.sub), x, sp.sub.right.Node?) && r == w.leaf
    ensures r != 0 ==> w.parent in raw.links
    ensures Prepared(raw, v, x, sp, if r == 0 then raw.links else Detach(raw.links, w.parent, w.right), r)
  {
    hide Ok, Removable, BinOf, Place, Ordered;
    RemoveHereHolds(sp.sub, x);
    RingMember(v.sizes, raw.links, sp.sub.ring, s, 0);
    hide RingAt;
    if r != 0 {
      ReadyFromLeaf(v.sizes, raw.links, sp.sub, x, sp.parent, sp.lo, sp.n, w);
      WaitingIs(v.sizes - {x}, Detach(raw.links, w.parent, w.right), x, RemoveHere(sp.sub, x), r, sp.parent);
    } else {
      RootSize(v.sizes, raw.links, sp.sub.left, raw.links[x].left, x);
      RootSize(v.sizes, raw.links, sp.sub.right, raw.links[x].right, x);
      WaitingIs(v.sizes - {x}, raw.links, x, RemoveHere(sp.sub, x), r, sp.parent);
    }
  }

  lemma RemoveIsSubst(v: View, x: int, s: nat, i: nat, sp: Spot)
    requires Removable(v, x, s, i) && sp == Place(v, s, i) && sp.sub.Node? && x in sp.sub.ring
    ensures Remove(v.trees[i], s, x, BinLo(i), BinBits(i))
            == Subst(v.trees[i], s, BinLo(i), BinBits(i), RemoveHere(sp.sub, x))
  {
    ReachAgrees(v.trees[i], s, BinLo(i), BinBits(i), Slot(i));
  }

  lemma TreeNodeGone(raw: Raw, v: View, x: int, s: nat, i: nat, sp: Spot, links1: Links, r: int, raw': Raw)
    requires Unlinkable(raw, v, x, s, i, sp) && raw.links[x].parent != 0 && Prepared(raw, v, x, sp, links1, r)
    requires raw' == Raw(raw.smallmap,
                         if raw.treebins[i] == x && r == 0 then Clear(raw.treemap, i) else raw.treemap,
                         if raw.treebins[i] == x then raw.treebins[i := r] else raw.treebins,
                         TakeOver(links1, x, sp.parent, r))
    ensures Removable(v, x, s, i) && Ok(raw', LargeRemoved(v, x, s, i)) && raw'.links.Keys == raw.links.Keys
  {
    hide BinOf, RingAt, Clear, BinLo, BinBits, TakeOver;
    assert TreeBin(raw, v, i);
    var t, p := v.trees[i], raw.treebins[i];
    RootSize(v.sizes, raw.links, t, p, Slot(i));
    TakeOverStores(v.sizes, raw.links, links1, t, p, Slot(i), s, BinLo(i), BinBits(i), x, r, sp);
    RemoveIsSubst(v, x, s, i, sp);
    TakeOverWithin(raw, v, x, s, i, sp, links1, r);
    var root := if p == x then r else p;
    TreeNonempty(raw, v, x, s, i);
    assert raw.treebins[i := p] == raw.treebins;
    hide Ok, Removable, Prepared, Place;
    RemoveLargeOk(raw, v, x, s, i, root, raw'.links, raw');
  }

  lemma TreeNonempty(raw: Raw, v: View, x: int, s: nat, i: nat)
    requires Shaped(raw, v) && i < NBINS && Removable(v, x, s, i) && TreeBin(raw, v, i)
    ensures raw.treebins[i] != 0
  {
    hide BinOf;
    RootSize(v.sizes, raw.links, v.trees[i], raw.treebins[i], Slot(i));
  }

  lemma TakeOverKeys(links1: Links, x: int, parent: int, r: int)
    requires x in links1 && parent != x && (r != 0 ==> r in links1)
    requires (links1[x].left != 0 ==> links1[x].left in links1) && (links1[x].right != 0 ==> links1[x].right in links1)
    ensures TakeOver(links1, x, parent, r).Keys == links1.Keys
  {
  }

  lemma TakeOverWithin(raw: Raw, v: View, x: int, s: nat, i: nat, sp: Spot, links1: Links, r: int)
    requires Unlinkable(raw, v, x, s, i, sp) && raw.links[x].parent != 0 && Prepared(raw, v, x, sp, links1, r)
    ensures Within(v.sizes, raw.links, TakeOver(links1, x, sp.parent, r), v.trees[i], x)
    ensures TakeOver(links1, x, sp.parent, r).Keys == raw.links.Keys
  {
    hide BinOf, RingAt, BinLo, BinBits, TakeOver;
    assert TreeBin(raw, v, i);
    var t, u := v.trees[i], RemoveHere(sp.sub, x);
    ReachParent(v.sizes, raw.links, t, raw.treebins[i], Slot(i), false, s, BinLo(i), BinBits(i));
    RemoveHereHolds(sp.sub, x);
    TakeOverKeys(links1, x, sp.parent, r);
    hide Ok, Removable, TreeBin;
    forall q | q in raw.links && q != x && (q in v.sizes ==> !Holds(t, v.sizes[q]))
      ensures TakeOver(links1, x, sp.parent, r)[q] == raw.links[q]
    {
      if q in v.sizes {
        ReachHolds(t, s, BinLo(i), BinBits(i), Slot(i), false, v.sizes[q]);
        ReachHolds(t, s, BinLo(i), BinBits(i), Slot(i), false, s);
      }
      TakeOverOutside(v.sizes - {x}, links1, x, u, r, sp.parent, q);
    }
  }

  lemma ChainedGone(raw: Raw, v: View, x: int, s: nat, i: nat, sp: Spot, raw': Raw)
    requires Unlinkable(raw, v, x, s, i, sp) && raw.links[x].parent == 0
    requires raw.links[x].fd in raw.links && raw.links[x].bk in raw.links
    requires raw' == raw.(links := Unchain(raw.links, x))
    ensures Removable(v, x, s, i) && Ok(raw', LargeRemoved(v, x, s, i)) && raw'.links.Keys == raw.links.Keys
  {
    hide BinOf, Clear, BinLo, BinBits;
    assert TreeBin(raw, v, i);
    var t, p := v.trees[i], raw.treebins[i];
    UnchainStores(v.sizes, raw.links, t, p, Slot(i), s, BinLo(i), BinBits(i), x);
    ReachHolds(t, s, BinLo(i), BinBits(i), Slot(i), false, s);
    forall q | q in raw.links && q != x && (q in v.sizes ==> !Holds(t, v.sizes[q]))
      ensures raw'.links[q] == raw.links[q]
    {
      UnchainKeeps(v.sizes, raw.links, sp.sub.ring, s, x, q);
    }
    TreeNonempty(raw, v, x, s, i);
    assert raw.treebins[i := p] == raw.treebins;
    hide Ok, Removable, Place, Unchain, RingAt;
    RemoveLargeOk(raw, v, x, s, i, p, raw'.links, raw');
  }
}
