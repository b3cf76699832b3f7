/**
 In which order the chunks of one size are used: those of the tree bins first in, first out, those of a small bin last
 in, first out.
 */
module BinOrder {
  import opened Words
  import opened SizeClasses
  import opened Trie
  import opened TreeLinks
  import opened BinState
  import opened BinSteps

  function Reversed(s: seq<int>): (r: seq<int>)
    ensures |r| == |s|
  {
    if s == [] then [] else Reversed(s[1..]) + [s[0]]
  }

  /** A ring by age: the chunk in the tree is the oldest, the one behind it the newest. */
  function ByAge(ring: seq<int>): seq<int> {
    if ring == [] then [] else [ring[0]] + Reversed(ring[1..])
  }

  /** The chunks of size `s` in the order in which they are to be used. */
  function Line(v: View, s: nat): seq<int> {
    if IsSmall(s) then if s % 8 == 0 && SmallIndex(s) < |v.small| then v.small[SmallIndex(s)] else []
    else if s < W64 && BinOf(s) < |v.trees|
      then ByAge(Lookup(v.trees[BinOf(s)], s, BinLo(BinOf(s)), BinBits(BinOf(s))))
    else []
  }

  function Minus(line: seq<int>, x: int): seq<int> {
    if line == [] then [] else if line[0] == x then line[1..] else [line[0]] + Minus(line[1..], x)
  }

  /** Chunk `x` of size `s` comes last, or first; chunk `x` of size `s` leaves. All other lines are as before. */
  ghost predicate Enqueued(v: View, v': View, x: int, s: nat) {
    forall k: nat {:trigger Line(v', k)} :: Line(v', k) == if k == s then Line(v, k) + [x] else Line(v, k)
  }

  ghost predicate Pushed(v: View, v': View, x: int, s: nat) {
    forall k: nat {:trigger Line(v', k)} :: Line(v', k) == if k == s then [x] + Line(v, k) else Line(v, k)
  }

  ghost predicate Departed(v: View, v': View, x: int, s: nat) {
    forall k: nat {:trigger Line(v', k)} :: Line(v', k) == if k == s then Minus(Line(v, k), x) else Line(v, k)
  }

  /** Chunk `p` is the next one of its size. */
  predicate NextInLine(v: View, p: int) {
    p in v.sizes && Line(v, v.sizes[p]) != [] && Line(v, v.sizes[p])[0] == p
  }

  // ---------- rings and lists ----------

  lemma {:induction false} ReversedSnoc(s: seq<int>, x: int)
    ensures Reversed(s + [x]) == [x] + Reversed(s)
    decreases |s|
  {
    if s == [] {
      assert s + [x] == [x] && [x][1..] == [];
    } else {
      assert (s + [x])[1..] == s[1..] + [x];
      ReversedSnoc(s[1..], x);
    }
  }

  /** A chunk that joins a ring is the newest. */
  lemma BehindByAge(ring: seq<int>, x: int)
    ensures ByAge(Behind(ring, x)) == ByAge(ring) + [x]
  {
    if ring != [] {
      var tail := [x] + ring[1..];
      assert Behind(ring, x)[1..] == tail && tail[1..] == ring[1..];
    } else {
      assert [x][1..] == [];
    }
  }

  lemma {:induction false} MinusSnoc(s: seq<int>, y: int, x: int)
    ensures x !in s ==> Minus(s + [y], x) == if x == y then s else s + [y]
    ensures x in s ==> Minus(s + [y], x) == Minus(s, x) + [y]
    decreases |s|
  {
    if s == [] {
      assert s + [y] == [y] && [y][1..] == [];
    } else {
      assert (s + [y])[1..] == s[1..] + [y];
      MinusSnoc(s[1..], y, x);
      assert s == [s[0]] + s[1..];
    }
  }

  lemma {:induction false} ReversedHas(s: seq<int>, x: int)
    ensures x in Reversed(s) <==> x in s
    decreases |s|
  {
    if s != [] {
      ReversedHas(s[1..], x);
      assert s == [s[0]] + s[1..];
    }
  }

  /** Taking a chunk out of a ring, or out of its reverse, is the same when it is in there once. */
  lemma {:induction false} ReversedWithout(s: seq<int>, i: nat)
    requires i < |s| && Distinct(s)
    ensures Reversed(s[..i] + s[i + 1..]) == Minus(Reversed(s), s[i])
    decreases |s|
  {
    var x, t := s[i], s[1..];
    ReversedHas(t, x);
    MinusSnoc(Reversed(t), s[0], x);
    if i == 0 {
      assert s[..0] + s[1..] == t && x !in t;
    } else {
      var u := s[..i] + s[i + 1..];
      assert u[1..] == t[..i - 1] + t[i..] && t[i - 1] == x && x in t;
      ReversedWithout(t, i - 1);
    }
  }

  lemma {:induction false} MinusFirst(s: seq<int>, x: int)
    requires x in s
    ensures Minus(s, x) == s[..IndexOf(s, x)] + s[IndexOf(s, x) + 1..]
    decreases |s|
  {
    if s[0] != x {
      assert s == [s[0]] + s[1..];
      MinusFirst(s[1..], x);
      var j := IndexOf(s[1..], x);
      assert s[..j + 1] == [s[0]] + s[1..][..j] && s[j + 2..] == s[1..][j + 1..];
    } else {
      assert s[..0] == [];
    }
  }

  /** A chunk that leaves a ring leaves the others in their order, even when it was the one in the tree. */
  lemma WithoutByAge(ring: seq<int>, x: int)
    requires x in ring && Distinct(ring)
    ensures ByAge(Without(ring, x)) == Minus(ByAge(ring), x)
  {
    var n, tail := |ring| - 1, ring[1..];
    if ring[0] == x {
      if n > 0 {
        var last, mid := ring[n], ring[1..n];
        assert tail == mid + [last];
        ReversedSnoc(mid, last);
        assert Without(ring, x)[1..] == mid;
        assert ([x] + Reversed(tail))[1..] == Reversed(tail);
      }
    } else {
      var i := IndexOf(ring, x);
      assert ring[i] == tail[i - 1] == x;
      assert Distinct(tail);
      ReversedWithout(tail, i - 1);
      var r := ring[..i] + ring[i + 1..];
      assert r[0] == ring[0] && r[1..] == tail[..i - 1] + tail[i..];
      assert ([ring[0]] + Reversed(tail))[1..] == Reversed(tail);
    }
  }

  // ---------- the operations of the bins ----------

  lemma LargeEnqueued(v: View, x: int, s: nat, i: nat)
    requires LargeIn(s, i) && i < |v.trees| == NBINS && Ordered(v.trees[i], BinLo(i), BinBits(i))
             && InRange(s, BinLo(i), BinBits(i))
    ensures Enqueued(v, LargeInserted(v, x, s, i), x, s)
  {
    hide BinOf, Insert, Ordered, Lookup, BinLo, BinBits, InRange, ByAge, Behind;
    var v' := LargeInserted(v, x, s, i);
    forall k: nat
      ensures Line(v', k) == if k == s then Line(v, k) + [x] else Line(v, k)
    {
      InsertRefines(v.trees[i], s, x, BinLo(i), BinBits(i), k);
      BehindByAge(Lookup(v.trees[i], s, BinLo(i), BinBits(i)), x);
    }
  }

  lemma LargeDeparted(v: View, x: int, s: nat, i: nat)
    requires LargeIn(s, i) && i < |v.trees| == NBINS && Ordered(v.trees[i], BinLo(i), BinBits(i))
             && InRange(s, BinLo(i), BinBits(i))
    requires var ring := Lookup(v.trees[i], s, BinLo(i), BinBits(i)); x in ring && Distinct(ring)
    ensures Departed(v, LargeRemoved(v, x, s, i), x, s)
  {
    hide BinOf, Remove, Ordered, Lookup, BinLo, BinBits, InRange, ByAge, Without, Minus;
    var v' := LargeRemoved(v, x, s, i);
    forall k: nat
      ensures Line(v', k) == if k == s then Minus(Line(v, k), x) else Line(v, k)
    {
      RemoveRefines(v.trees[i], s, x, BinLo(i), BinBits(i), k);
      WithoutByAge(Lookup(v.trees[i], s, BinLo(i), BinBits(i)), x);
    }
  }

  lemma SmallPushed(v: View, x: int, s: nat)
    requires IsSmall(s) && s % 8 == 0 && |v.small| == NBINS
    ensures Pushed(v, SmallInserted(v, x, SmallIndex(s)), x, s)
  {
    hide BinOf, Lookup, ByAge;
  }

  lemma SmallDeparted(v: View, x: int, s: nat)
    requires IsSmall(s) && s % 8 == 0 && |v.small| == NBINS && x in v.small[SmallIndex(s)]
    ensures Departed(v, SmallRemoved(v, x, SmallIndex(s)), x, s)
  {
    hide BinOf, Lookup, ByAge;
    MinusFirst(v.small[SmallIndex(s)], x);
  }

  /** A tree chunk with a parent is the oldest of its size. */
  lemma OldestHangs(raw: Raw, v: View, q: int)
    requires Ok(raw, v) && q in v.sizes && !IsSmall(v.sizes[q]) && raw.links[q].parent != 0
    ensures NextInLine(v, q)
  {
    var s := v.sizes[q];
    var i := BinOf(s);
    assert Placed(v, q) && TreeBin(raw, v, i);
    hide BinOf;
    LookupRing(v.sizes, raw.links, v.trees[i], raw.treebins[i], Slot(i), s, BinLo(i), BinBits(i));
    var ring := Lookup(v.trees[i], s, BinLo(i), BinBits(i));
    var j: nat :| j < |ring| && ring[j] == q;
    RingMember(v.sizes, raw.links, ring, s, j);
  }

  /** What a trie holds for a size is a ring in memory. */
  lemma {:induction false} LookupRing(sizes: Binned, links: Links, t: Tree, p: int, parent: int, k: nat, lo: nat,
                                      n: nat)
    requires TreeAt(sizes, links, t, p, parent)
    ensures var ring := Lookup(t, k, lo, n); ring != [] ==> RingAt(sizes, links, ring, k)
    decreases t
  {
    hide RingAt;
    if t.Node? && t.size != k && n > 0 {
      if GoesRight(k, lo, n) {
        LookupRing(sizes, links, t.right, links[p].right, p, k, HalfLo(k, lo, n), n - 1);
      } else {
        LookupRing(sizes, links, t.left, links[p].left, p, k, HalfLo(k, lo, n), n - 1);
      }
    }
  }

  /** The ring of a binned chunk. */
  lemma OwnRing(raw: Raw, v: View, q: int)
    requires Ok(raw, v) && q in v.sizes && !IsSmall(v.sizes[q])
    ensures var s := v.sizes[q]; var i := BinOf(s);
            && i < |v.trees| == NBINS && LargeIn(s, i)
            && var ring := Lookup(v.trees[i], s, BinLo(i), BinBits(i)); q in ring && Distinct(ring)
  {
    var s := v.sizes[q];
    var i := BinOf(s);
    assert Placed(v, q) && TreeBin(raw, v, i);
    hide BinOf;
    LookupRing(v.sizes, raw.links, v.trees[i], raw.treebins[i], Slot(i), s, BinLo(i), BinBits(i));
  }
}
