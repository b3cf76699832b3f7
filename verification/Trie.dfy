/**
 The bitwise trie of one tree bin, as a value. A node holds a chunk size and the ring of the chunks of that
 size; `ring[0]` is the chunk that sits in the tree. A trie over `n` undecided bits covers the sizes
 `lo .. lo + 2^n`: the left subtree takes the lower half, the right subtree the upper half, and the node
 itself may have any size of the range.
 */
module Trie {
  import opened Numbers
  import opened Words

  datatype Tree = Nil | Node(size: nat, ring: seq<int>, left: Tree, right: Tree)

  /** Some node has size `k`. */
  predicate Holds(t: Tree, k: nat) {
    t.Node? && (t.size == k || Holds(t.left, k) || Holds(t.right, k))
  }

  predicate InRange(s: nat, lo: nat, n: nat) {
    lo <= s < lo + Pow2(n)
  }

  /** The trie order, with pairwise different sizes. */
  predicate Ordered(t: Tree, lo: nat, n: nat)
    decreases t
  {
    t.Node? ==>
      && InRange(t.size, lo, n)
      && t.ring != []
      && !Holds(t.left, t.size) && !Holds(t.right, t.size)
      && (if n == 0 then t.left.Nil? && t.right.Nil?
          else Ordered(t.left, lo, n - 1) && Ordered(t.right, lo + Pow2(n - 1), n - 1))
  }

  /** Whether the highest undecided bit of `s` is set. */
  predicate GoesRight(s: nat, lo: nat, n: nat)
    requires n > 0
  {
    s >= lo + Pow2(n - 1)
  }

  /** Start of the half that `s` falls into. */
  function HalfLo(s: nat, lo: nat, n: nat): nat
    requires n > 0
  {
    if GoesRight(s, lo, n) then lo + Pow2(n - 1) else lo
  }

  function Half(t: Tree, s: nat, lo: nat, n: nat): Tree
    requires t.Node? && n > 0
  {
    if GoesRight(s, lo, n) then t.right else t.left
  }

  function WithHalf(t: Tree, s: nat, lo: nat, n: nat, half: Tree): Tree
    requires t.Node? && n > 0
  {
    if GoesRight(s, lo, n) then t.(right := half) else t.(left := half)
  }

  /** The descent for size `s` ends at `t`. */
  predicate Ends(t: Tree, s: nat, n: nat) {
    t.Nil? || t.size == s || n == 0
  }

  /** The abstraction, a map from sizes to rings: the chunks of size `k`, found by following the bits of `k`. */
  function Lookup(t: Tree, k: nat, lo: nat, n: nat): seq<int>
    decreases t
  {
    if t.Nil? then []
    else if t.size == k then t.ring
    else if n == 0 then []
    else Lookup(Half(t, k, lo, n), k, HalfLo(k, lo, n), n - 1)
  }

  /** A place in a trie: the subtree there, its range, the node above it and on which side of that it hangs. */
  datatype Spot = Spot(sub: Tree, lo: nat, n: nat, parent: int, right: bool)

  /** The place of size `s`: the node of that size, or the empty subtree where it would hang. */
  function Reach(t: Tree, s: nat, lo: nat, n: nat, parent: int, right: bool): Spot
    requires Ordered(t, lo, n)
    decreases t
  {
    if Ends(t, s, n) then Spot(t, lo, n, parent, right)
    else Reach(Half(t, s, lo, n), s, HalfLo(s, lo, n), n - 1, t.ring[0], GoesRight(s, lo, n))
  }

  /** The subtree at a place does not depend on what is above the root. */
  lemma ReachAgrees(t: Tree, s: nat, lo: nat, n: nat, parent: int)
    requires Ordered(t, lo, n)
    ensures var r, r' := Reach(t, s, lo, n, parent, false), Reach(t, s, lo, n, 0, false);
            r.sub == r'.sub && r.lo == r'.lo && r.n == r'.n
  {
  }

  /** `t` with the subtree at the place of `s` replaced. */
  function Subst(t: Tree, s: nat, lo: nat, n: nat, sub: Tree): Tree
    decreases t
  {
    if Ends(t, s, n) then sub
    else WithHalf(t, s, lo, n, Subst(Half(t, s, lo, n), s, HalfLo(s, lo, n), n - 1, sub))
  }

  lemma {:induction false} HoldsInRange(t: Tree, lo: nat, n: nat, k: nat)
    requires Ordered(t, lo, n) && Holds(t, k)
    ensures InRange(k, lo, n)
    decreases t
  {
    if t.size != k {
      if Holds(t.left, k) {
        HoldsInRange(t.left, lo, n - 1, k);
      } else {
        HoldsInRange(t.right, lo + Pow2(n - 1), n - 1, k);
      }
    }
  }

  /** Following the bits of a size finds its node whenever there is one. */
  lemma {:induction false} LookupFinds(t: Tree, k: nat, lo: nat, n: nat)
    requires Ordered(t, lo, n)
    ensures Lookup(t, k, lo, n) != [] <==> Holds(t, k)
    decreases t
  {
    if t.Node? && t.size != k && n > 0 {
      LookupFinds(Half(t, k, lo, n), k, HalfLo(k, lo, n), n - 1);
      if Holds(t.left, k) {
        HoldsInRange(t.left, lo, n - 1, k);
      }
      if Holds(t.right, k) {
        HoldsInRange(t.right, lo + Pow2(n - 1), n - 1, k);
      }
    }
  }

  /** The place of `s` is ordered, covers `s`, and its node, if any, has size `s`. */
  lemma {:induction false} ReachSpot(t: Tree, s: nat, lo: nat, n: nat, parent: int, right: bool)
    requires Ordered(t, lo, n) && InRange(s, lo, n)
    ensures var r := Reach(t, s, lo, n, parent, right);
            && Ordered(r.sub, r.lo, r.n) && InRange(s, r.lo, r.n)
            && lo <= r.lo && r.lo + Pow2(r.n) <= lo + Pow2(n)
            && (r.sub.Node? ==> r.sub.size == s)
    decreases t
  {
    if !Ends(t, s, n) {
      ReachSpot(Half(t, s, lo, n), s, HalfLo(s, lo, n), n - 1, t.ring[0], GoesRight(s, lo, n));
    }
  }

  lemma {:induction false} ReachHolds(t: Tree, s: nat, lo: nat, n: nat, parent: int, right: bool, k: nat)
    requires Ordered(t, lo, n)
    ensures Holds(Reach(t, s, lo, n, parent, right).sub, k) ==> Holds(t, k)
    decreases t
  {
    if !Ends(t, s, n) {
      ReachHolds(Half(t, s, lo, n), s, HalfLo(s, lo, n), n - 1, t.ring[0], GoesRight(s, lo, n), k);
    }
  }

  /** `sub` brings no size but `s` to the place. */
  ghost predicate OnlyAdds(was: Tree, sub: Tree, s: nat) {
    forall k: nat :: Holds(sub, k) ==> k == s || Holds(was, k)
  }

  lemma {:induction false} SubstHolds(t: Tree, s: nat, lo: nat, n: nat, parent: int, right: bool, sub: Tree, k: nat)
    requires Ordered(t, lo, n)
    requires OnlyAdds(Reach(t, s, lo, n, parent, right).sub, sub, s)
    ensures Holds(Subst(t, s, lo, n, sub), k) ==> k == s || Holds(t, k)
    decreases t
  {
    if !Ends(t, s, n) {
      SubstHolds(Half(t, s, lo, n), s, HalfLo(s, lo, n), n - 1, t.ring[0], GoesRight(s, lo, n), sub, k);
    }
  }

  lemma {:induction false} SubstOrdered(t: Tree, s: nat, lo: nat, n: nat, parent: int, right: bool, sub: Tree)
    requires Ordered(t, lo, n) && InRange(s, lo, n)
    requires var r := Reach(t, s, lo, n, parent, right); Ordered(sub, r.lo, r.n) && OnlyAdds(r.sub, sub, s)
    ensures Ordered(Subst(t, s, lo, n, sub), lo, n)
    decreases t
  {
    if !Ends(t, s, n) {
      SubstHolds(Half(t, s, lo, n), s, HalfLo(s, lo, n), n - 1, t.ring[0], GoesRight(s, lo, n), sub, t.size);
      SubstOrdered(Half(t, s, lo, n), s, HalfLo(s, lo, n), n - 1, t.ring[0], GoesRight(s, lo, n), sub);
    }
  }

  /** The ring of `s` after replacing its place. */
  lemma {:induction false} SubstLookup(t: Tree, s: nat, lo: nat, n: nat, parent: int, right: bool, sub: Tree)
    requires Ordered(t, lo, n) && InRange(s, lo, n)
    ensures var r := Reach(t, s, lo, n, parent, right);
            && Lookup(Subst(t, s, lo, n, sub), s, lo, n) == Lookup(sub, s, r.lo, r.n)
            && Lookup(t, s, lo, n) == Lookup(r.sub, s, r.lo, r.n)
    decreases t
  {
    if !Ends(t, s, n) {
      SubstLookup(Half(t, s, lo, n), s, HalfLo(s, lo, n), n - 1, t.ring[0], GoesRight(s, lo, n), sub);
    }
  }

  /** The rings of all other sizes stay when the replacement keeps them. */
  lemma {:induction false} SubstLookupOther(t: Tree, s: nat, lo: nat, n: nat, parent: int, right: bool, sub: Tree,
                                            k: nat)
    requires Ordered(t, lo, n) && InRange(s, lo, n) && k != s
    requires var r := Reach(t, s, lo, n, parent, right); Lookup(sub, k, r.lo, r.n) == Lookup(r.sub, k, r.lo, r.n)
    ensures Lookup(Subst(t, s, lo, n, sub), k, lo, n) == Lookup(t, k, lo, n)
    decreases t
  {
    if !Ends(t, s, n) {
      SubstLookupOther(Half(t, s, lo, n), s, HalfLo(s, lo, n), n - 1, t.ring[0], GoesRight(s, lo, n), sub, k);
    }
  }

  // ---------- insertion ----------

  /** A further chunk of the same size goes right behind the tree node in its ring. */
  function InsertHere(sub: Tree, s: nat, x: int): Tree
    requires sub.Node? ==> sub.ring != []
  {
    if sub.Nil? then Node(s, [x], Nil, Nil)
    else sub.(ring := [sub.ring[0], x] + sub.ring[1..])
  }

  function Insert(t: Tree, s: nat, x: int, lo: nat, n: nat): Tree
    requires Ordered(t, lo, n) && InRange(s, lo, n)
  {
    ReachSpot(t, s, lo, n, 0, false);
    Subst(t, s, lo, n, InsertHere(Reach(t, s, lo, n, 0, false).sub, s, x))
  }

  /** The ring of `s` after inserting `x`. */
  function Behind(ring: seq<int>, x: int): seq<int> {
    if ring == [] then [x] else [ring[0], x] + ring[1..]
  }

  lemma InsertedHere(sub: Tree, s: nat, x: int, lo: nat, n: nat, k: nat)
    requires Ordered(sub, lo, n) && InRange(s, lo, n) && (sub.Node? ==> sub.size == s)
    ensures sub.Node? ==> sub.ring != []
    ensures Ordered(InsertHere(sub, s, x), lo, n) && OnlyAdds(sub, InsertHere(sub, s, x), s)
    ensures Lookup(InsertHere(sub, s, x), k, lo, n)
            == if k == s then Behind(Lookup(sub, s, lo, n), x) else Lookup(sub, k, lo, n)
  {
    hide Pow2, HalfLo, GoesRight;
  }

  /** Insertion keeps the trie order and refines insertion on the map from sizes to rings. */
  lemma InsertRefines(t: Tree, s: nat, x: int, lo: nat, n: nat, k: nat)
    requires Ordered(t, lo, n) && InRange(s, lo, n)
    ensures Ordered(Insert(t, s, x, lo, n), lo, n)
    ensures Lookup(Insert(t, s, x, lo, n), k, lo, n)
         == if k == s then Behind(Lookup(t, s, lo, n), x) else Lookup(t, k, lo, n)
  {
    hide Ordered, Subst, Reach, Lookup, OnlyAdds, Pow2;
    ReachSpot(t, s, lo, n, 0, false);
    var r := Reach(t, s, lo, n, 0, false);
    InsertedHere(r.sub, s, x, r.lo, r.n, k);
    var sub := InsertHere(r.sub, s, x);
    SubstOrdered(t, s, lo, n, 0, false, sub);
    if k == s {
      SubstLookup(t, s, lo, n, 0, false, sub);
    } else {
      SubstLookupOther(t, s, lo, n, 0, false, sub, k);
    }
  }

  lemma InsertHolds(t: Tree, s: nat, x: int, lo: nat, n: nat, k: nat)
    requires Ordered(t, lo, n) && InRange(s, lo, n)
    ensures Holds(Insert(t, s, x, lo, n), k) ==> k == s || Holds(t, k)
  {
    ReachSpot(t, s, lo, n, 0, false);
    SubstHolds(t, s, lo, n, 0, false, InsertHere(Reach(t, s, lo, n, 0, false).sub, s, x), k);
  }

  // ---------- removal ----------

  datatype Pulled = Pulled(rest: Tree, leaf: Tree)

  /** Detaches the leaf found by going right whenever possible, else left. */
  function Pull(t: Tree): (p: Pulled)
    requires t.Node?
    ensures p.leaf.Node? && p.leaf.left.Nil? && p.leaf.right.Nil?
  {
    if t.right.Node? then
      var p := Pull(t.right);
      Pulled(t.(right := p.rest), p.leaf)
    else if t.left.Node? then
      var p := Pull(t.left);
      Pulled(t.(left := p.rest), p.leaf)
    else
      Pulled(Nil, t)
  }

  lemma {:induction false} PullHolds(t: Tree, k: nat)
    requires t.Node?
    ensures Holds(Pull(t).rest, k) ==> Holds(t, k)
    ensures Holds(t, Pull(t).leaf.size)
  {
    if t.right.Node? {
      PullHolds(t.right, k);
    } else if t.left.Node? {
      PullHolds(t.left, k);
    }
  }

  lemma {:induction false} PullOrdered(t: Tree, lo: nat, n: nat)
    requires t.Node? && Ordered(t, lo, n)
    ensures var p := Pull(t);
            && Ordered(p.rest, lo, n) && InRange(p.leaf.size, lo, n) && p.leaf.ring != []
            && !Holds(p.rest, p.leaf.size)
    decreases t
  {
    if t.right.Node? {
      PullOrdered(t.right, lo + Pow2(n - 1), n - 1);
      PullHolds(t.right, t.size);
      if Holds(t.left, Pull(t).leaf.size) {
        HoldsInRange(t.left, lo, n - 1, Pull(t).leaf.size);
      }
    } else if t.left.Node? {
      PullOrdered(t.left, lo, n - 1);
      PullHolds(t.left, t.size);
    }
  }

  lemma {:induction false} PullLookup(t: Tree, lo: nat, n: nat, k: nat)
    requires t.Node? && Ordered(t, lo, n)
    ensures var p := Pull(t);
            && Lookup(t, p.leaf.size, lo, n) == p.leaf.ring
            && (k != p.leaf.size ==> Lookup(p.rest, k, lo, n) == Lookup(t, k, lo, n))
    decreases t
  {
    var leaf := Pull(t).leaf;
    if t.right.Node? {
      PullOrdered(t.right, lo + Pow2(n - 1), n - 1);
      PullHolds(t.right, k);
      PullLookup(t.right, lo + Pow2(n - 1), n - 1, k);
    } else if t.left.Node? {
      PullOrdered(t.left, lo, n - 1);
      PullHolds(t.left, k);
      PullLookup(t.left, lo, n - 1, k);
    }
  }

  function IndexOf(ring: seq<int>, x: int): (i: nat)
    requires x in ring
    ensures i < |ring| && ring[i] == x
  {
    if ring[0] == x then 0 else 1 + IndexOf(ring[1..], x)
  }

  /** The ring without `x`; the last chunk takes the tree position when the tree node itself goes. */
  function Drop(ring: seq<int>, x: int): (r: seq<int>)
    requires x in ring && |ring| > 1
    ensures |r| == |ring| - 1
  {
    if ring[0] == x then [ring[|ring| - 1]] + ring[1..|ring| - 1]
    else var i := IndexOf(ring, x); ring[..i] + ring[i + 1..]
  }

  function Without(ring: seq<int>, x: int): seq<int>
    requires x in ring
  {
    if |ring| > 1 then Drop(ring, x) else []
  }

  /** The last chunk of an interior node is replaced by a leaf from below. */
  function RemoveHere(sub: Tree, x: int): Tree
    requires sub.Node? && x in sub.ring
  {
    if |sub.ring| > 1 then sub.(ring := Drop(sub.ring, x))
    else if sub.right.Node? then
      var p := Pull(sub.right);
      Node(p.leaf.size, p.leaf.ring, sub.left, p.rest)
    else if sub.left.Node? then
      var p := Pull(sub.left);
      Node(p.leaf.size, p.leaf.ring, p.rest, Nil)
    else Nil
  }

  lemma RemoveHereOrdered(sub: Tree, x: int, lo: nat, n: nat)
    requires sub.Node? && x in sub.ring && Ordered(sub, lo, n)
    ensures Ordered(RemoveHere(sub, x), lo, n)
  {
    if |sub.ring| == 1 {
      if sub.right.Node? {
        PullOrdered(sub.right, lo + Pow2(n - 1), n - 1);
        if Holds(sub.left, Pull(sub.right).leaf.size) {
          HoldsInRange(sub.left, lo, n - 1, Pull(sub.right).leaf.size);
        }
      } else if sub.left.Node? {
        PullOrdered(sub.left, lo, n - 1);
      }
    }
  }

  lemma RemoveHereHolds(sub: Tree, x: int)
    requires sub.Node? && x in sub.ring
    ensures OnlyAdds(sub, RemoveHere(sub, x), sub.size)
  {
    forall k: nat | Holds(RemoveHere(sub, x), k)
      ensures Holds(sub, k)
    {
      if |sub.ring| == 1 {
        if sub.right.Node? {
          PullHolds(sub.right, k);
        } else if sub.left.Node? {
          PullHolds(sub.left, k);
        }
      }
    }
  }

  lemma RemoveHereLookup(sub: Tree, x: int, lo: nat, n: nat, k: nat)
    requires sub.Node? && x in sub.ring && Ordered(sub, lo, n)
    ensures Lookup(RemoveHere(sub, x), k, lo, n)
         == if k != sub.size then Lookup(sub, k, lo, n) else Without(sub.ring, x)
  {
    if |sub.ring| == 1 && n > 0 {
      if k == sub.size {
        LookupFinds(Half(sub, k, lo, n), k, HalfLo(k, lo, n), n - 1);
      }
      if sub.right.Node? {
        PullOrdered(sub.right, lo + Pow2(n - 1), n - 1);
        PullLookup(sub.right, lo + Pow2(n - 1), n - 1, k);
        PullHolds(sub.right, k);
      } else if sub.left.Node? {
        PullOrdered(sub.left, lo, n - 1);
        PullLookup(sub.left, lo, n - 1, k);
        PullHolds(sub.left, k);
      }
    }
  }

  function Remove(t: Tree, s: nat, x: int, lo: nat, n: nat): Tree
    requires Ordered(t, lo, n) && InRange(s, lo, n) && x in Lookup(t, s, lo, n)
  {
    ReachSpot(t, s, lo, n, 0, false);
    SubstLookup(t, s, lo, n, 0, false, Nil);
    Subst(t, s, lo, n, RemoveHere(Reach(t, s, lo, n, 0, false).sub, x))
  }

  /** Removal keeps the trie order and refines removal on the map from sizes to rings. */
  lemma RemoveRefines(t: Tree, s: nat, x: int, lo: nat, n: nat, k: nat)
    requires Ordered(t, lo, n) && InRange(s, lo, n) && x in Lookup(t, s, lo, n)
    ensures Ordered(Remove(t, s, x, lo, n), lo, n)
    ensures Lookup(Remove(t, s, x, lo, n), k, lo, n)
         == if k != s then Lookup(t, k, lo, n) else Without(Lookup(t, s, lo, n), x)
  {
    ReachSpot(t, s, lo, n, 0, false);
    SubstLookup(t, s, lo, n, 0, false, Nil);
    var r := Reach(t, s, lo, n, 0, false);
    var sub := RemoveHere(r.sub, x);
    RemoveHereOrdered(r.sub, x, r.lo, r.n);
    RemoveHereHolds(r.sub, x);
    SubstOrdered(t, s, lo, n, 0, false, sub);
    RemoveHereLookup(r.sub, x, r.lo, r.n, k);
    if k == s {
      SubstLookup(t, s, lo, n, 0, false, sub);
    } else {
      SubstLookupOther(t, s, lo, n, 0, false, sub, k);
    }
  }

  lemma RemoveHolds(t: Tree, s: nat, x: int, lo: nat, n: nat, k: nat)
    requires Ordered(t, lo, n) && InRange(s, lo, n) && x in Lookup(t, s, lo, n)
    ensures Holds(Remove(t, s, x, lo, n), k) ==> k == s || Holds(t, k)
  {
    ReachSpot(t, s, lo, n, 0, false);
    SubstLookup(t, s, lo, n, 0, false, Nil);
    var sub := Reach(t, s, lo, n, 0, false).sub;
    RemoveHereHolds(sub, x);
    SubstHolds(t, s, lo, n, 0, false, RemoveHere(sub, x), k);
  }

  lemma WithoutKeeps(ring: seq<int>, x: int, q: int)
    requires x in ring && q in ring && q != x
    ensures q in Without(ring, x)
  {
    var n, j, k := |ring|, IndexOf(ring, x), IndexOf(ring, q);
    var r := Drop(ring, x);
    if ring[0] == x {
      assert r == [ring[n - 1]] + ring[1..n - 1];
      var i := if k == n - 1 then 0 else k;
      assert r[i] == q;
    } else {
      assert r == ring[..j] + ring[j + 1..];
      var i := if k < j then k else k - 1;
      assert r[i] == q;
    }
  }

  // ---------- best fit ----------

  /** The least size not below `nb`, or `W64` when there is none. */
  function Fit(t: Tree, nb: nat): nat {
    if t.Nil? then W64
    else
      var sub := Min(Fit(t.left, nb), Fit(t.right, nb));
      if t.size >= nb then Min(t.size, sub) else sub
  }

  /** `Fit` is the least: some node has that size unless it is `W64`, and no fitting node is smaller. */
  lemma {:induction false} FitIsLeast(t: Tree, nb: nat, k: nat)
    ensures Fit(t, nb) < W64 ==> Holds(t, Fit(t, nb)) && nb <= Fit(t, nb)
    ensures Holds(t, k) && k >= nb ==> Fit(t, nb) <= k
  {
    if t.Node? {
      FitIsLeast(t.left, nb, k);
      FitIsLeast(t.right, nb, k);
    }
  }

  /** Every size of the left subtree is below every size of the right one. */
  lemma FitLeftFirst(t: Tree, lo: nat, n: nat, nb: nat)
    requires t.Node? && Ordered(t, lo, n) && Fit(t.left, nb) < W64
    ensures Fit(t.left, nb) <= Fit(t.right, nb)
  {
    if n > 0 && Fit(t.right, nb) < W64 {
      FitIsLeast(t.left, nb, 0);
      FitIsLeast(t.right, nb, 0);
      HoldsInRange(t.left, lo, n - 1, Fit(t.left, nb));
      HoldsInRange(t.right, lo + Pow2(n - 1), n - 1, Fit(t.right, nb));
    }
  }
}
