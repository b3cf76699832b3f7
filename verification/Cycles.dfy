/**
 Circular doubly linked lists through the `fd` and `bk` links: the small bins, each with its header as first element.
 */
module Cycles {
  import opened Trie
  import opened TreeLinks
  import opened TreeEdits

  predicate Joined(links: Links, ring: seq<int>, i: nat)
    requires i < |ring|
  {
    && ring[i] in links
    && links[ring[i]].fd == ring[Next(i, |ring|)]
    && links[ring[i]].bk == ring[Prev(i, |ring|)]
  }

  ghost predicate Cycle(links: Links, ring: seq<int>) {
    && ring != [] && Distinct(ring)
    && forall i: nat | i < |ring| :: Joined(links, ring, i)
  }

  lemma CycleAt(links: Links, ring: seq<int>, i: nat)
    requires Cycle(links, ring) && i < |ring|
    ensures Joined(links, ring, i)
  {
  }

  lemma CycleDiffers(links: Links, ring: seq<int>, i: nat, j: nat)
    requires Cycle(links, ring) && i < |ring| && j < |ring|
    ensures ring[i] == ring[j] ==> i == j
  {
  }

  lemma CycleFrame(links: Links, links': Links, ring: seq<int>)
    requires Cycle(links, ring)
    requires forall q | q in ring :: q in links && q in links' && links'[q] == links[q]
    ensures Cycle(links', ring)
  {
    forall i: nat | i < |ring|
      ensures Joined(links', ring, i)
    {
      assert Joined(links, ring, i);
      assert ring[i] in ring;
    }
  }

  /** Links `x` in behind the header `b`. */
  function LinkFront(links: Links, b: int, x: int): Links
    requires b in links && x in links && links[b].fd in links
  {
    var f := links[b].fd;
    var l1 := links[b := links[b].(fd := x)];
    var l2 := l1[f := l1[f].(bk := x)];
    l2[x := l2[x].(fd := f, bk := b)]
  }

  lemma LinkFrontAt(links: Links, ring: seq<int>, x: int, i: nat)
    requires Cycle(links, ring) && x !in ring && x in links && i <= |ring|
    requires ring != [] && ring[0] in links && links[ring[0]].fd in links
    ensures Joined(LinkFront(links, ring[0], x), Behind(ring, x), i)
  {
    hide Cycle;
    var n := |ring|;
    CycleAt(links, ring, 0);
    CycleDiffers(links, ring, 0, Next(0, n));
    if i >= 2 {
      CycleAt(links, ring, i - 1);
      CycleDiffers(links, ring, 0, i - 1);
      CycleDiffers(links, ring, Next(0, n), i - 1);
    }
  }

  lemma LinkFrontCycle(links: Links, ring: seq<int>, x: int)
    requires Cycle(links, ring) && x !in ring && x in links
    ensures ring[0] in links && links[ring[0]].fd in links
    ensures Cycle(LinkFront(links, ring[0], x), Behind(ring, x))
  {
    CycleAt(links, ring, 0);
    CycleAt(links, ring, Next(0, |ring|));
    var links', ring' := LinkFront(links, ring[0], x), Behind(ring, x);
    forall i: nat | i < |ring'|
      ensures Joined(links', ring', i)
    {
      LinkFrontAt(links, ring, x, i);
    }
  }

  lemma UnchainAt(links: Links, ring: seq<int>, x: int, i: nat)
    requires Cycle(links, ring) && x in ring && |ring| > 1 && i < |ring| - 1
    requires x in links && links[x].fd in links && links[x].bk in links
    ensures Joined(Unchain(links, x), Drop(ring, x), i)
  {
    hide Cycle, Unchain, Drop, Origin, IndexOf;
    var n, j := |ring|, IndexOf(ring, x);
    var k := Origin(i, j, n);
    CycleAt(links, ring, j);
    CycleAt(links, ring, k);
    CycleDiffers(links, ring, Next(j, n), k);
    CycleDiffers(links, ring, Prev(j, n), k);
    UnchainLink(links, x, ring[k]);
    OriginNeighbours(i, j, n);
    DropOrigin(ring, x, j, i);
    DropOrigin(ring, x, j, Next(i, n - 1));
    DropOrigin(ring, x, j, Prev(i, n - 1));
  }

  lemma UnchainCycle(links: Links, ring: seq<int>, x: int)
    requires Cycle(links, ring) && x in ring && |ring| > 1
    ensures x in links && links[x].fd in links && links[x].bk in links
    ensures Cycle(Unchain(links, x), Drop(ring, x))
  {
    var n, j := |ring|, IndexOf(ring, x);
    CycleAt(links, ring, j);
    CycleAt(links, ring, Next(j, n));
    CycleAt(links, ring, Prev(j, n));
    DropDistinct(ring, x);
    var links', ring' := Unchain(links, x), Drop(ring, x);
    forall i: nat | i < |ring'|
      ensures Joined(links', ring', i)
    {
      UnchainAt(links, ring, x, i);
    }
  }
}
