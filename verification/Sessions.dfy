/**
 Whole sessions: a client that calls the allocator any number of times, and a system that may refuse or grant each
 time.
 */
module Sessions {
  import opened Words
  import opened Tiling
  import opened Tags
  import opened HeapState
  import opened DirectMapping
  import opened HeapClaims
  import opened HeapFacts
  import opened Conservation
  import opened Policy
  import opened Heaps

  /** What a client may ask for; `slot` is one of the places where it keeps its blocks. */
  datatype Call = Allocate(bytes: nat) | Release(slot: nat) | Resize(slot: nat,
                       bytes: nat) | AllocateAligned(alignment: nat, bytes: nat)

  predicate CallOk(c: Call) {
    && (!c.Release? ==> c.bytes < W64)
    && (c.AllocateAligned? ==> c.alignment <= Pow2(63))
  }

  /** How the system answers the `n`-th call, given what the allocator has written and the size it needs. */
  type Oracle = (nat, Store, nat) -> System

  /** The system never grants memory that is in use. */
  ghost predicate Honest(oracle: Oracle) {
    forall n: nat, s: Store, w: World, nb: nat | Sound(s, w) :: SystemOk(s, w, nb, oracle(n, s, nb))
  }

  /** Every slot is empty or holds a block of its own. */
  ghost predicate Held(slots: seq<int>, live: Blocks) {
    && (forall k | 0 <= k < |slots| && slots[k] != 0 :: slots[k] - 16 in live)
    && (forall j, k | 0 <= j < k < |slots| && slots[j] != 0 :: slots[j] != slots[k])
  }

  /** A new block goes to a slot of its own. */
  lemma HeldMore(slots: seq<int>, live: Blocks, live': Blocks, mem: int)
    requires Held(slots, live) && (mem == 0 ==> live' == live)
    requires mem != 0 ==> mem - 16 !in live && mem - 16 in live' && live' == live[mem - 16 := live'[mem - 16]]
    ensures Held(slots + [mem], live')
  {
  }

  lemma HeldLess(slots: seq<int>, live: Blocks, k: nat)
    requires Held(slots, live) && k < |slots| && slots[k] != 0
    ensures Held(slots[k := 0], live - {slots[k] - 16})
  {
  }

  lemma HeldMoved(slots: seq<int>, live: Blocks, live': Blocks, k: nat, mem: int)
    requires Held(slots, live) && k < |slots| && mem != 0
    requires mem - 16 in live' && (mem == slots[k] || mem - 16 !in live)
    requires live' == (if slots[k] == 0 then live else live - {slots[k] - 16})[mem - 16 := live'[mem - 16]]
    ensures Held(slots[k := mem], live')
  {
  }

  lemma Answered(oracle: Oracle, n: nat, s: Store, w: World, nb: nat)
    requires Honest(oracle) && Sound(s, w)
    ensures SystemOk(s, w, nb, oracle(n, s, nb))
  {
  }

  /** One call. */
  method Serve(heap: Heap, slots: seq<int>, c: Call, n: nat, oracle: Oracle) returns (slots': seq<int>, ghost e: Event)
    requires heap.Valid() && Held(slots, heap.live) && CallOk(c) && Honest(oracle)
    modifies heap, heap.bins, heap.data
    ensures heap.Valid() && Held(slots', heap.live) && Step(old(heap.Model()), e, heap.Model())
  {
    hide Sound, Held, Honest, SystemOk, Refuses, Selected, Charged, Pow2, MallocSize;
    ghost var s, w := heap.Fields(), heap.Model();
    slots', e := slots, Event.Refused;
    match c {
      case Allocate(bytes) =>
        Answered(oracle, n, s, w, MallocSize(bytes));
        var mem := heap.Malloc(bytes, oracle(n, heap.Fields(), MallocSize(bytes)));
        HeldMore(slots, w.live, heap.live, mem);
        slots' := slots + [mem];
        e := if mem == 0 then Event.Refused else Allocated(mem - 16, bytes);
      case AllocateAligned(alignment, bytes) =>
        Answered(oracle, n, s, w, MallocSize(Asked(alignment, bytes)));
        var mem := heap.Memalign(alignment, bytes, oracle(n, heap.Fields(), MallocSize(Asked(alignment, bytes))));
        HeldMore(slots, w.live, heap.live, mem);
        slots' := slots + [mem];
        e := if mem == 0 then Event.Refused else Allocated(mem - 16, bytes);
      case Release(k) => slots', e := ServeRelease(heap, slots, k);
      case Resize(k, bytes) => slots', e := ServeResize(heap, slots, k, bytes, n, oracle);
    }
  }

  lemma HeldAt(slots: seq<int>, live: Blocks, k: nat)
    requires Held(slots, live) && k < |slots|
    ensures slots[k] == 0 || slots[k] - 16 in live
  {
  }

  method ServeRelease(heap: Heap, slots: seq<int>, k: nat) returns (slots': seq<int>, ghost e: Event)
    requires heap.Valid() && Held(slots, heap.live)
    modifies heap, heap.bins
    ensures heap.Valid() && Held(slots', heap.live) && Step(old(heap.Model()), e, heap.Model())
  {
    hide Sound, Held;
    slots', e := slots, Event.Refused;
    if k < |slots| && slots[k] != 0 {
      HeldAt(slots, heap.live, k);
      HeldLess(slots, heap.live, k);
      heap.Free(slots[k]);
      slots', e := slots[k := 0], Released(slots[k] - 16);
    }
  }

  method ServeResize(heap: Heap, slots: seq<int>, k: nat, bytes: nat, n: nat, oracle: Oracle)
    returns (slots': seq<int>, ghost e: Event)
    requires heap.Valid() && Held(slots, heap.live) && bytes < W64 && Honest(oracle)
    modifies heap, heap.bins, heap.data
    ensures heap.Valid() && Held(slots', heap.live) && Step(old(heap.Model()), e, heap.Model())
  {
    hide Sound, Held, Honest, SystemOk, Refuses, Selected, MallocSize, InPlace, Stays;
    ghost var s, w := heap.Fields(), heap.Model();
    slots', e := slots, Event.Refused;
    if k < |slots| {
      HeldAt(slots, heap.live, k);
      NullNotLive(s, w);
      Answered(oracle, n, s, w, MallocSize(bytes));
      var mem := heap.Realloc(slots[k], bytes, oracle(n, heap.Fields(), MallocSize(bytes)));
      e := ResizeEvent(slots[k], mem, bytes);
      if mem != 0 {
        HeldMoved(slots, w.live, heap.live, k, mem);
        slots' := slots[k := mem];
      }
    }
  }

  /**
   Any number of calls. Every state on the way is sound,
       so that blocks are disjoint and no byte is lost in each of them;
   what happens to the blocks is a run in the sense of `HeapClaims.Run`.
   */
  method Session(heap: Heap, calls: seq<Call>, oracle: Oracle)
    returns (slots: seq<int>, ghost stores: seq<Store>, ghost worlds: seq<World>, ghost events: seq<Event>)
    requires heap.Valid() && Honest(oracle) && forall c | c in calls :: CallOk(c)
    modifies heap, heap.bins, heap.data
    ensures heap.Valid() && Held(slots, heap.live) && |events| == |calls| && Run(worlds, events)
    ensures |stores| == |worlds| == |calls| + 1
    ensures worlds[0] == old(heap.Model()) && worlds[|calls|] == heap.Model()
    ensures forall i | 0 <= i < |worlds| :: Sound(stores[i], worlds[i])
  {
    hide Sound, Held, Honest, CallOk, Step;
    slots, events := [], [];
    stores, worlds := [heap.Fields()], [heap.Model()];
    NoneHeld(heap.live);
    var i := 0;
    while i < |calls|
      invariant 0 <= i <= |calls| && heap.Valid() && Held(slots, heap.live) && |events| == i && Run(worlds, events)
      invariant |stores| == |worlds| == i + 1 && worlds[0] == old(heap.Model()) && worlds[i] == heap.Model()
      invariant forall j | 0 <= j < |worlds| :: Sound(stores[j], worlds[j])
    {
      assert calls[i] in calls;
      ghost var e;
      slots, e := Serve(heap, slots, calls[i], i, oracle);
      events := events + [e];
      stores, worlds := stores + [heap.Fields()], worlds + [heap.Model()];
      i := i + 1;
    }
  }

  lemma NoneHeld(live: Blocks)
    ensures Held([], live)
  {
  }

  /** In every state of a session, the blocks of clients are disjoint, and all granted bytes are accounted for. */
  lemma EveryState(stores: seq<Store>, worlds: seq<World>, i: nat, p: int, q: int)
    requires |stores| == |worlds| && i < |stores| && Sound(stores[i], worlds[i])
    requires p in worlds[i].live && q in worlds[i].live && p < q
    ensures p + worlds[i].live[p] <= q
    ensures Bytes(worlds[i].tiles) + Gaps(stores[i].segs) + MappedBytes(worlds[i].mapped) == stores[i].footprint
  {
    hide Sound;
    LiveApart(stores[i], worlds[i], p, q);
    TilesConserved(stores[i], worlds[i]);
  }

  // ---------- systems that grant memory ----------

  lemma SomeKey(keys: set<int>)
    ensures keys == {} || exists a :: a in keys
  {
    if forall a :: a !in keys {
      assert keys == {};
    }
  }

  lemma {:induction false} KeysBounded(keys: set<int>) returns (b: nat)
    ensures forall a | a in keys :: a + 64 <= b
    decreases |keys|
  {
    b := 0;
    SomeKey(keys);
    if keys != {} {
      var c: int :| c in keys;
      var rest := KeysBounded(keys - {c});
      b := if c + 64 <= rest then rest else c + 64;
      forall k | k in keys
        ensures k + 64 <= b
      {
        if k != c {
          assert k in keys - {c};
        }
      }
    }
  }

  lemma {:induction false} SegmentsBounded(segs: seq<Segment>) returns (b: nat)
    ensures forall g | g in segs :: g.base + g.size <= b
    decreases |segs|
  {
    b := 0;
    if segs != [] {
      var rest := SegmentsBounded(segs[1..]);
      var e := segs[0].base + segs[0].size;
      b := if e <= rest then rest else e;
      assert segs == [segs[0]] + segs[1..];
    }
  }

  /** A page address behind everything that the allocator has ever written. */
  ghost predicate Behind(s: Store, b: nat) {
    && b > 0 && b % 4096 == 0
    && (forall a | a in s.head :: a + 64 <= b) && (forall g | g in s.segs :: g.base + g.size <= b)
  }

  lemma SomeBehind(s: Store)
    ensures exists b :: Behind(s, b)
  {
    var x := KeysBounded(s.head.Keys);
    assert forall a | a in s.head :: a in s.head.Keys;
    var y := SegmentsBounded(s.segs);
    var b := 4096 * (x + y + 1);
    assert Behind(s, b);
  }

  ghost function Limit(s: Store): (b: nat)
    ensures Behind(s, b)
  {
    SomeBehind(s);
    var b :| Behind(s, b);
    b
  }

  ghost function Grant(s: Store, size: nat): Answer {
    if size % 8 == 0 && Limit(s) + size <= W64 then Region(Limit(s)) else Fail
  }

  lemma GrantOk(s: Store, w: World, size: nat)
    requires Sound(s, w)
    ensures Answers(s, w, Grant(s, size), size)
  {
    hide Tiled, Tagged, Booked, VictimOk, TopOk, SegmentsOk, RegionsClear, LiveOk, Counted;
    var b := Limit(s);
    forall p | p in w.mapped && w.mapped[p].offset <= p
      ensures ClearOf(Segment(b, size), RegionOf(p, w.mapped[p]))
    {
      assert MappingOk(s.head, s.foot, s.leastAddr, p, w.mapped[p]);
      assert p + w.mapped[p].size in s.head;
    }
  }

  /** A system that grants fresh memory as long as there is any is honest. */
  lemma GrantingHonest()
    ensures Honest((n: nat, s: Store, nb: nat) => System(Grant(s, DirectSize(nb)), Grant(s, RegionSize(nb))))
  {
    hide Sound, Answers, Grant, DirectSize, RegionSize;
    forall s: Store, w: World, nb: nat | Sound(s, w)
      ensures SystemOk(s, w, nb, System(Grant(s, DirectSize(nb)), Grant(s, RegionSize(nb))))
    {
      GrantOk(s, w, DirectSize(nb));
      GrantOk(s, w, RegionSize(nb));
    }
  }
}
