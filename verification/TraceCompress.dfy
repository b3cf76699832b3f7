/**
 Trace compression: each monitor event becomes the records that its flags ask for, in order, under any back-pressure.
 */
module TraceCompress {

  /** One monitored port in an event: what happened on its write and read channels. */
  datatype Port = Port(ext: nat, wrAddr: bool, firstWr: bool, lastWr: bool, response: bool, rdAddr: bool, firstRd: bool,
                       lastRd: bool, arlen: nat, awlen: nat, rid: nat, arid: nat, bid: nat, awid: nat, araddr: nat,
                       awaddr: nat)

  /**
   A software event carries one word, any other the time since the one before, a flag for an overflow of that time, and
   the two ports.
   */
  datatype Event = Software(word: nat) | Monitor(delta: nat, loop: bool, port0: Port, port1: Port)

  /** An output record. */
  datatype Record = SoftwareRecord(word: nat)
                  | Access(time: nat, loop: bool, slot: nat, write: bool, ext: nat, addrLatch: bool, first: bool,
                      last: bool, response: bool,
                           length: nat, id: nat, addrId: nat, addr: nat)

  /** Four records with their valid bits. */
  datatype Pack = Pack(data: seq<Record>, valid: seq<bool>)

  predicate IsPack(p: Pack) {
    |p.data| == 4 && |p.valid| == 4
  }

  // ---------- what should come out ----------

  /** The time after some events: 30 bits. */
  function TimeAfter(events: seq<Event>): (t: nat)
    ensures t < 0x4000_0000
  {
    if events == [] then 0
    else
      var n := |events| - 1;
      if events[n].Software? then TimeAfter(events[..n])
      else (TimeAfter(events[..n]) + events[n].delta) % 0x4000_0000
  }

  /** A port asks for a record of its write channel, or of its read channel. */
  predicate Writes(p: Port) {
    p.wrAddr || p.firstWr || p.lastWr || p.response
  }

  predicate Reads(p: Port) {
    p.rdAddr || p.firstRd || p.lastRd
  }

  /** The records of the two channels, before one of them gets the time. */
  function WriteData(slot: nat, p: Port): Record {
    Access(0, false, slot, true, p.ext, p.wrAddr, p.firstWr, p.lastWr, p.response, p.awlen, p.bid, p.awid, p.awaddr)
  }

  function ReadData(slot: nat, p: Port): Record {
    Access(0, false, slot, false, p.ext, p.rdAddr, p.firstRd, p.lastRd, false, p.arlen, p.rid, p.arid, p.araddr)
  }

  function Opt<T>(b: bool, x: T): seq<T> {
    if b then [x] else []
  }

  /** The first of some records tells the time and the overflow. */
  function Stamped(records: seq<Record>, now: nat, loop: bool): seq<Record> {
    if records == [] then [] else [Timed(records[0], now, loop)] + records[1..]
  }

  function Timed(r: Record, now: nat, loop: bool): Record {
    if r.Access? then r.(time := now, loop := loop) else r
  }

  /** The records of an event: slot 0 write, slot 0 read, slot 1 write, slot 1 read, each if flagged. */
  function Records(e: Event, now: nat): seq<Record> {
    match e
    case Software(word) => [SoftwareRecord(word)]
    case Monitor(_, loop, p0, p1) =>
      Stamped(Opt(Writes(p0), WriteData(0, p0)) + Opt(Reads(p0), ReadData(0, p0)) + Opt(Writes(p1), WriteData(1, p1))
              + Opt(Reads(p1), ReadData(1, p1)), now, loop)
  }

  function AllRecords(events: seq<Event>): seq<Record> {
    if events == [] then []
    else AllRecords(events[..|events| - 1]) + Records(events[|events| - 1], TimeAfter(events))
  }

  /** The valid records of a pack from position `i` on, and their number. */
  function Flagged(p: Pack, i: nat): seq<Record>
    requires IsPack(p) && i <= 4
    decreases 4 - i, p
  {
    if i == 4 then [] else (if p.valid[i] then [p.data[i]] else []) + Flagged(p, i + 1)
  }

  function Waiting(packs: seq<Pack>): seq<Record>
    requires forall p | p in packs :: IsPack(p)
  {
    if packs == [] then [] else Flagged(packs[0], 0) + Waiting(packs[1..])
  }

  lemma {:induction false} WaitingAppend(packs: seq<Pack>, p: Pack)
    requires IsPack(p) && forall q | q in packs :: IsPack(q)
    ensures Waiting(packs + [p]) == Waiting(packs) + Flagged(p, 0)
    decreases |packs|
  {
    if packs == [] {
      assert packs + [p] == [p] && Waiting([p][1..]) == [];
    } else {
      assert (packs + [p])[1..] == packs[1..] + [p];
      WaitingAppend(packs[1..], p);
    }
  }

  function Count(v: seq<bool>): nat
    requires |v| == 4
  {
    (if v[0] then 1 else 0) + (if v[1] then 1 else 0) + (if v[2] then 1 else 0) + (if v[3] then 1 else 0)
  }

  /** The first valid record, as the write-out stage chooses it. */
  function FirstValid(v: seq<bool>): (i: nat)
    requires |v| == 4
    ensures i < 4
  {
    if v[0] then 0 else if v[1] then 1 else if v[2] then 2 else 3
  }

  lemma FlaggedFour(p: Pack, i: nat)
    requires IsPack(p) && i == 0
    ensures Flagged(p, i) == (if p.valid[0] then [p.data[0]] else []) + (if p.valid[1] then [p.data[1]] else [])
                             + (if p.valid[2] then [p.data[2]] else []) + (if p.valid[3] then [p.data[3]] else [])
    ensures |Flagged(p, i)| == Count(p.valid)
  {
    assert Flagged(p, i + 4) == [];
    assert Flagged(p, i + 3) == (if p.valid[3] then [p.data[3]] else []) + Flagged(p, i + 4);
    assert Flagged(p, i + 2) == (if p.valid[2] then [p.data[2]] else []) + Flagged(p, i + 3);
    assert Flagged(p, i + 1) == (if p.valid[1] then [p.data[1]] else []) + Flagged(p, i + 2);
  }

  /** Writing the first valid record leaves the others. */
  lemma TakeFirst(p: Pack)
    requires IsPack(p) && Count(p.valid) > 0
    ensures var i := FirstValid(p.valid); var p' := p.(valid := p.valid[i := false]);
            && Flagged(p, 0) == [p.data[i]] + Flagged(p', 0) && Count(p'.valid) == Count(p.valid) - 1
  {
    var i := FirstValid(p.valid);
    var p' := p.(valid := p.valid[i := false]);
    hide Flagged;
    FlaggedFour(p, 0);
    FlaggedFour(p', 0);
  }

  lemma NoneFlagged(p: Pack)
    requires IsPack(p)
    ensures Count(p.valid) == 0 <==> Flagged(p, 0) == []
  {
    hide Flagged;
    FlaggedFour(p, 0);
  }

  /**
   The records of the current pack that are still to be written; an idle stage has none, whatever the valid bits say.
   */
  function Rest(left: nat, p: Pack): seq<Record>
    requires IsPack(p)
  {
    if left == 0 then [] else Flagged(p, 0)
  }

  // ---------- the valid bits ----------

  /** The records and the pack of event `k`. */
  function RecordsAt(events: seq<Event>, k: nat): seq<Record>
    requires k < |events|
  {
    Records(events[k], TimeAfter(events[..k + 1]))
  }

  function PackAt(events: seq<Event>, k: nat): (p: Pack)
    requires k < |events|
    ensures IsPack(p)
  {
    PackOf(events[k], TimeAfter(events[..k + 1]))
  }

  lemma TimeNext(events: seq<Event>, e: Event)
    ensures TimeAfter(events + [e])
         == if e.Software? then TimeAfter(events) else (TimeAfter(events) + e.delta) % 0x4000_0000
  {
    assert (events + [e])[..|events|] == events;
  }

  /** They do not depend on later events. */
  lemma AtEarlier(events: seq<Event>, e: Event, k: nat)
    requires k < |events|
    ensures PackAt(events + [e], k) == PackAt(events, k) && RecordsAt(events + [e], k) == RecordsAt(events, k)
  {
    hide PackOf, Records, TimeAfter;
    assert (events + [e])[..k + 1] == events[..k + 1];
  }

  lemma AtLast(events: seq<Event>, e: Event)
    ensures PackAt(events + [e], |events|) == PackOf(e, TimeAfter(events + [e]))
    ensures AllRecords(events + [e]) == AllRecords(events) + Records(e, TimeAfter(events + [e]))
  {
    hide PackOf, Records, TimeAfter;
    assert (events + [e])[..|events| + 1] == events + [e] && (events + [e])[..|events|] == events;
  }

  /** The buffer holds the packs of the events that came last. */
  ghost predicate Queued(packs: seq<Pack>, events: seq<Event>) {
    && |packs| <= |events|
    && forall i | 0 <= i < |packs| :: packs[i] == PackAt(events, |events| - |packs| + i)
  }

  /** Number of records of the event whose pack was read last. */
  function LastRead(packs: seq<Pack>, events: seq<Event>): nat {
    var k := |events| - |packs| - 1;
    if k >= 0 then |RecordsAt(events, k)| else 0
  }

  /** The valid bits that are set: as many as records are left, but one stale one when the last has been written. */
  predicate BitsLeft(left: nat, current: Pack, records: nat)
    requires IsPack(current)
  {
    && left <= records
    && Count(current.valid) == if left > 0 then left else if records > 0 then 1 else 0
  }

  lemma QueuedMore(packs: seq<Pack>, events: seq<Event>, e: Event)
    requires Queued(packs, events)
    ensures var p := PackOf(e, TimeAfter(events + [e]));
            Queued(packs + [p], events + [e]) && LastRead(packs + [p], events + [e]) == LastRead(packs, events)
  {
    var more, k := events + [e], |events| - |packs|;
    AtLast(events, e);
    hide PackAt, RecordsAt, PackOf, Records, TimeAfter;
    forall i | 0 <= i < |packs|
      ensures packs[i] == PackAt(more, k + i)
    {
      AtEarlier(events, e, k + i);
    }
    if k > 0 {
      AtEarlier(events, e, k - 1);
    }
  }

  lemma QueuedFirst(packs: seq<Pack>, events: seq<Event>)
    requires Queued(packs, events) && packs != []
    ensures IsPack(packs[0]) && Queued(packs[1..], events) && LastRead(packs[1..], events) == Count(packs[0].valid)
  {
    var k := |events| - |packs|;
    var e, now := events[k], TimeAfter(events[..k + 1]);
    assert packs[0] == PackAt(events, k);
    hide PackOf, Records, Flagged, TimeAfter;
    PackedRecords(e, now);
    FlaggedFour(packs[0], 0);
  }

  class Compressor {
    var packs: seq<Pack>
    var left: nat
    var current: Pack
    var time: nat
    ghost var events: seq<Event>
    ghost var out: seq<Record>

    ghost predicate Valid()
      reads this
    {
      && (forall p | p in packs :: IsPack(p)) && IsPack(current)
      && time == TimeAfter(events)
      && Queued(packs, events) && BitsLeft(left, current, LastRead(packs, events))
      && out + Rest(left, current) + Waiting(packs) == AllRecords(events)
    }

    constructor ()
      ensures Valid() && out == [] && events == []
    {
      packs, left, time := [], 0, 0;
      current := Pack(seq(4, i => SoftwareRecord(0)), [false, false, false, false]);
      events, out := [], [];
    }

    /** `convert_inputs`, when there is an event and room in the buffer. */
    method Convert(e: Event)
      requires Valid()
      modifies this`packs, this`events, this`time
      ensures Valid() && events == old(events) + [e]
    {
      hide Flagged, Records, PackOf, Queued, LastRead, TimeAfter, AllRecords, BitsLeft, Rest, Waiting, PackAt;
      TimeNext(events, e);
      if e.Monitor? {
        time := (time + e.delta) % 0x4000_0000;
      }
      AtLast(events, e);
      var p := PackOf(e, time);
      PackedRecords(e, time);
      WaitingAppend(packs, p);
      QueuedMore(packs, events, e);
      packs := packs + [p];
      events := events + [e];
      ghost var rest, later := out + Rest(left, current), Waiting(old(packs));
      assert rest + (later + Records(e, time)) == rest + later + Records(e, time);
    }

    /** A new pack is read from the buffer if there is one. */
    method ReadPack()
      requires Valid() && left == 0
      modifies this`packs, this`current, this`left
      ensures Valid() && packs == (if old(packs) == [] then [] else old(packs)[1..]) && (old(packs) == [] ==> left == 0)
    {
      hide Flagged, AllRecords, Queued, LastRead;
      if packs != [] {
        assert packs[0] in packs;
        NoneFlagged(packs[0]);
        QueuedFirst(packs, events);
        current := packs[0];
        packs := packs[1..];
        left := Count(current.valid);
        assert left <= 4;
      }
    }

    /** `write_out`: one record per call while any is left; the buffer is read when the last one goes out. */
    method WriteOut(full: bool) returns (wrote: bool, r: Record)
      requires Valid()
      modifies this
      ensures Valid() && events == old(events) && out == old(out) + if wrote then [r] else []
      ensures wrote == (!full && old(left) > 0)
      ensures packs == if old(packs) != [] && (old(left) == 0 || (old(left) == 1 && wrote)) then old(packs)[1..]
              else old(packs)
      ensures wrote ==> left < old(left) || packs != old(packs)
    {
      hide Flagged, AllRecords, Waiting, Count, Queued, LastRead;
      wrote, r := false, SoftwareRecord(0);
      if left == 0 {
        ReadPack();
      } else if !full {
        TakeFirst(current);
        ghost var before, later := Flagged(current, 0), Waiting(packs);
        var i := FirstValid(current.valid);
        r := current.data[i];
        wrote := true;
        if left == 1 {
          LastFlagged(current);
          left := 0;
          assert out + before + later == out + [r] + [] + later;
          out := out + [r];
          ReadPack();
        } else {
          current := current.(valid := current.valid[i := false]);
          left := left - 1;
          assert out + before + later == out + [r] + Flagged(current, 0) + later;
          out := out + [r];
        }
      }
    }

    /** Without back-pressure every record leaves, in order. */
    method Drain()
      requires Valid()
      modifies this
      ensures Valid() && events == old(events) && out == AllRecords(events) && left == 0 && packs == []
    {
      while left > 0 || packs != []
        invariant Valid() && events == old(events)
        decreases |packs|, left
      {
        var wrote, r := WriteOut(false);
      }
      assert out + [] + [] == out;
    }
  }

  /**
   The state of the write-out stage is the number of valid bits exactly while records are left, or when the event that
   was read last has none.
   */
  lemma StateExact(c: Compressor)
    requires c.Valid()
    ensures c.left == Count(c.current.valid) <==> c.left > 0 || LastRead(c.packs, c.events) == 0
  {
    hide LastRead, Queued, Count;
  }

  /** One software event leaves an idle stage with a valid bit set. */
  method StaleBit() returns (c: Compressor)
    ensures c.Valid() && c.left == 0 && Count(c.current.valid) == 1
  {
    c := new Compressor();
    c.Convert(Software(0));
    c.Drain();
    assert c.events == [Software(0)] && c.packs == [];
  }

  /** The last record of a pack; its valid bit stays set, so that an idle stage may hold a stale one. */
  lemma LastFlagged(p: Pack)
    requires IsPack(p) && Count(p.valid) == 1
    ensures Flagged(p, 0) == [p.data[FirstValid(p.valid)]]
  {
    hide Flagged;
    FlaggedFour(p, 0);
  }

  /**
   What `convert_inputs` builds: all four records are formed, the valid bits follow the flags,
       and the first valid record
   gets the time.
   */
  function PackOf(e: Event, now: nat): (p: Pack)
    ensures IsPack(p)
  {
    match e
    case Software(word) => Pack([SoftwareRecord(word), SoftwareRecord(0), SoftwareRecord(0), SoftwareRecord(0)],
        [true, false, false, false])
    case Monitor(_, loop, p0, p1) =>
      var v0, v1, v2, v3 := Writes(p0), Reads(p0), Writes(p1), Reads(p1);
      var r0, r1, r2, r3 := WriteData(0, p0), ReadData(0, p0), WriteData(1, p1), ReadData(1, p1);
      Pack([if v0 then Timed(r0, now, loop) else r0, if v1 && !v0 then Timed(r1, now, loop) else r1,
            if v2 && !v0 && !v1 then Timed(r2, now, loop) else r2,
            if v3 && !v0 && !v1 && !v2 then Timed(r3, now, loop) else r3],
           [v0, v1, v2, v3])
  }

  lemma StampedSplit(b: bool, r: Record, y: seq<Record>, now: nat, loop: bool)
    ensures Stamped(Opt(b, r) + y, now, loop) == if b then [Timed(r, now, loop)] + y else Stamped(y, now, loop)
  {
    if b {
      assert ([r] + y)[1..] == y;
    } else {
      assert [] + y == y;
    }
  }

  lemma Grouped(x: seq<Record>, y: seq<Record>, z: seq<Record>, u: seq<Record>)
    ensures x + y + z + u == x + (y + (z + u)) && u + [] == u && [] + u == u
  {
  }

  /** The time goes into the first record there is. */
  lemma StampedFour(a: bool, b: bool, c: bool, d: bool, r0: Record, r1: Record, r2: Record, r3: Record, now: nat,
                    loop: bool)
    ensures Stamped(Opt(a, r0) + Opt(b, r1) + Opt(c, r2) + Opt(d, r3), now, loop)
         == Opt(a, Timed(r0, now, loop)) + Opt(b, if a then r1 else Timed(r1, now, loop))
            + Opt(c, if a || b then r2 else Timed(r2, now, loop))
                + Opt(d, if a || b || c then r3 else Timed(r3, now, loop))
  {
    hide Timed, Stamped;
    var x0, x1, x2, x3 := Opt(a, r0), Opt(b, r1), Opt(c, r2), Opt(d, r3);
    Grouped(x0, x1, x2, x3);
    StampedSplit(a, r0, x1 + (x2 + x3), now, loop);
    StampedSplit(b, r1, x2 + x3, now, loop);
    StampedSplit(c, r2, x3, now, loop);
    StampedSplit(d, r3, [], now, loop);
    NoneStamped(now, loop);
    var y0, y1 := Opt(a, Timed(r0, now, loop)), Opt(b, if a then r1 else Timed(r1, now, loop));
    var y2, y3 := Opt(c, if a || b then r2 else Timed(r2, now, loop)),
                  Opt(d, if a || b || c then r3 else Timed(r3, now, loop));
    Grouped(y0, y1, y2, y3);
    Grouped([], [], [], y3);
    Grouped([], [], y2, y3);
    Grouped([], y1, y2, y3);
  }

  lemma NoneStamped(now: nat, loop: bool)
    ensures Stamped([], now, loop) == []
  {
  }

  lemma PackedRecords(e: Event, now: nat)
    ensures Flagged(PackOf(e, now), 0) == Records(e, now)
  {
    hide Flagged, Stamped, Timed, Writes, Reads, WriteData, ReadData;
    FlaggedFour(PackOf(e, now), 0);
    if e.Monitor? {
      var p0, p1 := e.port0, e.port1;
      StampedFour(Writes(p0), Reads(p0), Writes(p1), Reads(p1), WriteData(0, p0), ReadData(0, p0), WriteData(1, p1),
                  ReadData(1, p1), now, e.loop);
    }
  }
}
