/**
 Trace entries and output words bit by bit: which bits of which entry a word of the compressor carries, and what the
 parser reads from an entry.
 */
module TraceWords {
  import opened Words
  import opened TraceParser
  import opened TraceCompress
  import opened TraceFormat

  // ---------- which bits of an entry a word carries ----------

  /** A word is for a software entry, or for the write or read channel of a port. */
  datatype Source = Marked | OfPort(slot: nat, write: bool)

  /** The flags of the four channels. */
  predicate Asks(e: seq<bool>, slot: nat, write: bool)
    requires |e| == 320
  {
    if slot == 0 then if write then e[35] || e[36] || e[37] || e[38] else e[39] || e[40] || e[41]
    else if write then e[205] || e[206] || e[207] || e[208] else e[209] || e[210] || e[211]
  }

  /** The words that an entry leads to. */
  function Sources(e: seq<bool>): seq<Source>
    requires |e| == 320
  {
    if e[0] then [Marked]
    else
      (if Asks(e, 0, true) then [OfPort(0, true)] else [])
      + (if Asks(e, 0, false) then [OfPort(0, false)] else [])
      + (if Asks(e, 1, true) then [OfPort(1, true)] else [])
      + if Asks(e, 1, false) then [OfPort(1, false)] else []
  }

  /** Bits `lo` to `hi` of a word are bits `a` to `b` of an entry, and zeros above them. */
  predicate Copies(w: seq<bool>, lo: nat, hi: nat, e: seq<bool>, a: nat, b: nat)
    requires lo <= hi <= |w| && a <= b <= |e| && b - a <= hi - lo
  {
    w[lo..lo + (b - a)] == e[a..b] && forall i | lo + (b - a) <= i < hi :: !w[i]
  }

  /** The word is the first one of its entry. */
  predicate IsFirst(e: seq<bool>, slot: nat, write: bool)
    requires |e| == 320
  {
    (slot == 0 && write)
    || (!Asks(e, 0, true) && (slot == 0 || (!Asks(e, 0, false) && (write || !Asks(e, 1, true)))))
  }

  /**
   What a word says of an entry at time `now`: the mark in bit 0, time and overflow flag in the first word of the entry
   only, slot and direction in bits 32 and 33, and the bits of the port in their places.
   */
  predicate Says(e: seq<bool>, what: Source, now: nat, w: seq<bool>)
    requires |e| == 320 && |w| == 128
  {
    match what
    case Marked => Copies(w, 0, 128, e, 0, 64) && w[0]
    case OfPort(slot, write) =>
      && Value(w[1..31]) == (if IsFirst(e, slot, write) then now else 0) && w[31] == (IsFirst(e, slot, write) && e[31])
      && !w[0] && w[32] == (slot != 0) && w[33] == write && (forall i | 121 <= i < 128 :: !w[i])
      && if slot == 0 then
           && Copies(w, 34, 37, e, 32, 35)
           && if write then
                && Copies(w, 37, 41, e, 35, 39) && Copies(w, 41, 49, e, 50, 58) && Copies(w, 49, 65, e, 90, 106)
                && Copies(w, 65, 81, e, 106, 122) && Copies(w, 81, 121, e, 162, 202)
              else
                && Copies(w, 37, 41, e, 39, 42) && Copies(w, 41, 49, e, 42, 50) && Copies(w, 49, 65, e, 58, 74)
                && Copies(w, 65, 81, e, 74, 90) && Copies(w, 81, 121, e, 122, 162)
         else
           && Copies(w, 34, 37, e, 202, 205)
           && if write then
                && Copies(w, 37, 41, e, 205, 209) && Copies(w, 41, 49, e, 220, 228) && Copies(w, 49, 65, e, 234, 237)
                && Copies(w, 65, 81, e, 237, 240) && Copies(w, 81, 121, e, 280, 320)
              else
                && Copies(w, 37, 41, e, 209, 212) && Copies(w, 41, 49, e, 212, 220) && Copies(w, 49, 65, e, 228, 231)
                && Copies(w, 65, 81, e, 231, 234) && Copies(w, 81, 121, e, 240, 280)
  }

  lemma SliceCopies(w: seq<bool>, hi: nat, lo: nat, e: seq<bool>, b: nat, a: nat)
    requires lo <= hi < |w| && a <= b < |e| && b - a <= hi - lo && Slice(w, hi, lo) == Slice(e, b, a)
    ensures Copies(w, lo, hi + 1, e, a, b + 1)
  {
    hide Value;
    SameBits(w[lo..hi + 1], e[a..b + 1]);
    assert w[lo..lo + (b + 1 - a)] == w[lo..hi + 1][..b + 1 - a];
    assert forall i | lo + (b + 1 - a) <= i < hi + 1 :: w[i] == w[lo..hi + 1][i - lo];
  }

  // ---------- every record says what its word does ----------

  function PortOf(e: seq<bool>, slot: nat): Port
    requires |e| == 320
  {
    if slot == 0 then PortAt(e, 32, 16) else PortAt(e, 202, 3)
  }

  /** The record of a word for an entry at time `now`. */
  function RecordFor(e: seq<bool>, what: Source, now: nat): Record
    requires |e| == 320
  {
    match what
    case Marked => SoftwareRecord(Slice(e, 63, 0))
    case OfPort(slot, write) =>
      var r := if write then WriteData(Bit(slot != 0), PortOf(e, slot)) else ReadData(Bit(slot != 0), PortOf(e, slot));
      if IsFirst(e, slot, write) then Timed(r, now, Flag(e, 31)) else r
  }

  /** The channels that ask for a word are those with a flag. */
  lemma AsksFlags(e: seq<bool>, slot: nat)
    requires |e| == 320 && slot < 2
    ensures Asks(e, slot, true) == Writes(PortOf(e, slot)) && Asks(e, slot, false) == Reads(PortOf(e, slot))
  {
    hide Pow2, Flag, Slice, PortAt;
    PortFlags(e, 32, 16);
    PortFlags(e, 202, 3);
  }

  lemma PortFlags(e: seq<bool>, base: nat, w: nat)
    requires |e| == 320 && w > 0 && base + 106 + 4 * w <= 320
    ensures var p := PortAt(e, base, w);
            && p.wrAddr == e[base + 3] && p.firstWr == e[base + 4] && p.lastWr == e[base + 5]
            && p.response == e[base + 6] && p.rdAddr == e[base + 7] && p.firstRd == e[base + 8]
            && p.lastRd == e[base + 9]
  {
    hide Pow2, Flag, Slice;
    FlagIs(e, base + 3);
    FlagIs(e, base + 4);
    FlagIs(e, base + 5);
    FlagIs(e, base + 6);
    FlagIs(e, base + 7);
    FlagIs(e, base + 8);
    FlagIs(e, base + 9);
  }

  /** The records of an entry are those of its words. */
  lemma RecordsAre(e: seq<bool>, now: nat)
    requires |e| == 320
    ensures |Records(EventOf(e), now)| == |Sources(e)|
    ensures forall k | 0 <= k < |Sources(e)| :: Records(EventOf(e), now)[k] == RecordFor(e, Sources(e)[k], now)
  {
    hide Pow2, PortAt, Slice, RecordFor, Records, Asks;
    EventMark(e);
    if !e[0] {
      MonitorRecords(e, now);
      hide EventOf;
    } else {
      MarkedRecord(e, now);
    }
  }

  lemma EventMark(e: seq<bool>)
    requires |e| == 320
    ensures EventOf(e).Software? == e[0]
  {
    hide Pow2, PortAt, Slice;
    FlagIs(e, 0);
  }

  lemma MarkedRecord(e: seq<bool>, now: nat)
    requires |e| == 320 && e[0]
    ensures Records(EventOf(e), now) == [RecordFor(e, Marked, now)]
  {
    hide Pow2, PortAt, Slice;
    FlagIs(e, 0);
  }

  lemma MonitorRecords(e: seq<bool>, now: nat)
    requires |e| == 320 && !e[0]
    ensures Records(EventOf(e), now)
         == Opt(Asks(e, 0, true), RecordFor(e, OfPort(0, true), now))
            + Opt(Asks(e, 0, false), RecordFor(e, OfPort(0, false), now))
            + Opt(Asks(e, 1, true), RecordFor(e, OfPort(1, true), now))
            + Opt(Asks(e, 1, false), RecordFor(e, OfPort(1, false), now))
  {
    hide Pow2, Flag, Slice, PortAt, Asks, Stamped, WriteData, ReadData, Writes, Reads, Timed;
    EventMark(e);
    AsksFlags(e, 0);
    AsksFlags(e, 1);
    var p0, p1 := PortOf(e, 0), PortOf(e, 1);
    StampedFour(Writes(p0), Reads(p0), Writes(p1), Reads(p1), WriteData(0, p0), ReadData(0, p0), WriteData(1, p1),
                ReadData(1, p1), now, Flag(e, 31));
  }

  lemma FlagsCopy(e: seq<bool>, base: nat, w: seq<bool>, r: Record, n: nat, write: bool)
    requires |e| == 320 && |w| == 128 && 0 < n <= 16 && base + 106 + 4 * n <= 320 && RecordOf(w) == r
    requires var p := PortAt(e, base, n);
             if write then
               && r.addrLatch == p.wrAddr && r.first == p.firstWr && r.last == p.lastWr && r.response == p.response
             else r.addrLatch == p.rdAddr && r.first == p.firstRd && r.last == p.lastRd && !r.response
    ensures if write then Copies(w, 37, 41, e, base + 3, base + 7) else Copies(w, 37, 41, e, base + 7, base + 10)
  {
    hide Pow2, Flag, Slice, PortAt;
    PortFlags(e, base, n);
    FlagIs(w, 37);
    FlagIs(w, 38);
    FlagIs(w, 39);
    FlagIs(w, 40);
  }

  /** The bits of a port in a word with the fields of its record. */
  lemma PortSays(e: seq<bool>, base: nat, n: nat, w: seq<bool>, r: Record, write: bool)
    requires |e| == 320 && |w| == 128 && 0 < n <= 16 && base + 106 + 4 * n <= 320 && r.Access? && RecordOf(w) == r
    requires var p := PortAt(e, base, n);
             && r.ext == p.ext
             && if write then
                  && r.addrLatch == p.wrAddr && r.first == p.firstWr && r.last == p.lastWr && r.response == p.response
                  && r.length == p.awlen && r.id == p.bid && r.addrId == p.awid && r.addr == p.awaddr
                else
                  && r.addrLatch == p.rdAddr && r.first == p.firstRd && r.last == p.lastRd && !r.response
                  && r.length == p.arlen && r.id == p.rid && r.addrId == p.arid && r.addr == p.araddr
    ensures Copies(w, 34, 37, e, base, base + 3)
    ensures var ids := base + 26;
            var addrs := ids + 4 * n;
            if write then
              && Copies(w, 37, 41, e, base + 3, base + 7) && Copies(w, 41, 49, e, base + 18, base + 26)
              && Copies(w, 49, 65, e, ids + 2 * n, ids + 3 * n) && Copies(w, 65, 81, e, ids + 3 * n, ids + 4 * n)
              && Copies(w, 81, 121, e, addrs + 40, addrs + 80)
            else
              && Copies(w, 37, 41, e, base + 7, base + 10) && Copies(w, 41, 49, e, base + 10, base + 18)
              && Copies(w, 49, 65, e, ids, ids + n) && Copies(w, 65, 81, e, ids + n, ids + 2 * n)
              && Copies(w, 81, 121, e, addrs, addrs + 40)
  {
    hide Pow2, Flag, Slice, Copies;
    FlagsCopy(e, base, w, r, n, write);
    var ids, addrs := base + 26, base + 26 + 4 * n;
    SliceCopies(w, 36, 34, e, base + 2, base);
    if write {
      SliceCopies(w, 48, 41, e, base + 25, base + 18);
      SliceCopies(w, 64, 49, e, ids + 3 * n - 1, ids + 2 * n);
      SliceCopies(w, 80, 65, e, ids + 4 * n - 1, ids + 3 * n);
      SliceCopies(w, 120, 81, e, addrs + 79, addrs + 40);
    } else {
      SliceCopies(w, 48, 41, e, base + 17, base + 10);
      SliceCopies(w, 64, 49, e, ids + n - 1, ids);
      SliceCopies(w, 80, 65, e, ids + 2 * n - 1, ids + n);
      SliceCopies(w, 120, 81, e, addrs + 39, addrs);
    }
  }

  lemma MarkSays(e: seq<bool>, now: nat, w: seq<bool>)
    requires |e| == 320 && |w| == 128 && PaddingZero(w) && OutOf(w) == RecordFor(e, Marked, now)
    ensures Says(e, Marked, now, w)
  {
    hide Pow2, Flag, Slice;
    FlagIs(w, 0);
    SliceCopies(w, 63, 0, e, 63, 0);
  }

  lemma HeadSays(e: seq<bool>, what: Source, now: nat, w: seq<bool>)
    requires |e| == 320 && |w| == 128 && what.OfPort? && OutOf(w) == RecordFor(e, what, now)
    ensures !w[0] && RecordOf(w) == RecordFor(e, what, now) && w[32] == (what.slot != 0) && w[33] == what.write
    ensures var first := IsFirst(e, what.slot, what.write);
            Value(w[1..31]) == (if first then now else 0) && w[31] == (first && e[31])
  {
    FlagIs(w, 0);
    FlagIs(w, 31);
    FlagIs(w, 32);
    FlagIs(w, 33);
    FlagIs(e, 31);
    assert Slice(w, 30, 1) == Value(w[1..31]);
    hide Pow2, Flag, Slice, PortAt, IsFirst, Value;
  }

  lemma PortWordSays(e: seq<bool>, what: Source, now: nat, w: seq<bool>)
    requires |e| == 320 && |w| == 128 && PaddingZero(w) && what.OfPort? && OutOf(w) == RecordFor(e, what, now)
    ensures Says(e, what, now, w)
  {
    hide Pow2, OutOf, RecordOf, PortAt, Copies, Value, Asks, Slice, Flag;
    HeadSays(e, what, now, w);
    var r := RecordFor(e, what, now);
    if what.slot == 0 {
      PortSays(e, 32, 16, w, r, what.write);
    } else {
      PortSays(e, 202, 3, w, r, what.write);
    }
  }

  /** A word that decodes to the record of a source says what it must, bit by bit. */
  lemma WordSays(e: seq<bool>, what: Source, now: nat, w: seq<bool>)
    requires |e| == 320 && |w| == 128 && PaddingZero(w) && OutOf(w) == RecordFor(e, what, now)
    ensures Says(e, what, now, w)
  {
    hide OutOf, RecordFor, Says, PaddingZero;
    if what.Marked? {
      MarkSays(e, now, w);
    } else {
      PortWordSays(e, what, now, w);
    }
  }

  // ---------- all words of all entries ----------

  /** The time of the last of some entries, as 30 bits: marked ones tell none. */
  function TimeOf(entries: seq<seq<bool>>): nat
    requires Entries(entries)
  {
    if entries == [] then 0
    else
      var n := |entries| - 1;
      EntriesMore(entries, n);
      if entries[n][0] then TimeOf(entries[..n]) else (TimeOf(entries[..n]) + Value(entries[n][1..31])) % 0x4000_0000
  }

  lemma EntriesMore(entries: seq<seq<bool>>, n: nat)
    requires Entries(entries) && n < |entries|
    ensures Entries(entries[..n]) && |entries[n]| == 320
  {
    assert entries[n] in entries;
  }

  /** One word to come: its entry, its part of it, and the time of the entry. */
  datatype Item = Item(entry: seq<bool>, what: Source, now: nat)

  function ItemsOf(e: seq<bool>, now: nat): (items: seq<Item>)
    requires |e| == 320
    ensures forall i | i in items :: |i.entry| == 320
  {
    seq(|Sources(e)|, k requires 0 <= k < |Sources(e)| => Item(e, Sources(e)[k], now))
  }

  function Items(entries: seq<seq<bool>>): (items: seq<Item>)
    requires Entries(entries)
    ensures forall i | i in items :: |i.entry| == 320
  {
    if entries == [] then []
    else
      var n := |entries| - 1;
      EntriesMore(entries, n);
      Items(entries[..n]) + ItemsOf(entries[n], TimeOf(entries))
  }

  /** The words say in order, once each, what there is to say. */
  predicate Tell(words: seq<seq<bool>>, items: seq<Item>) {
    && |words| <= |items|
    && forall k | 0 <= k < |words| ::
         |items[k].entry| == 320 && |words[k]| == 128 && Says(items[k].entry, items[k].what, items[k].now, words[k])
  }

  lemma EventTime(e: seq<bool>)
    requires |e| == 320
    ensures EventOf(e).Software? == e[0] && (!e[0] ==> EventOf(e).delta == Value(e[1..31]))
  {
    hide PortAt, Pow2;
    FlagIs(e, 0);
  }

  lemma {:induction false} TimeIs(entries: seq<seq<bool>>)
    requires Entries(entries)
    ensures TimeOf(entries) == TimeAfter(Events(entries))
    decreases |entries|
  {
    hide EventOf, Value, Pow2;
    if entries != [] {
      var n := |entries| - 1;
      EventsMore(entries, n);
      assert entries[..n + 1] == entries && Events(entries)[..n] == Events(entries[..n]);
      TimeIs(entries[..n]);
      EventTime(entries[n]);
    }
  }

  /** Each record is the one of its item. */
  predicate Match(records: seq<Record>, items: seq<Item>) {
    && |records| == |items|
    && forall k | 0 <= k < |items| ::
         |items[k].entry| == 320 && records[k] == RecordFor(items[k].entry, items[k].what, items[k].now)
  }

  lemma MatchJoin(r1: seq<Record>, i1: seq<Item>, r2: seq<Record>, i2: seq<Item>)
    requires Match(r1, i1) && Match(r2, i2)
    ensures Match(r1 + r2, i1 + i2)
  {
    hide RecordFor;
  }

  lemma MatchOne(e: seq<bool>, now: nat)
    requires |e| == 320
    ensures Match(Records(EventOf(e), now), ItemsOf(e, now))
  {
    hide EventOf, Records, RecordFor, Sources;
    RecordsAre(e, now);
  }

  lemma {:induction false} ItemsAre(entries: seq<seq<bool>>)
    requires Entries(entries)
    ensures Match(AllRecords(Events(entries)), Items(entries))
    decreases |entries|
  {
    hide EventOf, Records, RecordFor, Sources, TimeAfter, TimeOf, Match, ItemsOf;
    if entries == [] {
      NoMatch();
    } else {
      var n := |entries| - 1;
      EventsMore(entries, n);
      assert entries[..n + 1] == entries && Events(entries)[..n] == Events(entries[..n]);
      ItemsAre(entries[..n]);
      TimeIs(entries);
      MatchOne(entries[n], TimeOf(entries));
      MatchJoin(AllRecords(Events(entries[..n])), Items(entries[..n]), Records(EventOf(entries[n]), TimeOf(entries)),
                ItemsOf(entries[n], TimeOf(entries)));
    }
  }

  lemma NoMatch()
    ensures Match([], [])
  {
  }

  predicate Padded(words: seq<seq<bool>>) {
    forall w | w in words :: |w| == 128 && PaddingZero(w)
  }

  lemma WordsTell(words: seq<seq<bool>>, entries: seq<seq<bool>>)
    requires Entries(entries) && IsOutput(words) && Padded(words) && Decoded(words) <= AllRecords(Events(entries))
    ensures Tell(words, Items(entries))
  {
    hide EventOf, RecordFor, Sources, TimeAfter, TimeOf, OutOf, PaddingZero, Says, Items, AllRecords;
    ItemsAre(entries);
    var items := Items(entries);
    forall k | 0 <= k < |words|
      ensures |items[k].entry| == 320 && |words[k]| == 128
      ensures Says(items[k].entry, items[k].what, items[k].now, words[k])
    {
      assert words[k] in words && Decoded(words)[k] == AllRecords(Events(entries))[k];
      WordSays(items[k].entry, items[k].what, items[k].now, words[k]);
    }
  }

  /** One clock of the compressor: an entry is converted, or the write-out stage runs with the output full or not. */
  datatype Tick = Feed | Write(full: bool)

  /** The write-out stage with its record as a word. */
  method Output(c: Compressor, full: bool, ghost entries: seq<seq<bool>>) returns (wrote: bool, w: seq<bool>)
    requires c.Valid() && Entries(entries) && c.events == Events(entries)
    modifies c
    ensures c.Valid() && c.events == old(c.events)
    ensures if wrote then |w| == 128 && c.out == old(c.out) + [OutOf(w)] && PaddingZero(w) else c.out == old(c.out)
    ensures wrote == (!full && old(c.left) > 0)
    ensures c.packs == if old(c.packs) != [] && (old(c.left) == 0 || (old(c.left) == 1 && wrote)) then old(c.packs)[1..]
                       else old(c.packs)
    ensures wrote ==> c.left < old(c.left) || c.packs != old(c.packs)
  {
    hide Events, OutOf, OutBits, OutFits, Pow2, Compressor.Valid;
    var r;
    wrote, r := c.WriteOut(full);
    w := [];
    if wrote {
      WrittenFits(c, entries, r);
      OutRoundTrip(r);
      w := OutBits(r);
    }
  }

  function Feeds(ticks: seq<Tick>): nat {
    if ticks == [] then 0 else Feeds(ticks[..|ticks| - 1]) + if ticks[|ticks| - 1].Feed? then 1 else 0
  }

  /**
   The compressor on 320-bit entries and 128-bit words: however its stages interleave and stall, the words say in order,
   once each, what the entries say.
   */
  method Compress(entries: seq<seq<bool>>, ticks: seq<Tick>) returns (words: seq<seq<bool>>, fed: nat)
    requires Entries(entries)
    ensures fed == if Feeds(ticks) < |entries| then Feeds(ticks) else |entries|
    ensures Entries(entries[..fed]) && IsOutput(words) && Decoded(words) <= AllRecords(Events(entries[..fed]))
    ensures Tell(words, Items(entries[..fed]))
  {
    hide EventOf, OutOf, OutBits, Pow2, AllRecords, Events, Decoded, IsOutput, Entries, Compressor.Valid, Items, Tell,
         PaddingZero;
    NothingDecoded(entries);
    var c := new Compressor();
    words, fed := [], 0;
    var t := 0;
    while t < |ticks|
      invariant 0 <= t <= |ticks| && fed <= |entries| && c.Valid() && fresh(c)
      invariant Entries(entries[..fed]) && c.events == Events(entries[..fed])
      invariant fed == if Feeds(ticks[..t]) < |entries| then Feeds(ticks[..t]) else |entries|
      invariant IsOutput(words) && Decoded(words) == c.out && Padded(words)
    {
      assert ticks[..t + 1][..t] == ticks[..t];
      if ticks[t].Feed? {
        if fed < |entries| {
          EventsMore(entries, fed);
          c.Convert(EventOf(entries[fed]));
          fed := fed + 1;
        }
      } else {
        var wrote, w := Output(c, ticks[t].full, entries[..fed]);
        if wrote {
          DecodedMore(words, w);
          words := words + [w];
        }
      }
      t := t + 1;
    }
    assert ticks[..t] == ticks;
    OutPrefix(c);
    WordsTell(words, entries[..fed]);
  }

  /** Without back-pressure every entry is told in full. */
  method CompressAll(entries: seq<seq<bool>>) returns (words: seq<seq<bool>>)
    requires Entries(entries)
    ensures |words| == |Items(entries)| && Tell(words, Items(entries))
  {
    hide EventOf, OutOf, OutBits, Pow2, AllRecords, Events, Decoded, IsOutput, Entries, Compressor.Valid, Items, Tell,
         PaddingZero;
    NothingDecoded(entries);
    var c := new Compressor();
    words := [];
    for k := 0 to |entries|
      invariant c.Valid() && fresh(c) && Entries(entries[..k]) && c.events == Events(entries[..k]) && c.out == []
    {
      EventsMore(entries, k);
      c.Convert(EventOf(entries[k]));
    }
    assert entries[..|entries|] == entries;
    while c.left > 0 || c.packs != []
      invariant c.Valid() && fresh(c) && c.events == Events(entries)
      invariant IsOutput(words) && Decoded(words) == c.out && Padded(words)
      decreases |c.packs|, c.left
    {
      var wrote, w := Output(c, false, entries);
      if wrote {
        DecodedMore(words, w);
        words := words + [w];
      }
    }
    OutPrefix(c);
    OutAll(c);
    WordsTell(words, entries);
    ItemsAre(entries);
  }

  lemma OutAll(c: Compressor)
    requires c.Valid() && c.left == 0 && c.packs == []
    ensures c.out == AllRecords(c.events)
  {
    assert c.out + [] + [] == c.out;
  }

  lemma OutPrefix(c: Compressor)
    requires c.Valid()
    ensures c.out <= AllRecords(c.events)
  {
  }

  lemma NothingDecoded(entries: seq<seq<bool>>)
    ensures IsOutput([]) && Decoded([]) == [] && Entries(entries[..0]) && Events(entries[..0]) == []
  {
  }

  lemma DecodedMore(words: seq<seq<bool>>, w: seq<bool>)
    requires |w| == 128 && IsOutput(words)
    ensures IsOutput(words + [w]) && Decoded(words + [w]) == Decoded(words) + [OutOf(w)]
  {
    hide OutOf;
  }

  lemma WrittenFits(c: Compressor, entries: seq<seq<bool>>, r: Record)
    requires c.Valid() && Entries(entries) && c.events == Events(entries) && c.out != [] && c.out[|c.out| - 1] == r
    ensures OutFits(r)
  {
    hide OutFits, Events, AllRecords;
    assert AllRecords(c.events)[|c.out| - 1] == r;
    AllFit(entries, r);
  }


  // ---------- the parser ----------

  /** The fields of a slot as the parser keeps them. */
  datatype Slot = Slot(ext: nat, flags: nat, arlen: nat, awlen: nat, rid: nat, arid: nat, bid: nat, awid: nat,
                       araddr: string, awaddr: string)

  /** A string that denotes a number in hexadecimal digits. */
  predicate IsHex(s: string, v: nat) {
    |s| >= 2 && s[..2] == "0x" && HexValue(s[2..]) == v
  }

  /** The slot that starts at bit `base`, with `f` flags and `w` bits for each ID. */
  predicate SlotAt(bits: seq<bool>, base: nat, f: nat, w: nat, t: Slot)
    requires base + 99 + f + 4 * w <= |bits|
  {
    var lens := base + 3 + f;
    var ids := lens + 16;
    var addrs := ids + 4 * w;
    && t.ext == Value(bits[base..base + 3]) && t.flags == Value(bits[base + 3..lens])
    && t.arlen == Value(bits[lens..lens + 8]) && t.awlen == Value(bits[lens + 8..ids])
    && t.rid == Value(bits[ids..ids + w]) && t.arid == Value(bits[ids + w..ids + 2 * w])
    && t.bid == Value(bits[ids + 2 * w..ids + 3 * w]) && t.awid == Value(bits[ids + 3 * w..addrs])
    && IsHex(t.araddr, Value(bits[addrs..addrs + 40])) && IsHex(t.awaddr, Value(bits[addrs + 40..addrs + 80]))
  }

  /** The part of `parse_slot` that takes the fields of a slot out of an entry. */
  method ParseSlot(bits: seq<bool>, base: nat, f: nat, w: nat) returns (t: Slot, next: nat)
    requires f <= 32 && w <= 32 && base + 99 + f + 4 * w <= |bits|
    ensures next == base + 99 + f + 4 * w && SlotAt(bits, base, f, w, t)
  {
    hide Value, HexValue, Pow2;
    var ext, flags, arlen, awlen, rid, arid, bid, awid, araddr, awaddr;
    ext, next := NextUint(bits, base, 3);
    flags, next := NextUint(bits, next, f);
    arlen, next := NextUint(bits, next, 8);
    awlen, next := NextUint(bits, next, 8);
    rid, next := NextUint(bits, next, w);
    arid, next := NextUint(bits, next, w);
    bid, next := NextUint(bits, next, w);
    awid, next := NextUint(bits, next, w);
    araddr, next := NextHex(bits, next, 40);
    awaddr, next := NextHex(bits, next, 40);
    t := Slot(ext, flags, arlen, awlen, rid, arid, bid, awid, araddr, awaddr);
  }

  /**
   `parse_entry` up to its output: mark, time and overflow flag, then the word of a software entry or the slots, each
   from where the one before it ends.
   */
  method ParseEntry(bits: seq<bool>, f: nat, w0: nat, w1: nat)
    returns (mark: nat, time: nat, loop: nat, sw: string, slots: seq<Slot>)
    requires f <= 32 && w0 <= 32 && w1 <= 32 && 230 + 2 * f + 4 * w0 + 4 * w1 <= |bits|
    ensures mark == Bit(bits[0]) && time == Value(bits[1..31]) && loop == Bit(bits[31])
    ensures if bits[0] then IsHex(sw, Value(bits[32..64])) && slots == []
            else
              && |slots| == 2 && SlotAt(bits, 32, f, w0, slots[0])
              && SlotAt(bits, 131 + f + 4 * w0, f, w1, slots[1])
  {
    hide Value, HexValue, Pow2, SlotAt;
    var cursor;
    sw, slots := "", [];
    FlagIs(bits, 0);
    FlagIs(bits, 31);
    mark, cursor := NextUint(bits, 0, 1);
    time, cursor := NextUint(bits, cursor, 30);
    loop, cursor := NextUint(bits, cursor, 1);
    if mark == 1 {
      sw, cursor := NextHex(bits, cursor, 32);
    } else if mark == 0 {
      var t0, t1;
      t0, cursor := ParseSlot(bits, cursor, f, w0);
      t1, cursor := ParseSlot(bits, cursor, f, w1);
      slots := [t0, t1];
    }
  }

  /** A parsed slot has the fields of a port. */
  predicate SameFields(t: Slot, p: Port) {
    && t.ext == p.ext && t.flags == FlagWord(p) && t.arlen == p.arlen && t.awlen == p.awlen && t.rid == p.rid
    && t.arid == p.arid && t.bid == p.bid && t.awid == p.awid && IsHex(t.araddr, p.araddr) && IsHex(t.awaddr, p.awaddr)
  }

  lemma SevenFlags(bits: seq<bool>, base: nat, w: nat, t: Slot)
    requires w > 0 && base + 106 + 4 * w <= |bits| && SlotAt(bits, base, 7, w, t)
    ensures SameFields(t, PortAt(bits, base, w))
  {
    hide Value, HexValue, Pow2, FlagWord;
    FlagsAre(bits, base, w);
  }

  /** With seven flags a slot, what `parse_entry` reads from a 320-bit entry is the event that the compressor reads. */
  lemma ParsedEvent(bits: seq<bool>, slots: seq<Slot>)
    requires |bits| == 320 && !bits[0] && |slots| == 2
    requires SlotAt(bits, 32, 7, 16, slots[0]) && SlotAt(bits, 131 + 7 + 4 * 16, 7, 3, slots[1])
    ensures var e := EventOf(bits); e.Monitor? && SameFields(slots[0], e.port0) && SameFields(slots[1], e.port1)
  {
    hide Value, HexValue, Pow2, FlagWord, PortAt, Slice, Flag, SlotAt;
    EventMark(bits);
    SevenFlags(bits, 32, 16, slots[0]);
    SevenFlags(bits, 202, 3, slots[1]);
  }
}
