/** The bit layouts of monitor entries and output records, and what the compressor and the parser read from them. */
module TraceFormat {
  import opened Words
  import opened TraceParser
  import opened TraceCompress

  /** `i(hi, lo)`. */
  function Slice(bits: seq<bool>, hi: nat, lo: nat): (v: nat)
    requires lo <= hi < |bits|
    ensures v < Pow2(hi + 1 - lo)
  {
    Value(bits[lo..hi + 1])
  }

  predicate Flag(bits: seq<bool>, i: nat)
    requires i < |bits|
  {
    Slice(bits, i, i) == 1
  }

  // ---------- tables of widths ----------

  /** Where field `k` starts. */
  function Offset(widths: seq<nat>, k: nat): nat
    requires k <= |widths|
  {
    if k == 0 then 0 else Offset(widths, k - 1) + widths[k - 1]
  }

  ghost predicate FitAll(values: seq<nat>, widths: seq<nat>) {
    |values| == |widths| && forall i | 0 <= i < |values| :: values[i] < Pow2(widths[i])
  }

  lemma {:induction false} OffsetTail(widths: seq<nat>, k: nat)
    requires 0 < k <= |widths|
    ensures Offset(widths, k) == widths[0] + Offset(widths[1..], k - 1)
    decreases k
  {
    if k > 1 {
      OffsetTail(widths, k - 1);
    }
  }

  /** The bits from the offset of a field to that of the next one are the field, for every table of widths. */
  lemma {:induction false} FieldAt(values: seq<nat>, widths: seq<nat>, k: nat)
    requires FitAll(values, widths) && k < |values|
    ensures Offset(widths, k + 1) <= |Packed(values, widths)|
    ensures Value(Packed(values, widths)[Offset(widths, k)..Offset(widths, k + 1)]) == values[k]
    decreases k
  {
    hide Value, Offset;
    var bits, rest := Packed(values, widths), Packed(values[1..], widths[1..]);
    OffsetTail(widths, k + 1);
    FirstOffset(widths);
    FirstOffset(widths[1..]);
    if k == 0 {
      ValueOfBits(values[0], widths[0]);
      assert bits[0..widths[0]] == Bits(values[0], widths[0]);
    } else {
      FieldAt(values[1..], widths[1..], k - 1);
      OffsetTail(widths, k);
      var a, b := Offset(widths[1..], k - 1), Offset(widths[1..], k);
      OffsetStep(widths[1..], k - 1);
      TailSlice(Bits(values[0], widths[0]), rest, a, b);
    }
  }

  lemma TailSlice(x: seq<bool>, y: seq<bool>, a: nat, b: nat)
    requires a <= b <= |y|
    ensures (x + y)[|x| + a..|x| + b] == y[a..b]
  {
  }

  lemma FirstOffset(widths: seq<nat>)
    ensures Offset(widths, 0) == 0
  {
  }

  lemma OffsetStep(widths: seq<nat>, k: nat)
    requires k < |widths|
    ensures Offset(widths, k + 1) == Offset(widths, k) + widths[k]
  {
  }

  lemma {:induction false} PackedSize(values: seq<nat>, widths: seq<nat>)
    requires |values| == |widths|
    ensures |Packed(values, widths)| == Offset(widths, |widths|)
    decreases |widths|
  {
    if values != [] {
      PackedSize(values[1..], widths[1..]);
      OffsetTail(widths, |widths|);
    }
  }

  // ---------- output records ----------

  /** The 128 bits of an output record, least significant field first. */
  const RECORD_WIDTHS: seq<nat> := [1, 30, 1, 1, 1, 3, 1, 1, 1, 1, 8, 16, 16, 40, 7]
  const RECORD_OFFSETS: seq<nat> := [0, 1, 31, 32, 33, 34, 37, 38, 39, 40, 41, 49, 65, 81, 121, 128]

  function Bit(b: bool): nat {
    if b then 1 else 0
  }

  ghost predicate RecordFits(r: Record) {
    && r.Access? && r.time < Pow2(30) && r.slot < 2 && r.ext < Pow2(3) && r.length < Pow2(8) && r.id < Pow2(16)
       && r.addrId < Pow2(16)
    && r.addr < Pow2(40)
  }

  function RecordFields(r: Record): seq<nat>
    requires r.Access?
  {
    [0, r.time, Bit(r.loop), r.slot, Bit(r.write), r.ext, Bit(r.addrLatch), Bit(r.first), Bit(r.last), Bit(r.response),
     r.length, r.id, r.addrId, r.addr, 0]
  }

  /** The conversion of an `out_packet_t` to bits. */
  function RecordBits(r: Record): seq<bool>
    requires r.Access?
  {
    Packed(RecordFields(r), RECORD_WIDTHS)
  }

  /** The construction of an `out_packet_t` from bits. */
  function RecordOf(bits: seq<bool>): Record
    requires |bits| == 128
  {
    Access(Slice(bits, 30, 1), Flag(bits, 31), Slice(bits, 32, 32), Flag(bits, 33), Slice(bits, 36, 34),
        Flag(bits, 37), Flag(bits, 38), Flag(bits, 39),
           Flag(bits, 40), Slice(bits, 48, 41), Slice(bits, 64, 49), Slice(bits, 80, 65), Slice(bits, 120, 81))
  }

  lemma {:induction false} RecordOffset(k: nat)
    requires k < 16
    ensures Offset(RECORD_WIDTHS, k) == RECORD_OFFSETS[k]
    decreases k
  {
    if k > 0 {
      RecordOffset(k - 1);
      assert RECORD_OFFSETS[k] == RECORD_OFFSETS[k - 1] + RECORD_WIDTHS[k - 1];
    }
  }

  lemma RecordFitsTable(r: Record)
    requires RecordFits(r)
    ensures FitAll(RecordFields(r), RECORD_WIDTHS)
  {
    hide Pow2;
    PowTable();
    var f, w := RecordFields(r), RECORD_WIDTHS;
    assert f[0] < Pow2(w[0]) && f[1] < Pow2(w[1]) && f[2] < Pow2(w[2]) && f[3] < Pow2(w[3]) && f[4] < Pow2(w[4]);
    assert f[5] < Pow2(w[5]) && f[6] < Pow2(w[6]) && f[7] < Pow2(w[7]) && f[8] < Pow2(w[8]) && f[9] < Pow2(w[9]);
    assert f[10] < Pow2(w[10]) && f[11] < Pow2(w[11]) && f[12] < Pow2(w[12]) && f[13] < Pow2(w[13])
           && f[14] < Pow2(w[14]);
  }

  /** Field `k` of a packed record lies between its offset and the next. */
  lemma RecordField(bits: seq<bool>, f: seq<nat>, k: nat, hi: nat, lo: nat)
    requires FitAll(f, RECORD_WIDTHS) && bits == Packed(f, RECORD_WIDTHS) && |bits| == 128 && k < 15
    requires lo == RECORD_OFFSETS[k] && hi == RECORD_OFFSETS[k + 1] - 1 && lo <= hi < 128
    ensures Slice(bits, hi, lo) == f[k]
  {
    hide Value, Packed, Offset;
    RecordOffset(k);
    RecordOffset(k + 1);
    FieldAt(f, RECORD_WIDTHS, k);
  }

  lemma RecordSize(r: Record)
    requires r.Access?
    ensures |RecordBits(r)| == 128
  {
    hide Packed, Offset;
    PackedSize(RecordFields(r), RECORD_WIDTHS);
    RecordOffset(15);
  }

  /** The slices of `out_packet_t` are the fields of the table. */
  lemma FieldsRead(bits: seq<bool>, f: seq<nat>)
    requires FitAll(f, RECORD_WIDTHS) && bits == Packed(f, RECORD_WIDTHS) && |bits| == 128 && |f| == 15
    ensures Slice(bits, 30, 1) == f[1] && Slice(bits, 31, 31) == f[2] && Slice(bits, 32, 32) == f[3]
    ensures Slice(bits, 33, 33) == f[4] && Slice(bits, 36, 34) == f[5] && Slice(bits, 37, 37) == f[6]
    ensures Slice(bits, 38, 38) == f[7] && Slice(bits, 39, 39) == f[8] && Slice(bits, 40, 40) == f[9]
    ensures Slice(bits, 48, 41) == f[10] && Slice(bits, 64, 49) == f[11] && Slice(bits, 80, 65) == f[12]
    ensures Slice(bits, 120, 81) == f[13]
  {
    hide Slice, Packed, FitAll, Pow2;
    RecordField(bits, f, 1, 30, 1);
    RecordField(bits, f, 2, 31, 31);
    RecordField(bits, f, 3, 32, 32);
    RecordField(bits, f, 4, 33, 33);
    RecordField(bits, f, 5, 36, 34);
    RecordField(bits, f, 6, 37, 37);
    RecordField(bits, f, 7, 38, 38);
    RecordField(bits, f, 8, 39, 39);
    RecordField(bits, f, 9, 40, 40);
    RecordField(bits, f, 10, 48, 41);
    RecordField(bits, f, 11, 64, 49);
    RecordField(bits, f, 12, 80, 65);
    RecordField(bits, f, 13, 120, 81);
  }

  /** Unpacking an output record inverts packing it. */
  lemma RecordRoundTrip(r: Record)
    requires RecordFits(r)
    ensures |RecordBits(r)| == 128 && RecordOf(RecordBits(r)) == r
  {
    hide Slice, Packed, FitAll, Pow2;
    RecordFitsTable(r);
    RecordSize(r);
    FieldsRead(RecordBits(r), RecordFields(r));
  }

  // ---------- monitor entries ----------

  /** The fields of one port from bit `base` on, with `w` bits per ID, as `in_packet_t` takes them out. */
  function PortAt(bits: seq<bool>, base: nat, w: nat): Port
    requires w > 0 && base + 106 + 4 * w <= |bits|
  {
    var ids := base + 26;
    var addrs := ids + 4 * w;
    Port(Slice(bits, base + 2, base), Flag(bits, base + 3), Flag(bits, base + 4), Flag(bits, base + 5),
        Flag(bits, base + 6),
         Flag(bits, base + 7), Flag(bits, base + 8), Flag(bits, base + 9), Slice(bits, base + 17, base + 10),
         Slice(bits, base + 25, base + 18), Slice(bits, ids + w - 1, ids), Slice(bits, ids + 2 * w - 1, ids + w),
         Slice(bits, ids + 3 * w - 1, ids + 2 * w), Slice(bits, ids + 4 * w - 1, ids + 3 * w),
         Slice(bits, addrs + 39, addrs), Slice(bits, addrs + 79, addrs + 40))
  }

  /** The event of a 320-bit entry. */
  function EventOf(bits: seq<bool>): Event
    requires |bits| == 320
  {
    if Flag(bits, 0) then Software(Slice(bits, 63, 0))
    else Monitor(Slice(bits, 30, 1), Flag(bits, 31), PortAt(bits, 32, 16), PortAt(bits, 202, 3))
  }

  ghost predicate PortFits(p: Port) {
    && p.ext < Pow2(3) && p.arlen < Pow2(8) && p.awlen < Pow2(8) && p.rid < Pow2(16) && p.arid < Pow2(16)
    && p.bid < Pow2(16) && p.awid < Pow2(16) && p.araddr < Pow2(40) && p.awaddr < Pow2(40)
  }

  lemma PortAtFits(bits: seq<bool>, base: nat, w: nat)
    requires 0 < w <= 16 && base + 106 + 4 * w <= |bits|
    ensures PortFits(PortAt(bits, base, w))
  {
    hide Value, Pow2;
    PowMonotone(w, 16);
  }

  // ---------- from entries to output words ----------

  /** A software record keeps the low half of its entry, its mark included. */
  ghost predicate OutFits(r: Record) {
    if r.Access? then RecordFits(r) else r.word < Pow2(64) && r.word % 2 == 1
  }

  /** The 128-bit word of a record. */
  function OutBits(r: Record): seq<bool> {
    if r.Access? then RecordBits(r) else Bits(r.word, 64) + Bits(0, 64)
  }

  /** The bits of a word that no field covers are 0. */
  predicate PaddingZero(w: seq<bool>)
    requires |w| == 128
  {
    forall i | (if w[0] then 64 else 121) <= i < 128 :: !w[i]
  }

  /** What a word says: its lowest bit tells software records from others. */
  function OutOf(bits: seq<bool>): Record
    requires |bits| == 128
  {
    if Flag(bits, 0) then SoftwareRecord(Slice(bits, 63, 0)) else RecordOf(bits)
  }

  lemma FirstBit(v: nat, w: nat, rest: seq<bool>)
    requires w > 0
    ensures Flag(Bits(v, w) + rest, 0) <==> v % 2 == 1
  {
    var bits := Bits(v, w) + rest;
    assert bits[0..1] == [v % 2 == 1] && [v % 2 == 1][1..] == [];
  }

  lemma SoftwareRoundTrip(word: nat)
    requires word < Pow2(64) && word % 2 == 1
    ensures OutOf(OutBits(SoftwareRecord(word))) == SoftwareRecord(word)
  {
    hide Value, Bits, Pow2;
    var bits := Bits(word, 64) + Bits(0, 64);
    FirstBit(word, 64, Bits(0, 64));
    ValueOfBits(word, 64);
    assert bits[0..64] == Bits(word, 64);
  }

  // ---------- numbers and their bits ----------

  /** Numbers that are the same have the same bits, and zeros above the shorter one. */
  lemma {:induction false} SameBits(a: seq<bool>, b: seq<bool>)
    requires |b| <= |a| && Value(a) == Value(b)
    ensures a[..|b|] == b && forall i | |b| <= i < |a| :: !a[i]
    decreases |a|
  {
    if a != [] {
      assert Value(a) == (if a[0] then 1 else 0) + 2 * Value(a[1..]);
      if b == [] {
        assert Value(b) == 0;
        SameBits(a[1..], []);
        assert forall i | 1 <= i < |a| :: a[i] == a[1..][i - 1];
      } else {
        assert Value(b) == (if b[0] then 1 else 0) + 2 * Value(b[1..]);
        SameBits(a[1..], b[1..]);
        assert a == [a[0]] + a[1..] && b == [b[0]] + b[1..];
        assert forall i | 1 <= i < |a| :: a[i] == a[1..][i - 1];
      }
    }
  }

  lemma FlagIs(bits: seq<bool>, i: nat)
    requires i < |bits|
    ensures Flag(bits, i) == bits[i] && Slice(bits, i, i) == Bit(bits[i])
  {
    assert bits[i..i + 1] == [bits[i]] && [bits[i]][1..] == [];
    assert Value([bits[i]]) == Bit(bits[i]) + 2 * Value([]);
  }

  lemma NoBits(w: seq<bool>)
    requires Value(w) == 0
    ensures forall i | 0 <= i < |w| :: !w[i]
  {
    SameBits(w, []);
  }

  lemma {:induction false} ZeroBits(n: nat)
    ensures forall i | 0 <= i < n :: !Bits(0, n)[i]
  {
    if n > 0 {
      ZeroBits(n - 1);
    }
  }

  lemma RecordMark(r: Record)
    requires RecordFits(r)
    ensures |RecordBits(r)| == 128 && !Flag(RecordBits(r), 0)
    ensures Slice(RecordBits(r), 127, 121) == 0
  {
    hide Packed, FitAll, Pow2, Value;
    RecordFitsTable(r);
    RecordSize(r);
    RecordField(RecordBits(r), RecordFields(r), 0, 0, 0);
    RecordField(RecordBits(r), RecordFields(r), 14, 127, 121);
  }

  lemma TopZero(w: seq<bool>)
    requires |w| == 128 && Slice(w, 127, 121) == 0
    ensures forall i | 121 <= i < 128 :: !w[i]
  {
    hide Value;
    NoBits(w[121..128]);
    assert forall i | 121 <= i < 128 :: w[i] == w[121..128][i - 121];
  }

  /** Every output word says what record it is, of either kind. */
  lemma OutRoundTrip(r: Record)
    requires OutFits(r)
    ensures |OutBits(r)| == 128 && OutOf(OutBits(r)) == r && PaddingZero(OutBits(r))
  {
    hide RecordBits, RecordOf, Bits, Flag, Slice, Pow2;
    if r.Access? {
      RecordMark(r);
      RecordRoundTrip(r);
      FlagIs(OutBits(r), 0);
      TopZero(OutBits(r));
    } else {
      SoftwareRoundTrip(r.word);
      FlagIs(OutBits(r), 0);
      ZeroBits(64);
    }
  }

  lemma ChannelFits(slot: nat, p: Port)
    requires slot < 2 && PortFits(p)
    ensures RecordFits(WriteData(slot, p)) && RecordFits(ReadData(slot, p))
  {
    hide Pow2;
  }

  lemma StampedFits(records: seq<Record>, now: nat, loop: bool)
    requires now < 0x4000_0000 && forall r | r in records :: RecordFits(r)
    ensures forall r | r in Stamped(records, now, loop) :: RecordFits(r) && r.Access?
  {
    hide Pow2;
    Pow30(30);
    if records != [] {
      assert records[0] in records && forall r | r in records[1..] :: r in records;
    }
  }

  /** Every record of every entry fits its word. */
  lemma EntryFits(bits: seq<bool>, now: nat, r: Record)
    requires |bits| == 320 && now < 0x4000_0000 && r in Records(EventOf(bits), now)
    ensures OutFits(r)
  {
    hide PortAt, Slice, Pow2, Flag, Value, WriteData, ReadData, Writes, Reads, Stamped, PortFits, RecordFits;
    SoftwareFits(bits);
    PortAtFits(bits, 32, 16);
    PortAtFits(bits, 202, 3);
    var e := EventOf(bits);
    if e.Monitor? {
      var p0, p1 := e.port0, e.port1;
      ChannelFits(0, p0);
      ChannelFits(1, p1);
      StampedFits(Opt(Writes(p0), WriteData(0, p0)) + Opt(Reads(p0), ReadData(0, p0))
                  + Opt(Writes(p1), WriteData(1, p1)) + Opt(Reads(p1), ReadData(1, p1)), now, e.loop);
    }
  }

  lemma Pow30(n: nat)
    requires n == 30
    ensures Pow2(n) == 0x4000_0000
  {
    PowTable();
    PowAdd(15, 15);
  }

  lemma SoftwareFits(bits: seq<bool>)
    requires |bits| == 320
    ensures Slice(bits, 63, 0) < Pow2(64) && (Flag(bits, 0) ==> Slice(bits, 63, 0) % 2 == 1)
  {
    hide Value, Pow2, Flag;
    ValueFirst(bits, 0, 64);
  }

  predicate Entries(entries: seq<seq<bool>>) {
    forall e | e in entries :: |e| == 320
  }

  function Events(entries: seq<seq<bool>>): (events: seq<Event>)
    requires Entries(entries)
    ensures |events| == |entries|
  {
    seq(|entries|, i requires 0 <= i < |entries| => EventOf(entries[i]))
  }

  lemma EventsMore(entries: seq<seq<bool>>, k: nat)
    requires Entries(entries) && k < |entries|
    ensures Entries(entries[..k]) && Entries(entries[..k + 1]) && |entries[k]| == 320
    ensures Events(entries[..k + 1]) == Events(entries[..k]) + [EventOf(entries[k])]
  {
    hide EventOf;
    assert entries[k] in entries;
  }

  lemma {:induction false} AllFit(entries: seq<seq<bool>>, r: Record)
    requires Entries(entries) && r in AllRecords(Events(entries))
    ensures OutFits(r)
    decreases |entries|
  {
    hide Records, EventOf, OutFits;
    var n := |entries| - 1;
    if entries != [] {
      EventsMore(entries, n);
      assert entries[..n + 1] == entries && Events(entries)[..n] == Events(entries[..n]);
      assert TimeAfter(Events(entries)) < 0x4000_0000;
      if r in Records(EventOf(entries[n]), TimeAfter(Events(entries))) {
        EntryFits(entries[n], TimeAfter(Events(entries)), r);
      } else {
        AllFit(entries[..n], r);
      }
    }
  }

  predicate IsOutput(words: seq<seq<bool>>) {
    forall w | w in words :: |w| == 128
  }

  function Decoded(words: seq<seq<bool>>): (records: seq<Record>)
    requires IsOutput(words)
    ensures |records| == |words|
  {
    seq(|words|, i requires 0 <= i < |words| => OutOf(words[i]))
  }

  // ---------- the buffer between the stages ----------

  /** The 516 bits of a pack: four words, then their valid bits. */
  function PackBits(data: seq<seq<bool>>, valid: seq<bool>): seq<bool>
    requires |data| == 4 && |valid| == 4
  {
    data[0] + data[1] + data[2] + data[3] + valid
  }

  /** Taking a pack apart as `pack_packet_t` does inverts it. */
  lemma PackRoundTrip(data: seq<seq<bool>>, valid: seq<bool>)
    requires |data| == 4 && |valid| == 4 && forall d | d in data :: |d| == 128
    ensures var bits := PackBits(data, valid);
            && |bits| == 516 && bits[0..128] == data[0] && bits[128..256] == data[1] && bits[256..384] == data[2]
            && bits[384..512] == data[3] && [bits[512], bits[513], bits[514], bits[515]] == valid
  {
    assert data[0] in data && data[1] in data && data[2] in data && data[3] in data;
  }

  // ---------- the parser's view ----------

  /** The flags of a port as the parser tests them. */
  function FlagWord(p: Port): nat {
    Bit(p.wrAddr) + 2 * Bit(p.firstWr) + 4 * Bit(p.lastWr) + 8 * Bit(p.response) + 16 * Bit(p.rdAddr)
    + 32 * Bit(p.firstRd) + 64 * Bit(p.lastRd)
  }

  lemma {:induction false} ValueFirst(bits: seq<bool>, lo: nat, hi: nat)
    requires lo < hi <= |bits|
    ensures Value(bits[lo..hi]) == Bit(Flag(bits, lo)) + 2 * Value(bits[lo + 1..hi])
  {
    assert bits[lo..hi][1..] == bits[lo + 1..hi] && bits[lo..lo + 1] == [bits[lo]] && [bits[lo]][1..] == [];
    assert Value([bits[lo]]) == Bit(bits[lo]) + 2 * Value([]);
  }

  lemma FlagsAre(bits: seq<bool>, base: nat, w: nat)
    requires w > 0 && base + 106 + 4 * w <= |bits|
    ensures Value(bits[base + 3..base + 10]) == FlagWord(PortAt(bits, base, w))
  {
    hide Value, Flag, Slice, Pow2;
    var e := base + 10;
    ValueFirst(bits, base + 3, e);
    ValueFirst(bits, base + 4, e);
    ValueFirst(bits, base + 5, e);
    ValueFirst(bits, base + 6, e);
    ValueFirst(bits, base + 7, e);
    ValueFirst(bits, base + 8, e);
    ValueFirst(bits, base + 9, e);
    NoValue(bits[e..e]);
  }

  lemma NoValue(bits: seq<bool>)
    requires bits == []
    ensures Value(bits) == 0
  {
  }
}
