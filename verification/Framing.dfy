/** The frames of the Ethernet trace port, and what holds between two calls of its state machine. */
module Framing {

  const PACKET_SIZE: nat := 1488
  const IDLE_COUNT: nat := 16000
  const DEPTH: nat := 16384

  const SRC_MAC: seq<nat> := [0x00, 0x0A, 0x35, 0x03, 0x59, 0xF5]
  const DST_MAC: seq<nat> := [0xFF, 0xFF, 0xFF, 0xFF, 0xFF, 0xFF]

  datatype Mode = Idle | MacDst | MacSrc | Type | Payload | Zeros | Id

  /** The registers of the state machine and of the filler. */
  datatype Regs = Regs(mode: Mode, count: nat, length: nat, id: nat, data: nat, buffer: seq<nat>,
                       word: seq<nat>, wordValid: bool, wordByte: nat, bufferCount: nat, added: bool)

  /** A byte on the port with its start and end marks. */
  datatype Symbol = Symbol(data: nat, sop: bool, eop: bool)

  /**
   A frame is begun: what the counter said and what the buffer held, for how many calls there had been nothing new, and
   the length of the frame.
   */
  datatype Start = Start(counted: nat, buffered: nat, quiet: nat, length: nat)

  /** What has happened: trace bytes sent, the current frame, the finished frames, and why each frame was begun. */
  datatype History = History(sent: seq<nat>, start: nat, zeros: nat, current: seq<Symbol>, frames: seq<seq<Symbol>>,
                             starts: seq<Start>)

  /** A byte of the length field, high or low. */
  function LengthByte(length: nat, high: bool): nat {
    if high then length / 256 % 256 else length % 256
  }

  function Header(length: nat): seq<nat> {
    DST_MAC + SRC_MAC + [LengthByte(length, true), LengthByte(length, false)]
  }

  function ZeroBytes(n: nat): seq<nat> {
    seq(n, i => 0)
  }

  /** The bytes of a frame before its ID. */
  function Body(length: nat, trace: seq<nat>, zeros: nat): seq<nat> {
    Header(length) + trace + ZeroBytes(zeros)
  }

  /** Marked bytes: the first of them starts the frame. */
  function Marked(bytes: seq<nat>): seq<Symbol> {
    seq(|bytes|, i requires 0 <= i < |bytes| => Symbol(bytes[i], i == 0, false))
  }

  /** A whole frame: header, trace bytes in whole 16-byte words, padding, and the ID that ends it. */
  predicate IsFrame(f: seq<Symbol>, id: nat, length: nat, trace: seq<nat>, zeros: nat) {
    && 49 <= length <= PACKET_SIZE + 1 && (length - 1) % 16 == 0
    && |trace| + zeros == length - 1 && |trace| % 16 == 0 && 0 < |trace| && (zeros > 0 ==> length == 49)
    && f == Marked(Body(length, trace, zeros)) + [Symbol(id, false, true)]
  }

  /** Reading a frame back: addresses, length field, marks, trace words, padding and ID. */
  lemma FrameLayout(f: seq<Symbol>, id: nat, length: nat, trace: seq<nat>, zeros: nat)
    requires IsFrame(f, id, length, trace, zeros)
    ensures |f| == 14 + length && 256 * f[12].data + f[13].data == length
    ensures forall i | 0 <= i < |f| :: (f[i].sop <==> i == 0) && (f[i].eop <==> i == |f| - 1)
    ensures forall i | 0 <= i < 6 :: f[i].data == DST_MAC[i] && f[6 + i].data == SRC_MAC[i]
    ensures forall i | 0 <= i < length - 1 :: f[14 + i].data == if i < |trace| then trace[i] else 0
    ensures f[|f| - 1].data == id
  {
    var body := Body(length, trace, zeros);
    assert |body| == 14 + length - 1;
    forall i | 0 <= i < |body|
      ensures f[i] == Symbol(body[i], i == 0, false)
    {
      assert f[i] == Marked(body)[i];
    }
    assert body[12] == length / 256 % 256 && body[13] == length % 256;
    forall i | 0 <= i < length - 1
      ensures body[14 + i] == if i < |trace| then trace[i] else 0
    {
    }
  }

  /** Bytes of the current word that are still to be buffered. */
  function Unsent(r: Regs): seq<nat> {
    if r.wordValid && r.wordByte <= |r.word| then r.word[r.wordByte..] else []
  }

  /** Bytes of the current word that are buffered already. */
  function Partial(r: Regs): nat {
    if r.wordValid then r.wordByte else 0
  }

  function Pending(r: Regs): seq<nat> {
    if r.mode.Payload? then [r.data] else []
  }

  /** Number of bytes of the current frame that have been sent. */
  function Progress(r: Regs): int {
    match r.mode
    case Idle => 0
    case MacDst => 6 - r.count
    case MacSrc => 12 - r.count
    case Type => 14 - r.count
    case Payload => 14 + (r.length - 1 - r.count)
    case Zeros => 14 + (r.length - 1 - r.count)
    case Id => 14 + (r.length - 1)
  }

  predicate InHeader(m: Mode) {
    m.MacDst? || m.MacSrc? || m.Type?
  }

  /** How many bytes of a part of the header are left. */
  predicate InCount(r: Regs) {
    && (r.mode.MacDst? || r.mode.MacSrc? ==> 1 <= r.count <= 6)
    && (r.mode.Type? ==> 1 <= r.count <= 2)
  }

  predicate InRange(r: Regs) {
    && |r.word| == 16 && r.wordByte < 16 && |r.buffer| <= DEPTH && r.id < 256
    && (r.mode.Idle? ==> r.count <= IDLE_COUNT)
    && (!r.mode.Idle? ==> 49 <= r.length <= PACKET_SIZE + 1 && (r.length - 1) % 16 == 0)
    && InCount(r)
    && (r.mode.Payload? || r.mode.Zeros? ==> 1 <= r.count <= r.length - 1)
  }

  /** A partly buffered word leaves the buffer non-empty. */
  predicate NoGap(r: Regs) {
    Partial(r) > 0 ==> |r.buffer| > 0
  }

  /** The 14-bit occupancy counter. */
  predicate Counted(r: Regs) {
    r.bufferCount == |r.buffer| % DEPTH
  }

  /** A frame starts with enough bytes unless it is minimal. */
  predicate Supplied(r: Regs) {
    && (InHeader(r.mode) ==> |r.buffer| > 0 && (r.length == 49 || |r.buffer| >= r.length - 1))
    && (r.mode.Payload? ==> r.length == 49 || |r.buffer| >= r.count - 1)
    && (r.mode.Zeros? ==> r.length == 49)
  }

  /** Whole words: what has left the buffer together with what is in it ends inside the current word. */
  predicate Aligned(r: Regs, h: History) {
    && (|h.sent| + |Pending(r)| + |r.buffer|) % 16 == Partial(r)
    && h.start <= |h.sent| && h.start % 16 == 0
    && (!r.mode.Payload? ==> |h.sent| % 16 == 0)
    && (InHeader(r.mode) || r.mode.Idle? ==> h.start == |h.sent| && h.zeros == 0)
    && (r.mode.Payload? ==> h.zeros == 0)
    && (r.mode.Zeros? || r.mode.Id? ==> |h.sent| > h.start)
    && (r.mode.Id? && h.zeros > 0 ==> r.length == 49)
  }

  /** The current frame is what the registers say. */
  predicate Framed(r: Regs, h: History)
    requires h.start <= |h.sent|
  {
    if r.mode.Idle? then h.current == []
    else
      var body := Body(r.length, h.sent[h.start..], h.zeros);
      && 0 <= Progress(r) <= |body|
      && h.current == Marked(body[..Progress(r)])
      && (!InHeader(r.mode) ==> |body| == Progress(r))
  }

  /** Finished frames are whole, numbered consecutively, and carry the trace bytes `earlier` in order. */
  ghost predicate Finished(frames: seq<seq<Symbol>>, earlier: seq<nat>, id: nat, traces: seq<seq<nat>>) {
    && |traces| == |frames| && id == |frames| % 256
    && (forall i | 0 <= i < |frames| :: Complete(frames[i], i % 256, traces[i]))
    && Concat(traces) == earlier
  }

  ghost predicate Complete(f: seq<Symbol>, id: nat, trace: seq<nat>) {
    exists length, zeros :: IsFrame(f, id, length, trace, zeros)
  }

  // ---------- when a frame is begun ----------

  /** A call: whether it found the machine idle, and whether it put a byte into the buffer. */
  datatype Call = Call(idle: bool, buffered: bool)

  /** For how many calls in a row the machine has been idle, with no byte put into the buffer just before. */
  function Quiet(log: seq<Call>): nat {
    var n := |log| - 1;
    if n < 0 || !log[n].idle || (n > 0 && log[n - 1].buffered) then 0 else 1 + Quiet(log[..n])
  }

  /**
   A frame is begun with a packet of 1488 bytes, or with what whole words there are once nothing new has come in 16000
   idle calls; one for less than three words is padded to 49.
   */
  predicate StartOk(st: Start) {
    && st.counted == st.buffered % 16384
    && if st.counted >= 1488 then st.length == 1489
       else
         && st.buffered > 0 && st.quiet >= 16000
         && if st.counted < 48 then st.length == 49
            else st.length % 16 == 1 && st.length - 1 <= st.counted < st.length + 15
  }

  /** The trace bytes that a frame must carry: the whole words that were counted when it was begun. */
  function Due(st: Start): int {
    if st.counted < 48 then st.counted - st.counted % 16 else st.length - 1
  }

  /** Every frame was begun for a reason, and what it must carry has been sent or is in the buffer. */
  ghost predicate Begun(r: Regs, h: History) {
    && |h.starts| == |h.frames| + (if r.mode.Idle? then 0 else 1)
    && (forall i | 0 <= i < |h.starts| :: StartOk(h.starts[i]))
    && (!r.mode.Idle? ==>
          var st := h.starts[|h.frames|];
          && r.length == st.length
          && Due(st) <= |h.sent| - h.start + if InHeader(r.mode) || r.mode.Payload? then |Pending(r)| + |r.buffer|
                                             else 0)
  }

  /** Finished frames have the length they were begun with and carry what they must. */
  ghost predicate Delivered(h: History, traces: seq<seq<nat>>) {
    && |traces| == |h.frames| <= |h.starts|
    && forall i | 0 <= i < |h.frames| ::
         |h.frames[i]| == 14 + h.starts[i].length && Due(h.starts[i]) <= |traces[i]|
  }

  /** A finished frame: why and with what length it was begun, and that it carries at least what it must. */
  lemma FrameReason(r: Regs, h: History, traces: seq<seq<nat>>, i: nat)
    requires Consistent(r, h, traces) && i < |h.frames|
    ensures |traces| == |h.frames| <= |h.starts| && StartOk(h.starts[i]) && Due(h.starts[i]) <= |traces[i]|
    ensures var length := h.starts[i].length; IsFrame(h.frames[i], i % 256, length, traces[i], length - 1 - |traces[i]|)
  {
    assert Complete(h.frames[i], i % 256, traces[i]);
    var length, zeros :| IsFrame(h.frames[i], i % 256, length, traces[i], zeros);
    FrameLayout(h.frames[i], i % 256, length, traces[i], zeros);
  }

  /** Bytes that come into the buffer do not matter to what must be carried. */
  lemma BegunMore(r: Regs, h: History, r': Regs)
    requires Begun(r, h) && r'.mode == r.mode && r'.length == r.length && |r'.buffer| >= |r.buffer|
    ensures Begun(r', h)
  {
  }

  /** A byte goes from the buffer through the data register to the port. */
  lemma BegunData(r: Regs, h: History, r': Regs)
    requires Begun(r, h) && r.mode.Payload? && r'.length == r.length && h.start <= |h.sent|
    requires r'.mode.Payload? ==> |r'.buffer| == |r.buffer| - 1
    requires r'.mode.Zeros? ==> r.buffer == []
    requires r'.mode.Id? ==> |h.sent| + 1 - h.start == r.length - 1
    requires r'.mode.Payload? || r'.mode.Zeros? || r'.mode.Id?
    ensures Begun(r', SentData(h, r.data))
  {
    var st := h.starts[|h.frames|];
    assert StartOk(st);
  }

  /** How the counter counts down. */
  predicate CountsDown(r: Regs, log: seq<Call>) {
    && (r.mode.Idle? ==> r.count == if Quiet(log) < IDLE_COUNT then IDLE_COUNT - Quiet(log) else 0)
    && r.added == (log != [] && log[|log| - 1].buffered)
  }

  /** How the mode follows the one before, and when the data-ready signal is up. */
  predicate Turn(m: Mode, m': Mode, count': nat, ready: bool, ready': bool) {
    match m
    case Idle => ready' == ready && (m'.Idle? || (m'.MacDst? && count' == 6))
    case MacDst => ready' && (m'.MacDst? || m'.MacSrc?)
    case MacSrc => !ready' && (m'.MacSrc? || m'.Type?)
    case Type => ready' == ready && (m'.Type? || m'.Payload?)
    case Payload => ready' == ready && (m'.Payload? || m'.Zeros? || m'.Id?)
    case Zeros => ready' == ready && (m'.Zeros? || m'.Id?)
    case Id => ready' == ready && (m'.Id? || (m'.Idle? && count' == IDLE_COUNT))
  }

  /** Data are announced from the first destination byte on until the source address. */
  predicate Announced(m: Mode, count: nat, ready: bool) {
    (ready ==> m.MacDst? || m.MacSrc?) && (m.MacDst? && count < 6 ==> ready)
  }

  lemma TurnAnnounces(m: Mode, count: nat, ready: bool, m': Mode, count': nat, ready': bool)
    requires Announced(m, count, ready) && Turn(m, m', count', ready, ready')
    ensures Announced(m', count', ready')
  {
  }

  function CountedDown(r: Regs): nat {
    if r.added then IDLE_COUNT else if r.count == 0 then 0 else r.count - 1
  }

  /** What the state machine does about beginning a frame; `quiet` tells for how long there has been nothing new. */
  ghost predicate Decided(r: Regs, h: History, quiet: nat, r': Regs, h': History) {
    if r.mode.Idle? then
      && (r'.mode.Idle? <==> r.bufferCount < 1488 && (quiet < 16000 || r.buffer == []))
      && (r'.mode.Idle? ==> h' == h && r'.count == CountedDown(r))
      && (!r'.mode.Idle? ==> h' == BegunWith(r, h, quiet, r'.length))
    else h'.starts == h.starts && (r'.mode.Idle? ==> r'.count == IDLE_COUNT)
  }

  /**
   What a call does,
       told without the count: it buffers a byte exactly when there is one and room for it; an idle machine
   begins a frame exactly when a packet is counted, or nothing new has come for 16000 calls and there is something.
   */
  ghost predicate Told(r: Regs, h: History, log: seq<Call>, r': Regs, h': History, log': seq<Call>) {
    && log' == log + [Call(r.mode.Idle?, r'.added)]
    && (r'.added <==> r.wordValid && |r.buffer| < 16384)
    && EverBuffered(r', h') == EverBuffered(r, h) + (if r'.added then 1 else 0)
    && (r.mode.Idle? ==>
          (r'.mode.Idle? <==> r.bufferCount < 1488 && (Quiet(log) < 16000 || r.buffer == [])))
    && h'.starts == h.starts + if r.mode.Idle? && !r'.mode.Idle?
                               then [Start(r.bufferCount, |r.buffer|, Quiet(log), r'.length)] else []
  }

  /** The counter measures the quiet time. */
  lemma Tells(r: Regs, h: History, log: seq<Call>, r1: Regs, h1: History, r2: Regs)
    requires CountsDown(r, log) && Decided(r, h, Quiet(log), r1, h1)
    requires r2.mode == r1.mode && r2.count == r1.count && r2.length == r1.length
    requires EverBuffered(r1, h1) == EverBuffered(r, h) && r2.data == r1.data
    requires |r2.buffer| == |r1.buffer| + (if r2.added then 1 else 0)
    requires r2.added <==> r.wordValid && |r.buffer| < 16384
    ensures var log' := log + [Call(r.mode.Idle?, r2.added)]; Told(r, h, log, r2, h1, log') && CountsDown(r2, log')
  {
    var log' := log + [Call(r.mode.Idle?, r2.added)];
    assert log'[..|log|] == log;
    assert h.starts + [] == h.starts;
  }

  /** A machine with something in its buffer stays idle for no more than 16001 calls in which nothing comes in. */
  lemma {:induction false} NoLongWait(rs: seq<Regs>, hs: seq<History>, logs: seq<seq<Call>>, n: nat)
    requires |rs| == |hs| == |logs| && 0 < n <= |rs| && CountsDown(rs[0], logs[0])
    requires forall i | 0 <= i < |rs| - 1 :: Told(rs[i], hs[i], logs[i], rs[i + 1], hs[i + 1], logs[i + 1])
    requires forall i | 0 <= i < n :: rs[i].mode.Idle? && rs[i].buffer != [] && !rs[i].added
    ensures n <= 16001 && n - 1 <= Quiet(logs[n - 1])
    ensures logs[n - 1] != [] ==> !logs[n - 1][|logs[n - 1]| - 1].buffered
    decreases n
  {
    if n > 1 {
      NoLongWait(rs, hs, logs, n - 1);
      var log := logs[n - 2];
      assert Told(rs[n - 2], hs[n - 2], log, rs[n - 1], hs[n - 1], logs[n - 1]);
      assert logs[n - 1][..|log|] == log;
    }
  }

  /** All bytes that ever came into the buffer. */
  function EverBuffered(r: Regs, h: History): nat {
    |h.sent| + |Pending(r)| + |r.buffer|
  }

  predicate AllWords(input: seq<seq<nat>>) {
    forall w | w in input :: |w| == 16
  }

  function Concat(traces: seq<seq<nat>>): seq<nat> {
    if traces == [] then [] else Concat(traces[..|traces| - 1]) + traces[|traces| - 1]
  }

  /** What every part of a call keeps. */
  ghost predicate Core(r: Regs, h: History, traces: seq<seq<nat>>) {
    && InRange(r) && Supplied(r) && Aligned(r, h) && Framed(r, h)
    && Finished(h.frames, h.sent[..h.start], r.id, traces) && Begun(r, h) && Delivered(h, traces)
  }

  /** What holds between calls. */
  ghost predicate Consistent(r: Regs, h: History, traces: seq<seq<nat>>) {
    Core(r, h, traces) && NoGap(r) && Counted(r)
  }

  /** All trace bytes, in order: sent, pending, buffered, waiting in the word, still unread. */
  function Flow(r: Regs, h: History, input: seq<seq<nat>>): seq<nat> {
    h.sent + Pending(r) + r.buffer + Unsent(r) + Concat(input)
  }

  // ---------- one byte goes out ----------

  lemma MarkedNext(body: seq<nat>, n: nat)
    requires n < |body|
    ensures Marked(body[..n + 1]) == Marked(body[..n]) + [Symbol(body[n], n == 0, false)]
  {
    assert body[..n + 1] == body[..n] + [body[n]];
  }

  /** The byte that the header modes send. */
  function HeaderByte(r: Regs): nat
    requires InHeader(r.mode) && InCount(r)
  {
    match r.mode
    case MacDst => DST_MAC[6 - r.count]
    case MacSrc => SRC_MAC[6 - r.count]
    case Type => LengthByte(r.length, r.count == 2)
  }

  lemma HeaderByteIs(r: Regs, trace: seq<nat>, zeros: nat)
    requires InHeader(r.mode) && InCount(r)
    ensures 0 <= Progress(r) < 14 && Body(r.length, trace, zeros)[Progress(r)] == HeaderByte(r)
  {
    var b, n := Body(r.length, trace, zeros), Progress(r);
    assert b[n] == Header(r.length)[n];
  }

  /** A header byte goes out and the machine moves on within the header. */
  lemma HeaderSent(r: Regs, h: History, r': Regs, traces: seq<seq<nat>>)
    requires Core(r, h, traces) && InHeader(r.mode) && InHeader(r'.mode) && InCount(r')
             && Progress(r') == Progress(r) + 1
    requires r' == r.(mode := r'.mode, count := r'.count)
    ensures Core(r', h.(current := h.current + [Symbol(HeaderByte(r), Progress(r) == 0, false)]), traces)
  {
    var body := Body(r.length, h.sent[h.start..], h.zeros);
    HeaderByteIs(r, h.sent[h.start..], h.zeros);
    MarkedNext(body, Progress(r));
  }

  /** After the header the first trace byte leaves the buffer. */
  lemma HeaderDone(r: Regs, h: History, r': Regs, traces: seq<seq<nat>>)
    requires Core(r, h, traces) && r.mode.Type? && r.count == 1 && |r.buffer| > 0
    requires r' == r.(mode := Payload, count := r.length - 1, data := r.buffer[0], buffer := r.buffer[1..])
    ensures Core(r', h.(current := h.current + [Symbol(HeaderByte(r), false, false)]), traces)
    ensures h.sent + Pending(r') + r'.buffer == h.sent + Pending(r) + r.buffer
  {
    var body := Body(r.length, h.sent[h.start..], h.zeros);
    HeaderByteIs(r, h.sent[h.start..], h.zeros);
    MarkedNext(body, Progress(r));
    assert body == body[..14];
  }

  /** The body grows by the byte sent. */
  lemma BodyGrows(length: nat, trace: seq<nat>, zeros: nat, b: nat)
    ensures zeros == 0 ==> Body(length, trace + [b], 0) == Body(length, trace, 0) + [b]
    ensures Body(length, trace, zeros + 1) == Body(length, trace, zeros) + [0]
  {
    if zeros == 0 {
      assert ZeroBytes(0) == [];
    }
    assert ZeroBytes(zeros + 1) == ZeroBytes(zeros) + [0];
  }

  lemma MarkedGrows(body: seq<nat>, b: nat)
    requires |body| > 0
    ensures Marked(body + [b]) == Marked(body) + [Symbol(b, false, false)]
  {
  }

  /** The history after a trace byte has gone out. */
  function SentData(h: History, b: nat): History {
    h.(sent := h.sent + [b], current := h.current + [Symbol(b, false, false)])
  }

  function SentZero(h: History): History {
    h.(zeros := h.zeros + 1, current := h.current + [Symbol(0, false, false)])
  }

  lemma DataFramed(r: Regs, h: History)
    requires h.start <= |h.sent| && r.mode.Payload? && h.zeros == 0 && Framed(r, h)
    ensures var h' := SentData(h, r.data); var body := Body(r.length, h'.sent[h'.start..], 0);
            && h'.current == Marked(body) && |body| == Progress(r) + 1
  {
    var trace := h.sent[h.start..];
    var body := Body(r.length, trace, 0);
    assert (h.sent + [r.data])[h.start..] == trace + [r.data];
    BodyGrows(r.length, trace, 0, r.data);
    MarkedGrows(body, r.data);
    assert body[..|body|] == body;
  }

  /** A trace byte goes out: the next one is fetched, padding starts, or the ID follows. */
  lemma DataSent(r: Regs, h: History, r': Regs, traces: seq<seq<nat>>)
    requires Core(r, h, traces) && NoGap(r) && r.mode.Payload?
    requires if r.count == 1 then r' == r.(mode := Id)
             else if r.buffer == [] then r' == r.(mode := Zeros, count := r.count - 1)
             else r' == r.(count := r.count - 1, data := r.buffer[0], buffer := r.buffer[1..])
    ensures Core(r', SentData(h, r.data), traces)
    ensures SentData(h, r.data).sent + Pending(r') + r'.buffer == h.sent + Pending(r) + r.buffer
  {
    hide Finished, Body, Marked;
    DataFramed(r, h);
    var h' := SentData(h, r.data);
    var body := Body(r.length, h'.sent[h'.start..], 0);
    assert body[..|body|] == body;
    assert h'.sent[..h'.start] == h.sent[..h.start];
    PayloadCount(r, h);
    BegunData(r, h, r');
    hide Begun, Delivered;
    if r.count == 1 || r.buffer == [] {
      PayloadWords(r, h);
    }
  }

  lemma PayloadCount(r: Regs, h: History)
    requires h.start <= |h.sent| && Framed(r, h) && r.mode.Payload? && h.zeros == 0
    ensures |h.sent| - h.start == r.length - 1 - r.count
  {
  }

  /** When the buffer is empty or the frame is full, whole words have been sent. */
  lemma PayloadWords(r: Regs, h: History)
    requires InRange(r) && NoGap(r) && r.mode.Payload? && Aligned(r, h) && Framed(r, h)
             && (r.count == 1 || r.buffer == [])
    ensures (|h.sent| + 1) % 16 == 0
  {
    if r.buffer != [] {
      assert |h.sent| + 1 == h.start + (r.length - 1);
      WordsSum(h.start, r.length - 1);
    }
  }

  lemma WordsSum(n: nat, m: nat)
    requires n % 16 == 0 && m % 16 == 0
    ensures (n + m) % 16 == 0
  {
  }

  lemma ZeroSent(r: Regs, h: History, r': Regs, traces: seq<seq<nat>>)
    requires Core(r, h, traces) && r.mode.Zeros?
    requires r' == if r.count == 1 then r.(mode := Id) else r.(count := r.count - 1)
    ensures Core(r', SentZero(h), traces)
  {
    var trace := h.sent[h.start..];
    var body := Body(r.length, trace, h.zeros);
    BodyGrows(r.length, trace, h.zeros, 0);
    MarkedGrows(body, 0);
    assert body[..|body|] == body;
    var body' := Body(r.length, trace, h.zeros + 1);
    assert body'[..|body'|] == body';
  }

  function Closed(r: Regs, h: History): History {
    h.(start := |h.sent|, zeros := 0, current := [], frames := h.frames + [h.current + [Symbol(r.id, false, true)]])
  }

  lemma FinishedMore(frames: seq<seq<Symbol>>, earlier: seq<nat>, id: nat, traces: seq<seq<nat>>, f: seq<Symbol>,
                     trace: seq<nat>)
    requires Finished(frames, earlier, id, traces) && Complete(f, id, trace)
    ensures Finished(frames + [f], earlier + trace, (id + 1) % 256, traces + [trace])
  {
    hide Complete;
    assert (traces + [trace])[..|traces|] == traces;
    NextId(|frames|);
  }

  lemma NextId(n: nat)
    ensures (n % 256 + 1) % 256 == (n + 1) % 256
  {
  }

  lemma FrameIs(r: Regs, h: History)
    requires InRange(r) && Aligned(r, h) && Framed(r, h) && r.mode.Id?
    ensures Complete(h.current + [Symbol(r.id, false, true)], r.id, h.sent[h.start..])
  {
    var trace := h.sent[h.start..];
    var body := Body(r.length, trace, h.zeros);
    WordsBetween(|h.sent|, h.start);
    assert body[..|body|] == body && |trace| + h.zeros == r.length - 1;
    hide Body, Marked;
    assert IsFrame(h.current + [Symbol(r.id, false, true)], r.id, r.length, trace, h.zeros);
  }

  lemma WordsBetween(n: nat, m: nat)
    requires n % 16 == 0 && m % 16 == 0 && m <= n
    ensures (n - m) % 16 == 0
  {
  }

  /** The ID completes a frame. */
  lemma FrameDone(r: Regs, h: History, r': Regs, traces: seq<seq<nat>>)
    requires Core(r, h, traces) && r.mode.Id? && r' == r.(mode := Idle, count := IDLE_COUNT, id := (r.id + 1) % 256)
    ensures Core(r', Closed(r, h), traces + [h.sent[h.start..]])
  {
    hide Finished, Complete;
    FrameIs(r, h);
    var trace := h.sent[h.start..];
    FinishedMore(h.frames, h.sent[..h.start], r.id, traces, h.current + [Symbol(r.id, false, true)], trace);
    assert h.sent[..h.start] + trace == h.sent[..|h.sent|];
    hide Framed;
  }

  // ---------- starting a frame, and filling the buffer ----------

  /** Length of a frame that is sent on a timeout: whole words, or the least that Ethernet allows. */
  function TimeoutLength(bufferCount: nat): nat {
    var whole := bufferCount - bufferCount % 16;
    if whole < 48 then 49 else whole + 1
  }

  /** The history after a frame has been begun. */
  function BegunWith(r: Regs, h: History, quiet: nat, length: nat): History {
    h.(starts := h.starts + [Start(r.bufferCount, |r.buffer|, quiet, length)])
  }

  lemma FrameStarts(r: Regs, h: History, quiet: nat, r': Regs, traces: seq<seq<nat>>)
    requires Core(r, h, traces) && Counted(r) && r.mode.Idle?
    requires r' == r.(mode := MacDst, count := 6, length := r'.length)
    requires if r.bufferCount >= PACKET_SIZE then r'.length == PACKET_SIZE + 1
             else r.buffer != [] && r'.length == TimeoutLength(r.bufferCount) && quiet >= IDLE_COUNT
    ensures Core(r', BegunWith(r, h, quiet, r'.length), traces)
  {
    WholeWords(r.bufferCount);
    BegunNow(r, h, quiet, r', traces);
    hide Finished, Begun, Delivered, TimeoutLength;
    var body := Body(r'.length, h.sent[h.start..], h.zeros);
    assert body[..0] == [];
  }

  lemma BegunNow(r: Regs, h: History, quiet: nat, r': Regs, traces: seq<seq<nat>>)
    requires Begun(r, h) && Delivered(h, traces) && Counted(r) && r.mode.Idle? && r'.mode.MacDst? && h.start <= |h.sent|
    requires r'.buffer == r.buffer
    requires if r.bufferCount >= PACKET_SIZE then r'.length == PACKET_SIZE + 1
             else r.buffer != [] && r'.length == TimeoutLength(r.bufferCount) && quiet >= IDLE_COUNT
    ensures Begun(r', BegunWith(r, h, quiet, r'.length)) && Delivered(BegunWith(r, h, quiet, r'.length), traces)
  {
    var st := Start(r.bufferCount, |r.buffer|, quiet, r'.length);
    WholeWords(r.bufferCount);
    assert StartOk(st) && Due(st) <= |r.buffer|;
    hide StartOk, Due;
  }

  lemma WholeWords(n: nat)
    ensures (n - n % 16) % 16 == 0 && (TimeoutLength(n) - 1) % 16 == 0 && TimeoutLength(n) % 16 == 1
  {
  }

  lemma StillIdle(r: Regs, h: History, r': Regs, traces: seq<seq<nat>>)
    requires Core(r, h, traces) && r.mode.Idle? && r'.count <= IDLE_COUNT && r' == r.(count := r'.count)
    ensures Core(r', h, traces)
  {
    hide Finished;
  }

  /** The filler moves one byte of the current word into the buffer. */
  function Filled(r: Regs): Regs
    requires |r.word| == 16 && r.wordByte < 16
  {
    var r1 := r.(buffer := r.buffer + [r.word[r.wordByte]], added := true);
    if r.wordByte == 15 then r1.(wordValid := false) else r1.(wordByte := r.wordByte + 1)
  }

  lemma ByteBuffered(r: Regs, h: History, traces: seq<seq<nat>>)
    requires Core(r, h, traces) && r.wordValid && |r.buffer| < DEPTH
    ensures Core(Filled(r), h, traces) && NoGap(Filled(r))
    ensures Filled(r).buffer + Unsent(Filled(r)) == r.buffer + Unsent(r)
  {
    var r' := Filled(r);
    BegunMore(r, h, r');
    FramedSame(r, r', h);
    FilledAligned(r, h);
    hide Finished, Framed, Begun, Delivered, Aligned, Unsent;
  }

  lemma FilledAligned(r: Regs, h: History)
    requires r.wordValid && |r.word| == 16 && r.wordByte < 16 && Aligned(r, h)
    ensures Aligned(Filled(r), h) && Filled(r).buffer + Unsent(Filled(r)) == r.buffer + Unsent(r)
  {
    assert r.word[r.wordByte..] == [r.word[r.wordByte]] + r.word[r.wordByte + 1..];
    var r', n := Filled(r), |h.sent| + |Pending(r)| + |r.buffer|;
    NextByte(n, r.wordByte);
    assert Pending(r') == Pending(r);
    hide Pending;
    assert |h.sent| + |Pending(r')| + |r'.buffer| == n + 1;
  }

  lemma NextByte(n: nat, k: nat)
    requires n % 16 == k
    ensures (n + 1) % 16 == if k == 15 then 0 else k + 1
  {
  }

  /** The frame does not depend on the filler. */
  lemma FramedSame(r: Regs, r': Regs, h: History)
    requires h.start <= |h.sent| && Framed(r, h) && r'.mode == r.mode && r'.count == r.count && r'.length == r.length
    ensures Framed(r', h)
  {
  }

  lemma WordTaken(r: Regs, h: History, r': Regs, traces: seq<seq<nat>>)
    requires Core(r, h, traces) && NoGap(r) && !r.wordValid && |r'.word| == 16
    requires r' == r.(word := r'.word, wordValid := true, wordByte := 0)
    ensures Core(r', h, traces) && NoGap(r') && Unsent(r') == r'.word
  {
    hide Finished, Framed;
    FramedSame(r, r', h);
  }

  lemma RegsSame(r: Regs, h: History, r': Regs, traces: seq<seq<nat>>)
    requires Core(r, h, traces) && r' == r.(bufferCount := r'.bufferCount, added := r'.added)
    ensures Core(r', h, traces) && (NoGap(r) ==> NoGap(r'))
  {
    hide Finished, Framed;
    FramedSame(r, r', h);
  }

  lemma {:induction false} ConcatFirst(first: seq<nat>, rest: seq<seq<nat>>)
    ensures Concat([first] + rest) == first + Concat(rest)
    decreases rest
  {
    if rest == [] {
      assert ([first] + rest)[..0] == [] && [first] + rest == [first];
    } else {
      var n := |rest| - 1;
      assert ([first] + rest)[..n + 1] == [first] + rest[..n];
      ConcatFirst(first, rest[..n]);
    }
  }

  /** All symbols so far: the finished frames and the current one. */
  function Symbols(h: History): seq<Symbol> {
    Joined(h.frames) + h.current
  }

  function Joined(frames: seq<seq<Symbol>>): seq<Symbol> {
    if frames == [] then [] else Joined(frames[..|frames| - 1]) + frames[|frames| - 1]
  }

  lemma ClosedSymbols(r: Regs, h: History)
    ensures Symbols(Closed(r, h)) == Symbols(h) + [Symbol(r.id, false, true)]
  {
    var f := h.current + [Symbol(r.id, false, true)];
    assert (h.frames + [f])[..|h.frames|] == h.frames;
    assert Joined(h.frames + [f]) == Joined(h.frames) + f;
  }

  lemma FlowArrives(r: Regs, h: History, input: seq<seq<nat>>, w: seq<nat>)
    ensures Flow(r, h, input + [w]) == Flow(r, h, input) + w
  {
    assert (input + [w])[..|input|] == input;
  }

  lemma FlowTakes(r: Regs, h: History, input: seq<seq<nat>>, r': Regs)
    requires input != [] && !r.wordValid && r'.mode == r.mode && r'.data == r.data && r'.buffer == r.buffer
    requires Unsent(r') == input[0]
    ensures Flow(r', h, input[1..]) == Flow(r, h, input)
  {
    assert [input[0]] + input[1..] == input;
    ConcatFirst(input[0], input[1..]);
  }

  /** The history after a header byte has gone out. */
  function Sent(h: History, b: Symbol): (h': History)
    ensures h'.sent == h.sent && h'.starts == h.starts
  {
    h.(current := h.current + [b])
  }

  lemma TypeGoes(r: Regs, h: History, r': Regs, traces: seq<seq<nat>>)
    requires Core(r, h, traces) && r.mode.Type? && r.count == 1 && |r.buffer| > 0
    requires r' == r.(mode := Payload, count := r.length - 1, data := r.buffer[0], buffer := r.buffer[1..])
    ensures var b := Symbol(LengthByte(r.length, false), false, false);
            Core(r', Sent(h, b), traces) && Symbols(Sent(h, b)) == Symbols(h) + [b]
    ensures h.sent + Pending(r') + r'.buffer == h.sent + Pending(r) + r.buffer
  {
    hide Core, Symbols;
    var b := Symbol(LengthByte(r.length, false), false, false);
    HeaderDone(r, h, r', traces);
    SymbolsGrow(h, Sent(h, b), b);
  }

  lemma IdGoes(r: Regs, h: History, r': Regs, traces: seq<seq<nat>>)
    requires Core(r, h, traces) && r.mode.Id? && h.start <= |h.sent|
    requires r' == r.(mode := Idle, count := IDLE_COUNT, id := (r.id + 1) % 256)
    ensures Core(r', Closed(r, h), traces + [h.sent[h.start..]])
    ensures Closed(r, h).sent == h.sent && Closed(r, h).starts == h.starts
    ensures Symbols(Closed(r, h)) == Symbols(h) + [Symbol(r.id, false, true)]
  {
    hide Core, Symbols;
    FrameDone(r, h, r', traces);
    ClosedSymbols(r, h);
  }

  lemma DataGoes(r: Regs, h: History, r': Regs, traces: seq<seq<nat>>)
    requires Core(r, h, traces) && NoGap(r) && r.mode.Payload?
    requires if r.count == 1 then r' == r.(mode := Id)
             else if r.buffer == [] then r' == r.(mode := Zeros, count := r.count - 1)
             else r' == r.(count := r.count - 1, data := r.buffer[0], buffer := r.buffer[1..])
    ensures Core(r', SentData(h, r.data), traces) && SentData(h, r.data).starts == h.starts
    ensures SentData(h, r.data).sent + Pending(r') + r'.buffer == h.sent + Pending(r) + r.buffer
    ensures Symbols(SentData(h, r.data)) == Symbols(h) + [Symbol(r.data, false, false)]
  {
    hide Core, Symbols, NoGap, Pending;
    DataSent(r, h, r', traces);
    SymbolsGrow(h, SentData(h, r.data), Symbol(r.data, false, false));
  }

  lemma HeaderGoes(r: Regs, h: History, r': Regs, traces: seq<seq<nat>>, b: Symbol)
    requires Core(r, h, traces) && InHeader(r.mode) && InHeader(r'.mode) && InCount(r')
    requires if r.count == 1 then (r.mode.MacDst? && r'.mode.MacSrc? && r'.count == 6)
                                  || (r.mode.MacSrc? && r'.mode.Type? && r'.count == 2)
             else r'.mode == r.mode && r'.count == r.count - 1
    requires r' == r.(mode := r'.mode, count := r'.count) && InCount(r)
             && b == Symbol(HeaderByte(r), r.mode.MacDst? && r.count == 6, false)
    ensures Core(r', Sent(h, b), traces) && Symbols(Sent(h, b)) == Symbols(h) + [b]
  {
    hide Core, Symbols;
    HeaderSent(r, h, r', traces);
    SymbolsGrow(h, Sent(h, b), b);
  }

  lemma SymbolsGrow(h: History, h': History, x: Symbol)
    requires h'.frames == h.frames && h'.current == h.current + [x]
    ensures Symbols(h') == Symbols(h) + [x]
  {
  }
}
