/** The one-call-per-cycle state machine that turns 128-bit trace words into Ethernet frames. */
module EthernetFramer {
  import opened Framing

  class Framer {
    var mode: Mode
    var count: nat
    var length: nat
    var id: nat
    var data: nat
    var buffer: seq<nat>
    var word: seq<nat>
    var wordValid: bool
    var wordByte: nat
    var bufferCount: nat
    var added: bool
    var dataReady: bool
    var txValid: bool
    var sop: bool
    var eop: bool
    var txData: nat
    /** The words waiting on the input stream. */
    var input: seq<seq<nat>>
    ghost var history: History
    ghost var traces: seq<seq<nat>>
    /** All trace bytes that ever arrived, and all symbols that ever left. */
    ghost var fed: seq<nat>
    ghost var port: seq<Symbol>
    ghost var log: seq<Call>

    ghost function Registers(): Regs
      reads this
    {
      Regs(mode, count, length, id, data, buffer, word, wordValid, wordByte, bufferCount, added)
    }

    ghost predicate Valid()
      reads this
    {
      && Consistent(Registers(), history, traces)
      && AllWords(input)
      && Flow(Registers(), history, input) == fed
      && Symbols(history) == port + (if txValid then [Symbol(txData, sop, eop)] else [])
      && CountsDown(Registers(), log) && Announced(mode, count, dataReady)
    }

    constructor ()
      ensures Valid() && fed == [] && port == [] && log == []
    {
      mode, count, length, id := Idle, IDLE_COUNT, 0, 0;
      data, buffer, bufferCount, added := 0, [], 0, false;
      word, wordValid, wordByte := seq(16, i => 0), false, 0;
      dataReady, txValid, sop, eop, txData := false, false, false, false, 0;
      input, traces, fed, port, log := [], [], [], [], [];
      history := History([], 0, 0, [], [], []);
    }

    /** A trace word arrives on the input stream. */
    method Arrive(w: seq<nat>)
      requires Valid() && |w| == 16
      modifies this`input, this`fed
      ensures Valid() && fed == old(fed) + w && input == old(input) + [w]
    {
      hide Consistent, Flow, Symbols;
      FlowArrives(Registers(), history, input, w);
      input := input + [w];
      fed := fed + w;
    }

    /** `IDLE`: wait for a packet of data, or for a timeout with some data. */
    method WaitForData(packet: bool, empty: bool, ghost quiet: nat)
      requires Core(Registers(), history, traces) && Counted(Registers()) && mode.Idle?
      requires packet == (bufferCount >= PACKET_SIZE) && empty == (buffer == [])
               && (count == 0 <==> quiet >= IDLE_COUNT)
      modifies this`mode, this`count, this`length, this`history
      ensures Core(Registers(), history, traces)
      ensures Decided(old(Registers()), old(history), quiet, Registers(), history)
      ensures Turn(Idle, mode, count, dataReady, dataReady) && history.sent == old(history.sent)
      ensures Symbols(history) == old(Symbols(history))
    {
      ghost var r := Registers();
      hide Core, Counted;
      if packet {
        length := PACKET_SIZE + 1;
        count := 6;
        mode := MacDst;
        FrameStarts(r, history, quiet, Registers(), traces);
        history := BegunWith(r, history, quiet, length);
      } else if count == 0 && !empty {
        var whole := bufferCount - bufferCount % 16;
        length := if whole < 48 then 49 else whole + 1;
        count := 6;
        mode := MacDst;
        FrameStarts(r, history, quiet, Registers(), traces);
        history := BegunWith(r, history, quiet, length);
      } else {
        IdleCount(r, history, traces);
        if added {
          count := IDLE_COUNT;
        } else if count != 0 {
          count := count - 1;
        }
        StillIdle(r, history, Registers(), traces);
      }
    }

    /** `MAC_DST`: start of packet and the broadcast address. */
    method SendDst(rd: bool)
      requires Core(Registers(), history, traces) && mode.MacDst? && !sop && !eop
      modifies this`mode, this`count, this`txData, this`sop, this`dataReady, this`history
      ensures Core(Registers(), history, traces) && !mode.Payload? && history.sent == old(history.sent)
      ensures history.starts == old(history.starts) && Turn(old(mode), mode, count, old(dataReady), dataReady)
      ensures Symbols(history) == old(Symbols(history)) + if rd then [Symbol(txData, sop, eop)] else []
    {
      hide Core, Symbols;
      HeaderOpen(Registers(), history, traces);
      dataReady := true;
      txData := DST_MAC[6 - count];
      sop := count == 6;
      if rd {
        AddressByte(MacSrc, 6, Symbol(txData, sop, eop));
      }
    }

    /** `MAC_SRC`: the source address. */
    method SendSrc(rd: bool)
      requires Core(Registers(), history, traces) && mode.MacSrc? && !sop && !eop
      modifies this`mode, this`count, this`txData, this`dataReady, this`history
      ensures Core(Registers(), history, traces) && !mode.Payload? && history.sent == old(history.sent)
      ensures history.starts == old(history.starts) && Turn(old(mode), mode, count, old(dataReady), dataReady)
      ensures Symbols(history) == old(Symbols(history)) + if rd then [Symbol(txData, sop, eop)] else []
    {
      hide Core, Symbols;
      HeaderOpen(Registers(), history, traces);
      dataReady := false;
      txData := SRC_MAC[6 - count];
      if rd {
        AddressByte(Type, 2, Symbol(txData, sop, eop));
      }
    }

    /** A byte of an address has been taken; behind the last one comes the part `next` of `n` bytes. */
    method AddressByte(next: Mode, n: nat, ghost b: Symbol)
      requires Core(Registers(), history, traces) && InHeader(mode) && InCount(Registers())
      requires (mode.MacDst? && next.MacSrc? && n == 6) || (mode.MacSrc? && next.Type? && n == 2)
      requires b == Symbol(HeaderByte(Registers()), mode.MacDst? && count == 6, false)
      modifies this`mode, this`count, this`history
      ensures Core(Registers(), history, traces) && mode == if old(count) == 1 then next else old(mode)
      ensures history.sent == old(history.sent) && history.starts == old(history.starts)
      ensures Symbols(history) == old(Symbols(history)) + [b]
    {
      ghost var r, h := Registers(), history;
      hide Core, Symbols, Sent, Progress;
      if count == 1 {
        mode := next;
        count := n;
      } else {
        count := count - 1;
      }
      history := Sent(h, b);
      HeaderGoes(r, h, Registers(), traces, b);
    }

    /** `TYPE`: the length field; behind it the first trace byte is fetched. */
    method SendType(rd: bool) returns (removed: bool)
      requires Core(Registers(), history, traces) && mode.Type? && !sop && !eop
      modifies this`mode, this`count, this`data, this`buffer, this`txData, this`history
      ensures Core(Registers(), history, traces)
      ensures |buffer| == |old(buffer)| - if removed then 1 else 0
      ensures history.sent + Pending(Registers()) + buffer == old(history.sent + buffer)
      ensures history.starts == old(history.starts) && Turn(old(mode), mode, count, dataReady, dataReady)
      ensures Symbols(history) == old(Symbols(history)) + if rd then [Symbol(txData, sop, eop)] else []
    {
      hide Core, Symbols, LengthByte;
      removed := false;
      txData := LengthByte(length, count == 2);
      if rd {
        removed := EndHeader(Symbol(txData, sop, eop));
      }
    }

    /** A byte of the length field has been taken; was it the last one? */
    method EndHeader(ghost b: Symbol) returns (removed: bool)
      requires Core(Registers(), history, traces) && mode.Type?
               && b == Symbol(LengthByte(length, count == 2), false, false)
      modifies this`mode, this`count, this`data, this`buffer, this`history
      ensures Core(Registers(), history, traces) && (mode.Type? || mode.Payload?)
      ensures |buffer| == |old(buffer)| - if removed then 1 else 0
      ensures history.sent + Pending(Registers()) + buffer == old(history.sent + buffer)
      ensures history.starts == old(history.starts) && Symbols(history) == old(Symbols(history)) + [b]
    {
      ghost var r, h := Registers(), history;
      hide Core, Symbols, LengthByte, Sent, Progress;
      HeaderOpen(r, h, traces);
      history := Sent(h, b);
      removed := count == 1;
      if count == 1 {
        data := buffer[0];
        buffer := buffer[1..];
        count := length - 1;
        mode := Payload;
        TypeGoes(r, h, Registers(), traces);
      } else {
        count := count - 1;
        HeaderGoes(r, h, Registers(), traces, b);
      }
    }

    /** `PAYLOAD`: trace bytes as long as there are any. */
    method SendPayload(rd: bool, empty: bool) returns (removed: bool)
      requires Core(Registers(), history, traces) && NoGap(Registers()) && mode.Payload? && !sop && !eop
               && empty == (buffer == [])
      modifies this`mode, this`count, this`data, this`buffer, this`txData, this`history
      ensures Core(Registers(), history, traces)
      ensures history.starts == old(history.starts) && Turn(old(mode), mode, count, dataReady, dataReady)
      ensures |buffer| == |old(buffer)| - if removed then 1 else 0
      ensures history.sent + Pending(Registers()) + buffer == old(history.sent + Pending(Registers()) + buffer)
      ensures Symbols(history) == old(Symbols(history)) + if rd then [Symbol(txData, sop, eop)] else []
    {
      hide Core, Symbols, NoGap, Pending;
      removed := false;
      txData := data;
      if rd {
        removed := AfterData(empty);
      }
    }

    /** A trace byte has been taken. */
    method AfterData(empty: bool) returns (removed: bool)
      requires Core(Registers(), history, traces) && NoGap(Registers()) && mode.Payload? && empty == (buffer == [])
      modifies this`mode, this`count, this`data, this`buffer, this`history
      ensures Core(Registers(), history, traces) && (mode.Payload? || mode.Zeros? || mode.Id?)
      ensures history.starts == old(history.starts)
      ensures |buffer| == |old(buffer)| - if removed then 1 else 0
      ensures history.sent + Pending(Registers()) + buffer == old(history.sent + Pending(Registers()) + buffer)
      ensures Symbols(history) == old(Symbols(history) + [Symbol(data, false, false)])
    {
      ghost var r, h := Registers(), history;
      hide Core, Symbols, NoGap, SentData, InRange, Pending;
      CountOpen(r, h, traces);
      removed := false;
      history := SentData(h, data);
      if count == 1 {
        mode := Id;
      } else {
        count := count - 1;
        if empty {
          mode := Zeros;
        } else {
          data := buffer[0];
          buffer := buffer[1..];
          removed := true;
        }
      }
      DataGoes(r, h, Registers(), traces);
    }

    /** `ZEROS`: padding. */
    method SendZeros(rd: bool)
      requires Core(Registers(), history, traces) && mode.Zeros? && !sop && !eop
      modifies this`mode, this`count, this`txData, this`history
      ensures Core(Registers(), history, traces) && !mode.Payload? && history.sent == old(history.sent)
      ensures history.starts == old(history.starts) && Turn(old(mode), mode, count, old(dataReady), dataReady)
      ensures Symbols(history) == old(Symbols(history)) + if rd then [Symbol(txData, sop, eop)] else []
    {
      ghost var r, h := Registers(), history;
      hide Core, Symbols;
      BodyOpen(r, h, traces);
      txData := 0;
      if rd {
        history := SentZero(history);
        SymbolsGrow(h, history, Symbol(txData, sop, eop));
        if count == 1 {
          mode := Id;
        } else {
          count := count - 1;
        }
        ZeroSent(r, h, Registers(), traces);
      }
    }

    /** `ID`: the packet ID ends the frame. */
    method SendId(rd: bool)
      requires Core(Registers(), history, traces) && mode.Id? && !sop && !eop
      modifies this`mode, this`count, this`id, this`txData, this`eop, this`history, this`traces
      ensures Core(Registers(), history, traces) && !mode.Payload? && history.sent == old(history.sent)
      ensures history.starts == old(history.starts) && Turn(old(mode), mode, count, old(dataReady), dataReady)
      ensures Symbols(history) == old(Symbols(history)) + if rd then [Symbol(txData, sop, eop)] else []
    {
      ghost var r, h := Registers(), history;
      hide Core, Symbols;
      txData := id;
      eop := true;
      if rd {
        EndFrame();
      }
    }

    /** The frame is over when its ID has been taken. */
    method EndFrame()
      requires Core(Registers(), history, traces) && mode.Id?
      modifies this`mode, this`count, this`id, this`history, this`traces
      ensures Core(Registers(), history, traces) && mode.Idle? && count == IDLE_COUNT
      ensures history.sent == old(history.sent) && history.starts == old(history.starts)
      ensures Symbols(history) == old(Symbols(history) + [Symbol(id, false, true)])
    {
      ghost var r, h := Registers(), history;
      hide Core, Symbols, Closed, InRange;
      BodyOpen(r, h, traces);
      count := IDLE_COUNT;
      mode := Idle;
      id := (id + 1) % 256;
      IdGoes(r, h, Registers(), traces);
      traces := traces + [h.sent[h.start..]];
      history := Closed(r, h);
    }

    /** The state machine of one cycle. */
    method Advance(rd: bool, packet: bool, empty: bool, ghost quiet: nat) returns (removed: bool)
      requires Core(Registers(), history, traces) && NoGap(Registers()) && Counted(Registers()) && (mode.Idle? ==> !rd)
               && !sop && !eop
      requires packet == (bufferCount >= PACKET_SIZE) && empty == (buffer == [])
               && (mode.Idle? ==> (count == 0 <==> quiet >= IDLE_COUNT))
      modifies this`mode, this`count, this`length, this`id, this`data, this`buffer, this`txData, this`sop, this`eop,
               this`dataReady, this`history, this`traces
      ensures Core(Registers(), history, traces)
      ensures |buffer| == |old(buffer)| - if removed then 1 else 0
      ensures history.sent + Pending(Registers()) + buffer == old(history.sent + Pending(Registers()) + buffer)
      ensures Symbols(history) == old(Symbols(history)) + if rd then [Symbol(txData, sop, eop)] else []
      ensures Decided(old(Registers()), old(history), quiet, Registers(), history)
      ensures Turn(old(mode), mode, count, old(dataReady), dataReady)
    {
      hide Core, NoGap, Counted, Symbols;
      removed := false;
      match mode {
        case Idle => WaitForData(packet, empty, quiet);
        case MacDst => SendDst(rd);
        case MacSrc => SendSrc(rd);
        case Type => removed := SendType(rd);
        case Payload => removed := SendPayload(rd, empty);
        case Zeros => SendZeros(rd);
        case Id => SendId(rd);
      }
    }

    /** The filler: one byte of the current word into the buffer. */
    method FillByte(full: bool)
      requires Core(Registers(), history, traces) && (full ==> |buffer| > 0) && (!full ==> |buffer| < DEPTH)
      modifies this`buffer, this`added, this`wordValid, this`wordByte
      ensures Core(Registers(), history, traces) && NoGap(Registers())
      ensures |buffer| == |old(buffer)| + (if added then 1 else 0) && (added <==> old(wordValid) && !full)
      ensures buffer + Unsent(Registers()) == old(buffer + Unsent(Registers()))
    {
      ghost var r := Registers();
      hide Core, NoGap, Unsent;
      BodyOpen(r, history, traces);
      added := false;
      RegsSame(r, history, Registers(), traces);
      UnsentSame(r, Registers());
      ghost var r1 := Registers();
      if wordValid && !full {
        buffer := buffer + [word[wordByte]];
        added := true;
        if wordByte == 15 {
          wordValid := false;
        } else {
          wordByte := wordByte + 1;
        }
        ByteBuffered(r1, history, traces);
      } else {
        GapFree(r1, full);
      }
    }

    /** The next word is read when the last one is used up. */
    method TakeWord()
      requires Core(Registers(), history, traces) && NoGap(Registers()) && AllWords(input)
      modifies this`word, this`wordValid, this`wordByte, this`input
      ensures Core(Registers(), history, traces) && NoGap(Registers()) && AllWords(input)
      ensures Flow(Registers(), history, input) == old(Flow(Registers(), history, input))
    {
      ghost var r := Registers();
      hide Core, NoGap, Flow, Unsent;
      if input != [] && !wordValid {
        word := input[0];
        wordValid := true;
        wordByte := 0;
        WordTaken(r, history, Registers(), traces);
        FlowTakes(r, history, input, Registers());
        input := input[1..];
      }
    }

    /** The occupancy counter follows the buffer of `n` bytes before this call. */
    method UpdateCount(removed: bool, ghost n: nat)
      requires Core(Registers(), history, traces) && NoGap(Registers())
      requires n <= DEPTH && bufferCount == n % DEPTH && (removed ==> n > 0)
      requires |buffer| == n - (if removed then 1 else 0) + (if added then 1 else 0) <= DEPTH
      modifies this`bufferCount
      ensures Core(Registers(), history, traces) && NoGap(Registers()) && Counted(Registers())
    {
      ghost var r := Registers();
      hide Core, NoGap;
      if added && !removed {
        bufferCount := (bufferCount + 1) % DEPTH;
      } else if removed && !added {
        bufferCount := (bufferCount + DEPTH - 1) % DEPTH;
      }
      RegsSame(r, history, Registers(), traces);
    }

    /** The second half of a call: filler and occupancy counter. */
    method Refill(full: bool, removed: bool, ghost n: nat)
      requires Core(Registers(), history, traces) && AllWords(input)
      requires n <= DEPTH && full == (n >= DEPTH) && bufferCount == n % DEPTH && (removed ==> n > 0)
      requires |buffer| == n - if removed then 1 else 0
      modifies this`buffer, this`added, this`word, this`wordValid, this`wordByte, this`input, this`bufferCount
      ensures Consistent(Registers(), history, traces) && AllWords(input)
      ensures Flow(Registers(), history, input) == old(Flow(Registers(), history, input))
      ensures |buffer| == |old(buffer)| + (if added then 1 else 0) && (added <==> old(wordValid) && !full)
    {
      hide Core, Flow, NoGap, Unsent, Pending;
      ghost var r1 := Registers();
      FillByte(full);
      ghost var r2 := Registers();
      FlowFilled(r1, history, input, r2);
      TakeWord();
      ghost var r3 := Registers();
      BodyOpen(r3, history, traces);
      UpdateCount(removed, n);
      UnsentSame(r3, Registers());
      FlowFilled(r3, history, input, Registers());
    }

    /** The outputs are the registers of the previous call. */
    method Latch(rd: bool) returns (valid: bool, outSop: bool, outEop: bool, outData: nat, ready: bool)
      requires Symbols(history) == port + if txValid then [Symbol(txData, sop, eop)] else []
      modifies this`sop, this`eop, this`txValid, this`port
      ensures Symbols(history) == port && txValid == rd && !sop && !eop && ready == dataReady
      ensures port == old(port) + if valid then [Symbol(outData, outSop, outEop)] else []
    {
      hide Symbols;
      ready, valid, outSop, outEop, outData := dataReady, txValid, sop, eop, txData;
      port := port + if valid then [Symbol(txData, sop, eop)] else [];
      txValid := rd;
      sop, eop := false, false;
    }

    /** The first half of a call: the state machine. */
    method Transmit(rd: bool) returns (removed: bool)
      requires Consistent(Registers(), history, traces) && (mode.Idle? ==> !rd) && !sop && !eop
      requires CountsDown(Registers(), log)
      modifies this`mode, this`count, this`length, this`id, this`data, this`buffer, this`txData, this`sop, this`eop,
               this`dataReady, this`history, this`traces
      ensures Core(Registers(), history, traces) && |buffer| == |old(buffer)| - (if removed then 1 else 0)
      ensures Flow(Registers(), history, input) == old(Flow(Registers(), history, input))
      ensures Symbols(history) == old(Symbols(history)) + if rd then [Symbol(txData, sop, eop)] else []
      ensures Decided(old(Registers()), old(history), Quiet(log), Registers(), history)
      ensures Turn(old(mode), mode, count, old(dataReady), dataReady)
      ensures EverBuffered(Registers(), history) == old(EverBuffered(Registers(), history))
    {
      hide Core, Symbols, Flow, NoGap, Counted, Unsent, Pending, Decided, Turn;
      ghost var r, h := Registers(), history;
      var empty, packet := buffer == [], bufferCount >= PACKET_SIZE;
      removed := Advance(rd, packet, empty, Quiet(log));
      BufferedSame(r, h, Registers(), history);
      UnsentSame(r, Registers());
      FlowAdvanced(r, h, input, Registers(), history);
    }

    /** A call but for its outputs. */
    method Proceed(rd: bool)
      requires Consistent(Registers(), history, traces) && (mode.Idle? ==> !rd) && !sop && !eop
      requires AllWords(input) && CountsDown(Registers(), log)
      modifies this`mode, this`count, this`length, this`id, this`data, this`buffer, this`txData, this`sop, this`eop,
               this`dataReady, this`history, this`traces, this`added, this`word, this`wordValid, this`wordByte,
               this`input, this`bufferCount, this`log
      ensures Consistent(Registers(), history, traces) && AllWords(input) && CountsDown(Registers(), log)
      ensures Flow(Registers(), history, input) == old(Flow(Registers(), history, input))
      ensures Symbols(history) == old(Symbols(history)) + if rd then [Symbol(txData, sop, eop)] else []
      ensures Turn(old(mode), mode, count, old(dataReady), dataReady)
      ensures Told(old(Registers()), old(history), old(log), Registers(), history, log)
    {
      hide Consistent, Core, Symbols, Flow, Decided, Turn, Told, CountsDown, EverBuffered, Pending, Unsent, AllWords,
           Quiet;
      ghost var r, h := Registers(), history;
      BufferBounded(r, h, traces);
      var full := |buffer| >= DEPTH;
      var removed := Transmit(rd);
      ghost var r1 := Registers();
      Refill(full, removed, |r.buffer|);
      Tells(r, h, log, r1, history, Registers());
      log := log + [Call(r.mode.Idle?, added)];
    }

    /** One call. */
    method Cycle(rd: bool) returns (valid: bool, outSop: bool, outEop: bool, outData: nat, ready: bool)
      requires Valid() && (mode.Idle? ==> !rd)
      modifies this
      ensures Valid() && fed == old(fed)
      ensures port == old(port) + (if valid then [Symbol(outData, outSop, outEop)] else []) && ready == old(dataReady)
      ensures Told(old(Registers()), old(history), old(log), Registers(), history, log)
    {
      hide Consistent, Core, Symbols, Flow, Turn, Told, CountsDown, Announced;
      ghost var m, c, ready0 := mode, count, dataReady;
      valid, outSop, outEop, outData, ready := Latch(rd);
      Proceed(rd);
      TurnAnnounces(m, c, ready0, mode, count, dataReady);
    }
  }

  /** Before a call: perhaps a word arrives; and does the reader ask for a byte? */
  datatype Tick = Tick(word: seq<nat>, rd: bool)

  /** All registers and all history before each of some calls, and after the last. */
  datatype State = State(r: Regs, h: History, log: seq<Call>, traces: seq<seq<nat>>)

  /** Between two calls: what a call does, and what frames have been finished. */
  ghost predicate Called(s: State, s': State) {
    Told(s.r, s.h, s.log, s'.r, s'.h, s'.log) && Consistent(s'.r, s'.h, s'.traces) && CountsDown(s'.r, s'.log)
  }

  /** A run of any length; the reader does not ask while the machine is idle. */
  method Play(f: Framer, ticks: seq<Tick>) returns (out: seq<Symbol>, ghost states: seq<State>)
    requires f.Valid() && f.port == []
    modifies f
    ensures f.Valid() && out == f.port && |states| == |ticks| + 1
    ensures forall i | 0 <= i < |ticks| :: Called(states[i], states[i + 1])
    ensures states[0] == old(State(f.Registers(), f.history, f.log, f.traces))
    ensures states[|ticks|] == State(f.Registers(), f.history, f.log, f.traces)
  {
    hide Consistent, Symbols, Flow, Told, CountsDown, Announced;
    out, states := [], [State(f.Registers(), f.history, f.log, f.traces)];
    for i := 0 to |ticks|
      invariant f.Valid() && out == f.port && |states| == i + 1
      invariant forall j | 0 <= j < i :: Called(states[j], states[j + 1])
      invariant states[0] == old(State(f.Registers(), f.history, f.log, f.traces))
      invariant states[i] == State(f.Registers(), f.history, f.log, f.traces)
    {
      if |ticks[i].word| == 16 {
        f.Arrive(ticks[i].word);
      }
      var valid, sop, eop, data, ready := f.Cycle(ticks[i].rd && !f.mode.Idle?);
      out := out + if valid then [Symbol(data, sop, eop)] else [];
      states := states + [State(f.Registers(), f.history, f.log, f.traces)];
    }
  }

  lemma BufferedSame(r: Regs, h: History, r': Regs, h': History)
    requires h'.sent + Pending(r') + r'.buffer == h.sent + Pending(r) + r.buffer
    ensures EverBuffered(r', h') == EverBuffered(r, h)
  {
  }

  lemma UnsentSame(r: Regs, r': Regs)
    requires r'.word == r.word && r'.wordValid == r.wordValid && r'.wordByte == r.wordByte
    ensures Unsent(r') == Unsent(r)
  {
  }

  lemma GapFree(r: Regs, full: bool)
    requires (full ==> |r.buffer| > 0) && (r.wordValid ==> full)
    ensures NoGap(r)
  {
  }

  lemma FlowFilled(r: Regs, h: History, input: seq<seq<nat>>, r': Regs)
    requires r'.mode == r.mode && r'.data == r.data && r'.buffer + Unsent(r') == r.buffer + Unsent(r)
    ensures Flow(r', h, input) == Flow(r, h, input)
  {
    var f := h.sent + Pending(r);
    assert f + r.buffer + Unsent(r) == f + (r.buffer + Unsent(r));
    assert f + r'.buffer + Unsent(r') == f + (r'.buffer + Unsent(r'));
  }

  lemma FlowAdvanced(r: Regs, h: History, input: seq<seq<nat>>, r': Regs, h': History)
    requires h'.sent + Pending(r') + r'.buffer == h.sent + Pending(r) + r.buffer && Unsent(r') == Unsent(r)
    ensures Flow(r', h', input) == Flow(r, h, input)
  {
  }

  lemma BodyOpen(r: Regs, h: History, traces: seq<seq<nat>>)
    requires Core(r, h, traces)
    ensures InRange(r) && h.start <= |h.sent|
  {
  }

  lemma BufferBounded(r: Regs, h: History, traces: seq<seq<nat>>)
    requires Consistent(r, h, traces)
    ensures |r.buffer| <= DEPTH && r.bufferCount == |r.buffer| % DEPTH
  {
  }

  lemma IdleCount(r: Regs, h: History, traces: seq<seq<nat>>)
    requires Core(r, h, traces) && r.mode.Idle?
    ensures r.count <= IDLE_COUNT
  {
  }

  lemma CountOpen(r: Regs, h: History, traces: seq<seq<nat>>)
    requires Core(r, h, traces) && r.mode.Payload?
    ensures r.count > 0
  {
  }

  lemma HeaderOpen(r: Regs, h: History, traces: seq<seq<nat>>)
    requires Core(r, h, traces) && InHeader(r.mode)
    ensures InCount(r) && |r.buffer| > 0 && r.length > 0
  {
  }
}
