/**
 The load and store engines of the load-store unit, as a state machine over their steps. Addresses and sizes are counted
 in the 8-byte words of the data stream; a transaction never crosses a boundary of 16 words.
 */
module DmaEngines {
  import opened Numbers

  const BLOCK: nat := 16

  /** The words that the 32-bit address of a transaction can name. */
  const SPACE: nat := 0x2000_0000

  /** A command or a part of one: `size` words from `addr`; `last` asks for a status when it is done. */
  datatype Cmd = Cmd(addr: nat, size: nat, last: bool)

  const NONE: Cmd := Cmd(0, 0, false)

  type Memory = map<nat, nat>

  /** `mm2s`: waiting commands, what is left of the current one, transactions under way, and the one being streamed. */
  datatype Reader = Reader(cmds: seq<Cmd>, cur: Cmd, trans: seq<Cmd>, sending: Cmd, status: nat)

  /** `s2mm`: waiting commands, what is left of the current one and of its transaction, and finished transactions. */
  datatype Writer = Writer(cmds: seq<Cmd>, cur: Cmd, block: Cmd, trans: seq<bool>, status: nat)

  datatype State = State(r: Reader, w: Writer, stream: seq<nat>, mem: Memory)

  // ---------- the steps ----------

  /** The next transaction of a command: up to the block boundary. */
  function Head(c: Cmd): (t: Cmd)
    requires c.size > 0
    ensures 0 < t.size <= c.size && t.addr == c.addr && t.addr % BLOCK + t.size <= BLOCK
    ensures t.size < c.size ==> (t.addr + t.size) % BLOCK == 0
  {
    var n := Min(c.size, BLOCK - c.addr % BLOCK);
    Cmd(c.addr, n, c.last && n == c.size)
  }

  /** A transaction as it is queued: its address is cut to 32 bits. */
  function Cut(t: Cmd): Cmd {
    t.(addr := t.addr % SPACE)
  }

  function Tail(c: Cmd): Cmd
    requires c.size > 0
  {
    Cmd(c.addr + Head(c).size, c.size - Head(c).size, c.last)
  }

  function Advance(c: Cmd): Cmd
    requires c.size > 0
  {
    Cmd(c.addr + 1, c.size - 1, c.last)
  }

  datatype Step = FetchR | SplitR | TakeR | SendR | FetchW | SplitW | StoreW | AnswerW

  predicate Enabled(s: State, step: Step) {
    match step
    case FetchR => s.r.cur.size == 0 && s.r.cmds != []
    case SplitR => s.r.cur.size > 0
    case TakeR => s.r.sending.size == 0 && s.r.trans != []
    case SendR => s.r.sending.size > 0 && s.r.sending.addr in s.mem
    case FetchW => s.w.cur.size == 0 && s.w.block.size == 0 && s.w.cmds != []
    case SplitW => s.w.cur.size > 0 && s.w.block.size == 0
    case StoreW => s.w.block.size > 0 && s.stream != []
    case AnswerW => s.w.trans != []
  }

  function Next(s: State, step: Step): State
    requires Enabled(s, step)
  {
    var r, w := s.r, s.w;
    match step
    case FetchR => s.(r := r.(cur := r.cmds[0], cmds := r.cmds[1..]))
    case SplitR => s.(r := r.(cur := Tail(r.cur), trans := r.trans + [Cut(Head(r.cur))]))
    case TakeR => s.(r := r.(sending := r.trans[0], trans := r.trans[1..]))
    case SendR =>
      var done := r.sending.size == 1 && r.sending.last;
      s.(r := r.(sending := Advance(r.sending), status := r.status + if done then 1 else 0),
         stream := s.stream + [s.mem[r.sending.addr]])
    case FetchW => s.(w := w.(cur := w.cmds[0], cmds := w.cmds[1..]))
    case SplitW => s.(w := w.(cur := Tail(w.cur), block := Head(w.cur)))
    case StoreW =>
      s.(w := w.(block := Advance(w.block), trans := w.trans + if w.block.size == 1 then [w.block.last] else []),
         stream := s.stream[1..], mem := s.mem[w.block.addr := s.stream[0]])
    case AnswerW => s.(w := w.(trans := w.trans[1..], status := w.status + if w.trans[0] then 1 else 0))
  }

  // ---------- what is left to do ----------

  /** The word addresses of a command, in order. */
  function Span(addr: nat, n: nat): (a: seq<nat>)
    ensures |a| == n && forall i | 0 <= i < n :: a[i] == addr + i
  {
    seq(n, i => addr + i)
  }

  function WordsOf(c: Cmd): seq<nat> {
    Span(c.addr, c.size)
  }

  function AllWords(cmds: seq<Cmd>): seq<nat> {
    if cmds == [] then [] else WordsOf(cmds[0]) + AllWords(cmds[1..])
  }

  /** Addresses cut to 32 bits, word by word. */
  function Wrapped(words: seq<nat>): (a: seq<nat>)
    ensures |a| == |words| && forall i | 0 <= i < |a| :: a[i] == words[i] % SPACE
  {
    seq(|words|, i requires 0 <= i < |words| => words[i] % SPACE)
  }

  /** The words that load commands read: the reader cuts addresses, the writer does not. */
  function ReadWords(loads: seq<Cmd>): seq<nat> {
    Wrapped(AllWords(loads))
  }

  /** Addresses still to be read, and still to be written. */
  function ToRead(r: Reader): seq<nat> {
    WordsOf(r.sending) + AllWords(r.trans) + Wrapped(WordsOf(r.cur)) + ReadWords(r.cmds)
  }

  function ToWrite(w: Writer): seq<nat> {
    WordsOf(w.block) + WordsOf(w.cur) + AllWords(w.cmds)
  }

  lemma {:induction false} AllWordsAppend(cmds: seq<Cmd>, c: Cmd)
    ensures AllWords(cmds + [c]) == AllWords(cmds) + WordsOf(c)
  {
    if cmds == [] {
      assert cmds + [c] == [c] && AllWords([c][1..]) == [];
    } else {
      assert (cmds + [c])[1..] == cmds[1..] + [c];
      AllWordsAppend(cmds[1..], c);
    }
  }

  lemma SplitWords(c: Cmd)
    requires c.size > 0
    ensures WordsOf(c) == WordsOf(Head(c)) + WordsOf(Tail(c))
    ensures WordsOf(c) == [c.addr] + WordsOf(Advance(c))
  {
  }

  lemma WrappedJoin(a: seq<nat>, b: seq<nat>)
    ensures Wrapped(a + b) == Wrapped(a) + Wrapped(b)
  {
  }

  lemma CutWithin(a: nat, i: nat)
    requires a % 16 + i < 16
    ensures (a + i) % SPACE == a % SPACE + i
  {
    var q, r := a / SPACE, a % SPACE;
    assert r % 16 == a % 16 && r + i < SPACE;
    assert a + i == SPACE * q + (r + i);
  }

  /** Cutting the address of a transaction cuts that of each of its words, because it stays inside its block. */
  lemma CutWords(t: Cmd)
    requires t.addr % 16 + t.size <= 16
    ensures WordsOf(Cut(t)) == Wrapped(WordsOf(t))
  {
    forall i | 0 <= i < t.size
      ensures WordsOf(Cut(t))[i] == Wrapped(WordsOf(t))[i]
    {
      CutWithin(t.addr, i);
    }
  }

  // ---------- the copy ----------

  /** The words at the addresses `from`. */
  function Values(mem: Memory, from: seq<nat>): seq<nat>
    requires forall a | a in from :: a in mem
  {
    seq(|from|, i requires 0 <= i < |from| => mem[from[i]])
  }

  /** Memory after the words of `from` have been written to `to`, in order. */
  function Copied(mem: Memory, from: seq<nat>, to: seq<nat>): Memory
    requires |from| == |to| && forall a | a in from :: a in mem
  {
    if to == [] then mem
    else Copied(mem, from[..|from| - 1], to[..|to| - 1])[to[|to| - 1] := mem[from[|from| - 1]]]
  }

  /** A copy from addresses that are mapped and disjoint from those written. */
  ghost predicate Job(mem: Memory, from: seq<nat>, to: seq<nat>) {
    |from| == |to| && forall a | a in from :: a in mem && a !in to
  }

  /** `i` words have been read and `j` of them written; the others are in the stream. */
  ghost predicate Between(s: State, mem: Memory, from: seq<nat>, to: seq<nat>, i: nat, j: nat)
    requires Job(mem, from, to)
  {
    && j <= i <= |from|
    && ToRead(s.r) == from[i..] && ToWrite(s.w) == to[j..]
    && (forall a | a in from[j..i] || a in from[..j] :: a in mem)
    && s.stream == Values(mem, from[j..i])
    && s.mem == Copied(mem, from[..j], to[..j])
  }

  lemma {:induction false} CopiedElsewhere(mem: Memory, from: seq<nat>, to: seq<nat>, a: nat)
    requires |from| == |to| && a !in to && forall b | b in from :: b in mem
    ensures a in Copied(mem, from, to) <==> a in mem
    ensures a in mem ==> Copied(mem, from, to)[a] == mem[a]
    decreases |to|
  {
    if to != [] {
      CopiedElsewhere(mem, from[..|from| - 1], to[..|to| - 1], a);
    }
  }

  /** When no address is written twice, every destination ends up with its source. */
  lemma {:induction false} CopiedHas(mem: Memory, from: seq<nat>, to: seq<nat>, i: nat)
    requires |from| == |to| && (forall b | b in from :: b in mem) && i < |to|
    requires forall x, y | 0 <= x < y < |to| :: to[x] != to[y]
    ensures to[i] in Copied(mem, from, to) && Copied(mem, from, to)[to[i]] == mem[from[i]]
    decreases |to|
  {
    var n := |to| - 1;
    if i < n {
      CopiedHas(mem, from[..n], to[..n], i);
    }
  }

  /** The address that the next word is read from. */
  lemma FirstToRead(r: Reader)
    requires r.sending.size > 0
    ensures ToRead(r) == [r.sending.addr] + ToRead(r.(sending := Advance(r.sending)))
  {
    SplitWords(r.sending);
  }

  lemma FirstToWrite(w: Writer)
    requires w.block.size > 0
    ensures ToWrite(w) == [w.block.addr] + ToWrite(w.(block := Advance(w.block)))
  {
    SplitWords(w.block);
  }

  lemma SplitReads(r: Reader)
    requires r.cur.size > 0
    ensures ToRead(r.(cur := Tail(r.cur), trans := r.trans + [Cut(Head(r.cur))])) == ToRead(r)
  {
    hide WordsOf, AllWords, Wrapped, Head, Tail, Cut, ReadWords;
    var t := Head(r.cur);
    AllWordsAppend(r.trans, Cut(t));
    CutWords(t);
    SplitWords(r.cur);
    WrappedJoin(WordsOf(t), WordsOf(Tail(r.cur)));
    Regroup(WordsOf(r.sending), AllWords(r.trans), WordsOf(Cut(t)), Wrapped(WordsOf(Tail(r.cur))), ReadWords(r.cmds));
  }

  lemma Regroup(a: seq<nat>, b: seq<nat>, c: seq<nat>, d: seq<nat>, e: seq<nat>)
    ensures a + (b + c) + d + e == a + b + (c + d) + e
  {
  }

  lemma FetchReads(r: Reader)
    requires r.cur.size == 0 && r.cmds != []
    ensures ToRead(r.(cur := r.cmds[0], cmds := r.cmds[1..])) == ToRead(r)
  {
    NoneLeft(r.cur);
    WrappedJoin(WordsOf(r.cmds[0]), AllWords(r.cmds[1..]));
  }

  lemma NoneLeft(c: Cmd)
    requires c.size == 0
    ensures WordsOf(c) == []
  {
  }

  /** Fetching, splitting and queueing change nothing in what is left to do. */
  lemma {:induction false} SameWork(s: State, step: Step)
    requires Enabled(s, step) && !step.SendR? && !step.StoreW?
    ensures ToRead(Next(s, step).r) == ToRead(s.r) && ToWrite(Next(s, step).w) == ToWrite(s.w)
    ensures Next(s, step).stream == s.stream && Next(s, step).mem == s.mem
  {
    hide WordsOf;
    match step {
      case FetchR => FetchReads(s.r);
      case SplitR => SplitReads(s.r);
      case TakeR => NoneLeft(s.r.sending);
      case FetchW =>
        NoneLeft(s.w.cur);
        NoneLeft(s.w.block);
      case SplitW =>
        SplitWords(s.w.cur);
        NoneLeft(s.w.block);
      case AnswerW =>
    }
  }

  lemma ReadKeeps(s: State, mem: Memory, from: seq<nat>, to: seq<nat>, i: nat, j: nat)
    requires Job(mem, from, to) && Between(s, mem, from, to, i, j) && Enabled(s, SendR)
    ensures i < |from| && Between(Next(s, SendR), mem, from, to, i + 1, j)
  {
    hide ToRead, ToWrite, Copied;
    FirstToRead(s.r);
    ReadersAgree(s.r, Next(s, SendR).r, Advance(s.r.sending));
    var a := s.r.sending.addr;
    assert from[i..][0] == a && from[i..][1..] == from[i + 1..];
    assert a in from && a !in to[..j];
    CopiedElsewhere(mem, from[..j], to[..j], a);
    assert from[j..i + 1] == from[j..i] + [a];
    assert Values(mem, from[j..i] + [a]) == Values(mem, from[j..i]) + [mem[a]];
  }

  lemma ReadersAgree(r: Reader, r': Reader, sending: Cmd)
    requires r' == r.(sending := sending, status := r'.status)
    ensures ToRead(r') == ToRead(r.(sending := sending))
  {
  }

  lemma WritersAgree(w: Writer, w': Writer, block: Cmd)
    requires w' == w.(block := block, trans := w'.trans)
    ensures ToWrite(w') == ToWrite(w.(block := block))
  {
  }

  lemma WriteKeeps(s: State, mem: Memory, from: seq<nat>, to: seq<nat>, i: nat, j: nat)
    requires Job(mem, from, to) && Between(s, mem, from, to, i, j) && Enabled(s, StoreW)
    ensures j < i && Between(Next(s, StoreW), mem, from, to, i, j + 1)
  {
    hide ToRead, ToWrite;
    FirstToWrite(s.w);
    WritersAgree(s.w, Next(s, StoreW).w, Advance(s.w.block));
    assert to[j..][0] == s.w.block.addr && to[j..][1..] == to[j + 1..];
    assert from[j..i] == [from[j]] + from[j + 1..i];
    assert s.stream[0] == mem[from[j]];
    assert Values(mem, from[j..i])[1..] == Values(mem, from[j + 1..i]);
    assert from[..j + 1][..j] == from[..j] && to[..j + 1][..j] == to[..j];
    forall a | a in from[..j + 1]
      ensures a in mem
    {
      assert a in from;
    }
  }

  /** Every step keeps the copy in order. */
  lemma StepKeeps(s: State, step: Step, mem: Memory, from: seq<nat>, to: seq<nat>, i: nat, j: nat)
                  returns (i': nat, j': nat)
    requires Job(mem, from, to) && Between(s, mem, from, to, i, j) && Enabled(s, step)
    ensures Between(Next(s, step), mem, from, to, i', j')
  {
    hide ToRead, ToWrite, Copied, Values;
    i', j' := i, j;
    if step.SendR? {
      ReadKeeps(s, mem, from, to, i, j);
      i' := i + 1;
    } else if step.StoreW? {
      WriteKeeps(s, mem, from, to, i, j);
      j' := j + 1;
    } else {
      SameWork(s, step);
    }
  }

  // ---------- statuses ----------

  function Asks(c: Cmd): nat {
    if c.size > 0 && c.last then 1 else 0
  }

  function AllAsk(cmds: seq<Cmd>): nat {
    if cmds == [] then 0 else Asks(cmds[0]) + AllAsk(cmds[1..])
  }

  lemma {:induction false} AllAskAppend(cmds: seq<Cmd>, c: Cmd)
    ensures AllAsk(cmds + [c]) == AllAsk(cmds) + Asks(c)
  {
    if cmds == [] {
      assert cmds + [c] == [c] && AllAsk([c][1..]) == 0;
    } else {
      assert (cmds + [c])[1..] == cmds[1..] + [c];
      AllAskAppend(cmds[1..], c);
    }
  }

  function Flags(trans: seq<bool>): nat {
    if trans == [] then 0 else (if trans[0] then 1 else 0) + Flags(trans[1..])
  }

  lemma {:induction false} FlagsAppend(trans: seq<bool>, b: bool)
    ensures Flags(trans + [b]) == Flags(trans) + if b then 1 else 0
  {
    if trans == [] {
      assert trans + [b] == [b] && Flags([b][1..]) == 0;
    } else {
      assert (trans + [b])[1..] == trans[1..] + [b];
      FlagsAppend(trans[1..], b);
    }
  }

  /** Statuses sent and still owed. */
  function StatusR(r: Reader): nat {
    r.status + Asks(r.sending) + AllAsk(r.trans) + Asks(r.cur) + AllAsk(r.cmds)
  }

  function StatusW(w: Writer): nat {
    w.status + Flags(w.trans) + Asks(w.block) + Asks(w.cur) + AllAsk(w.cmds)
  }

  /** No step loses or adds a status. */
  lemma {:induction false} StatusKept(s: State, step: Step)
    requires Enabled(s, step)
    ensures StatusR(Next(s, step).r) == StatusR(s.r) && StatusW(Next(s, step).w) == StatusW(s.w)
  {
    if step.SplitR? {
      AllAskAppend(s.r.trans, Cut(Head(s.r.cur)));
    }
    if step.StoreW? {
      FlagsAppend(s.w.trans, s.w.block.last);
      assert s.w.trans + [] == s.w.trans;
    }
  }

  // ---------- progress ----------

  function Load(cmds: seq<Cmd>, scale: nat): nat {
    if cmds == [] then 0 else scale * cmds[0].size + 1 + Load(cmds[1..], scale)
  }

  lemma {:induction false} LoadAppend(cmds: seq<Cmd>, c: Cmd, scale: nat)
    ensures Load(cmds + [c], scale) == Load(cmds, scale) + scale * c.size + 1
  {
    if cmds == [] {
      assert cmds + [c] == [c] && Load([c][1..], scale) == 0;
    } else {
      assert (cmds + [c])[1..] == cmds[1..] + [c];
      LoadAppend(cmds[1..], c, scale);
    }
  }

  /** Work left in the engines; every step lowers it. */
  function Work(s: State): nat {
    Load(s.r.cmds, 4) + 4 * s.r.cur.size + Load(s.r.trans, 2) + 2 * s.r.sending.size
    + Load(s.w.cmds, 4) + 4 * s.w.cur.size + 2 * s.w.block.size + |s.w.trans|
  }

  lemma WorkFalls(s: State, step: Step)
    requires Enabled(s, step)
    ensures Work(Next(s, step)) < Work(s)
  {
    if step.SplitR? {
      LoadAppend(s.r.trans, Cut(Head(s.r.cur)), 2);
    }
  }

  predicate Done(s: State) {
    && s.r.cmds == [] && s.r.cur.size == 0 && s.r.trans == [] && s.r.sending.size == 0
    && s.w.cmds == [] && s.w.cur.size == 0 && s.w.block.size == 0 && s.w.trans == []
  }

  /** How many transactions, stream words and finished transactions the FIFOs hold. */
  datatype Depths = Depths(trans: nat, stream: nat, done: nat)

  predicate Deep(d: Depths) {
    d.trans > 0 && d.stream > 0 && d.done > 0
  }

  /** A step that is possible and finds room in the FIFO that it writes to. */
  predicate Ready(d: Depths, s: State, step: Step) {
    && Enabled(s, step)
    && (step.SplitR? ==> |s.r.trans| < d.trans)
    && (step.SendR? ==> |s.stream| < d.stream)
    && (step.StoreW? && s.w.block.size == 1 ==> |s.w.trans| < d.done)
  }

  /** Until everything is done, some engine can move, however shallow the FIFOs are. */
  lemma NeverStuck(d: Depths, s: State, mem: Memory, from: seq<nat>, to: seq<nat>, i: nat, j: nat) returns (step: Step)
    requires Job(mem, from, to) && Between(s, mem, from, to, i, j) && !Done(s) && Deep(d)
    ensures Ready(d, s, step)
  {
    hide Copied;
    if s.w.trans != [] {
      step := AnswerW;
    } else if s.w.block.size > 0 && s.stream != [] {
      step := StoreW;
    } else if s.w.block.size == 0 && s.w.cur.size > 0 {
      step := SplitW;
    } else if s.w.block.size == 0 && s.w.cmds != [] {
      step := FetchW;
    } else if s.r.sending.size > 0 {
      step := SendR;
      FirstToRead(s.r);
      var a := s.r.sending.addr;
      assert from[i..][0] == a;
      assert a in from && a !in to[..j];
      CopiedElsewhere(mem, from[..j], to[..j], a);
    } else if s.r.trans != [] {
      step := TakeR;
    } else if s.r.cur.size > 0 {
      step := SplitR;
    } else {
      step := FetchR;
      ReaderBusy(s, mem, from, to, i, j);
    }
  }

  /** A writer that waits for words has a reader with commands. */
  lemma ReaderBusy(s: State, mem: Memory, from: seq<nat>, to: seq<nat>, i: nat, j: nat)
    requires Job(mem, from, to) && Between(s, mem, from, to, i, j) && !Done(s)
    requires s.r.sending.size == 0 && s.r.trans == [] && s.r.cur.size == 0 && s.w.trans == []
    requires if s.w.block.size > 0 then s.stream == [] else s.w.cur.size == 0 && s.w.cmds == []
    ensures s.r.cmds != []
  {
    hide Copied;
    if s.w.block.size > 0 {
      FirstToWrite(s.w);
    }
  }

  // ---------- whole runs ----------

  /** The states of a run that takes the given steps. */
  ghost predicate Run(states: seq<State>, steps: seq<Step>) {
    && |states| == |steps| + 1
    && forall n | 0 <= n < |steps| :: Enabled(states[n], steps[n]) && states[n + 1] == Next(states[n], steps[n])
  }

  /** Two engines that have just got their commands. */
  function Initial(loads: seq<Cmd>, stores: seq<Cmd>, mem: Memory): State {
    State(Reader(loads, NONE, [], NONE, 0), Writer(stores, NONE, NONE, [], 0), [], mem)
  }

  lemma InitialIs(loads: seq<Cmd>, stores: seq<Cmd>, mem: Memory)
    requires Job(mem, ReadWords(loads), AllWords(stores))
    ensures Between(Initial(loads, stores, mem), mem, ReadWords(loads), AllWords(stores), 0, 0)
    ensures StatusR(Initial(loads, stores, mem).r) == AllAsk(loads)
            && StatusW(Initial(loads, stores, mem).w) == AllAsk(stores)
  {
    hide AllWords, WordsOf, AllAsk, Copied, Flags, Job, ReadWords;
    NoneLeft(NONE);
    EmptyWords();
    var from, to := ReadWords(loads), AllWords(stores);
    assert from[0..] == from && to[0..] == to && from[0..0] == [] && from[..0] == [] && to[..0] == [];
    NothingCopied(mem);
    JobOpen(mem, from, to);
  }

  lemma JobOpen(mem: Memory, from: seq<nat>, to: seq<nat>)
    requires Job(mem, from, to)
    ensures forall a | a in from :: a in mem
  {
  }

  lemma NothingCopied(mem: Memory)
    ensures Copied(mem, [], []) == mem
  {
  }

  lemma EmptyWords()
    ensures AllWords([]) == [] && ReadWords([]) == [] && Wrapped([]) == [] && AllAsk([]) == 0 && Flags([]) == 0
  {
  }

  /** Every run keeps the copy in order and the statuses accounted for. */
  lemma {:induction false} RunKeeps(states: seq<State>, steps: seq<Step>, loads: seq<Cmd>, stores: seq<Cmd>,
                                    mem: Memory, n: nat)
    returns (i: nat, j: nat)
    requires Job(mem, ReadWords(loads), AllWords(stores)) && Run(states, steps)
             && states[0] == Initial(loads, stores, mem) && n < |states|
    ensures Between(states[n], mem, ReadWords(loads), AllWords(stores), i, j)
    ensures StatusR(states[n].r) == AllAsk(loads) && StatusW(states[n].w) == AllAsk(stores)
    ensures n + Work(states[n]) <= Work(states[0])
    decreases n
  {
    hide Between, StatusR, StatusW, Work, Initial;
    if n == 0 {
      InitialIs(loads, stores, mem);
      i, j := 0, 0;
    } else {
      i, j := RunKeeps(states, steps, loads, stores, mem, n - 1);
      StatusKept(states[n - 1], steps[n - 1]);
      WorkFalls(states[n - 1], steps[n - 1]);
      i, j := StepKeeps(states[n - 1], steps[n - 1], mem, ReadWords(loads), AllWords(stores), i, j);
    }
  }

  /**
   However the steps interleave, whatever the two splittings are and however shallow the FIFOs: no run is longer than
   the initial work, a run that cannot go on is done, and then every word has been copied and each engine has sent the
   statuses asked for.
   */
  lemma {:induction false} EveryRunCopies(d: Depths, states: seq<State>, steps: seq<Step>, loads: seq<Cmd>,
                                          stores: seq<Cmd>, mem: Memory)
    requires Job(mem, ReadWords(loads), AllWords(stores)) && Run(states, steps)
             && states[0] == Initial(loads, stores, mem)
    requires Deep(d) && forall step :: !Ready(d, states[|steps|], step)
    ensures var s := states[|steps|];
            && |steps| <= Work(states[0]) && Done(s) && s.stream == []
            && s.r.status == AllAsk(loads) && s.w.status == AllAsk(stores)
            && s.mem == Copied(mem, ReadWords(loads), AllWords(stores))
  {
    hide Work, Copied, AllWords, ReadWords, Initial;
    var s := states[|steps|];
    var from, to := ReadWords(loads), AllWords(stores);
    var i, j := RunKeeps(states, steps, loads, stores, mem, |steps|);
    if !Done(s) {
      var step := NeverStuck(d, s, mem, from, to, i, j);
    }
    DoneIs(s, mem, from, to, i, j);
  }

  lemma DoneIs(s: State, mem: Memory, from: seq<nat>, to: seq<nat>, i: nat, j: nat)
    requires Job(mem, from, to) && Between(s, mem, from, to, i, j) && Done(s)
    ensures i == |from| && j == |to| && s.stream == [] && s.mem == Copied(mem, from, to)
    ensures StatusR(s.r) == s.r.status && StatusW(s.w) == s.w.status
  {
    EmptyWords();
    NoneLeft(s.r.cur);
    NoneLeft(s.r.sending);
    NoneLeft(s.w.cur);
    NoneLeft(s.w.block);
    hide WordsOf, AllWords, Copied;
    assert |from[i..]| == 0 && |to[j..]| == 0;
    assert from[..|from|] == from && to[..|to|] == to;
  }
}
