/**
 Strided moves of the load-store unit: how a register command expands, and exactly when a pair of them copies blocks.
 */
module LsuCommands {
  import opened DmaEngines

  /** Widths of the size field of a DMA command, of the size, increment and repetition fields, and of an address. */
  const SIZE_LIMIT: nat := 0x100_0000
  const FIELD: nat := 0x4000_0000
  const ADDR_LIMIT: nat := 0x1_0000_0000

  /** The width of an address. */
  function Wrap(a: nat): (w: nat)
    ensures w < ADDR_LIMIT && (a < ADDR_LIMIT ==> w == a)
  {
    a % ADDR_LIMIT
  }

  lemma SumWraps(a: nat, b: nat)
    ensures Wrap(Wrap(a) + b) == Wrap(a + b)
  {
  }

  /** The DMA commands of a strided move, in bytes, for operands that are in the registers. */
  function Commands(addr: nat, size: nat, inc: nat, rep: nat): seq<Cmd>
    decreases rep
  {
    if rep == 0 then []
    else [Cmd(addr, size, rep == 1)] + Commands(Wrap(addr + inc), size, inc, rep - 1)
  }

  /** The DMA commands that the operands of `lsu_smemcpy` lead to. */
  function Expand(addr: nat, size: nat, inc: nat, rep: nat): seq<Cmd> {
    Commands(Wrap(addr), size % SIZE_LIMIT, inc % FIELD, rep % FIELD)
  }

  /** Command `i` in closed form. */
  lemma {:induction false} CommandAt(addr: nat, size: nat, inc: nat, rep: nat, i: nat)
    requires i < rep && addr < ADDR_LIMIT
    ensures |Commands(addr, size, inc, rep)| == rep
    ensures Commands(addr, size, inc, rep)[i] == Cmd(Wrap(addr + Strides(i, inc)), size, i == rep - 1)
    decreases rep
  {
    hide Wrap, Strides;
    var rest := Commands(Wrap(addr + inc), size, inc, rep - 1);
    StrideNext(0, inc);
    if rep > 1 {
      var j := if i == 0 then 0 else i - 1;
      CommandAt(Wrap(addr + inc), size, inc, rep - 1, j);
      SumWraps(addr + inc, Strides(j, inc));
      StrideNext(j, inc);
      assert i > 0 ==> Commands(addr, size, inc, rep)[i] == rest[j];
    }
  }

  function Strides(i: nat, inc: nat): nat {
    i * inc
  }

  lemma StrideNext(j: nat, inc: nat)
    ensures Strides(0, inc) == 0 && Strides(j + 1, inc) == inc + Strides(j, inc)
  {
  }

  /** All commands in closed form. */
  lemma ExpandAt(addr: nat, size: nat, inc: nat, rep: nat)
    ensures |Expand(addr, size, inc, rep)| == rep % FIELD
    ensures forall i | 0 <= i < rep % FIELD ::
              Expand(addr, size, inc, rep)[i]
                  == Cmd(Wrap(Wrap(addr) + i * (inc % FIELD)), size % SIZE_LIMIT, i == rep % FIELD - 1)
  {
    hide Wrap, Commands;
    var z, d, n := size % SIZE_LIMIT, inc % FIELD, rep % FIELD;
    if n == 0 {
      NoCommands(Wrap(addr), z, d);
    } else {
      CommandAt(Wrap(addr), z, d, n, 0);
    }
    forall i | 0 <= i < n
      ensures Commands(Wrap(addr), z, d, n)[i] == Cmd(Wrap(Wrap(addr) + i * d), z, i == n - 1)
    {
      CommandAt(Wrap(addr), z, d, n, i);
    }
  }

  lemma NoCommands(addr: nat, size: nat, inc: nat)
    ensures Commands(addr, size, inc, 0) == []
  {
  }

  lemma FieldCut(size: nat)
    ensures size % FIELD % SIZE_LIMIT == size % SIZE_LIMIT
  {
  }

  /** `LSU_smove` in `ct_command`: one command per repetition, the last one marked, all fields cut to their widths. */
  method Smove(address: nat, size: nat, inc: nat, rep: nat) returns (cmds: seq<Cmd>)
    ensures cmds == Expand(address, size, inc, rep) && |cmds| == rep % FIELD
    ensures forall i | 0 <= i < |cmds| ::
              cmds[i] == Cmd(Wrap(Wrap(address) + i * (inc % FIELD)), size % SIZE_LIMIT, i == |cmds| - 1)
  {
    ExpandAt(address, size, inc, rep);
    FieldCut(size);
    hide Wrap;
    cmds := [];
    var a: nat, n: nat := Wrap(address), rep % FIELD;
    var field, stride := size % FIELD, inc % FIELD;
    while n != 0
      invariant cmds + Commands(a, field % SIZE_LIMIT, stride, n) == Expand(address, size, inc, rep)
      decreases n
    {
      var last := n == 1;
      cmds := cmds + [Cmd(a, field % SIZE_LIMIT, last)];
      a := Wrap(a + stride);
      n := n - 1;
    }
  }

  /** Commands of whole words. */
  function InWords(cmds: seq<Cmd>): seq<Cmd> {
    if cmds == [] then [] else [Cmd(cmds[0].addr / 8, cmds[0].size / 8, cmds[0].last)] + InWords(cmds[1..])
  }

  /** Strided blocks, counted in words. */
  function Blocks(addr: nat, size: nat, inc: nat, rep: nat): seq<Cmd>
    decreases rep
  {
    if rep == 0 then [] else [Cmd(addr, size, rep == 1)] + Blocks(addr + inc, size, inc, rep - 1)
  }

  /** No block starts beyond the address space. */
  predicate NoWrap(addr: nat, inc: nat, rep: nat) {
    addr < ADDR_LIMIT && (rep > 0 ==> addr + (rep - 1) * inc < ADDR_LIMIT)
  }

  lemma {:induction false} CommandsAre(addr: nat, size: nat, inc: nat, rep: nat)
    requires addr % 8 == 0 && inc % 8 == 0 && NoWrap(addr, inc, rep)
    ensures InWords(Commands(addr, size, inc, rep)) == Blocks(addr / 8, size / 8, inc / 8, rep)
    decreases rep
  {
    hide NoWrap, Wrap;
    if rep == 1 {
      assert Commands(Wrap(addr + inc), size, inc, 0) == [];
      assert Blocks(addr / 8 + inc / 8, size / 8, inc / 8, 0) == [];
    } else if rep > 1 {
      NextBlock(addr, inc, rep);
      CommandsAre(addr + inc, size, inc, rep - 1);
      var rest := Commands(addr + inc, size, inc, rep - 1);
      assert ([Cmd(addr, size, false)] + rest)[1..] == rest;
    }
  }

  lemma NextBlock(addr: nat, inc: nat, rep: nat)
    requires addr % 8 == 0 && inc % 8 == 0 && rep > 1 && NoWrap(addr, inc, rep)
    ensures NoWrap(addr + inc, inc, rep - 1) && Wrap(addr + inc) == addr + inc
    ensures (addr + inc) % 8 == 0 && (addr + inc) / 8 == addr / 8 + inc / 8
  {
    StrideNext(rep - 2, inc);
    Times(0, rep - 2, inc, inc);
  }

  lemma Times(n: nat, m: nat, x: nat, y: nat)
    requires n <= m && x <= y
    ensures n * x <= m * y
  {
  }

  /** For aligned addresses that do not wrap, the commands visit the strided blocks of the cut operands. */
  lemma ExpandIs(addr: nat, size: nat, inc: nat, rep: nat)
    requires addr % 8 == 0 && inc % 8 == 0 && NoWrap(addr, inc, rep)
    ensures InWords(Expand(addr, size, inc, rep))
            == Blocks(addr / 8, size % SIZE_LIMIT / 8, inc % FIELD / 8, rep % FIELD)
  {
    if rep % FIELD > 0 {
      Times(rep % FIELD - 1, rep - 1, inc % FIELD, inc);
    }
    CommandsAre(addr, size % SIZE_LIMIT, inc % FIELD, rep % FIELD);
  }

  // ---------- where the words of a block are ----------

  /** Position of word `k` of block `i` in the list of all words. */
  function Position(size: nat, i: nat, k: nat): nat {
    if i == 0 then k else size + Position(size, i - 1, k)
  }

  /** Start of block `i`. */
  function Base(addr: nat, inc: nat, i: nat): nat
    decreases i
  {
    if i == 0 then addr else Base(addr + inc, inc, i - 1)
  }

  lemma {:induction false} BaseIs(addr: nat, inc: nat, i: nat)
    ensures Base(addr, inc, i) == addr + i * inc
    decreases i
  {
    if i > 0 {
      BaseIs(addr + inc, inc, i - 1);
      assert i * inc == (i - 1) * inc + inc;
    }
  }

  /** Word `k` of block `i`. */
  function WordAt(addr: nat, inc: nat, i: nat, k: nat): nat {
    addr + i * inc + k
  }

  lemma {:induction false} BlockWord(addr: nat, size: nat, inc: nat, rep: nat, i: nat, k: nat)
    requires i < rep && k < size
    ensures var words := AllWords(Blocks(addr, size, inc, rep));
            Position(size, i, k) < |words| && words[Position(size, i, k)] == Base(addr, inc, i) + k
    decreases rep
  {
    var rest := Blocks(addr + inc, size, inc, rep - 1);
    assert ([Cmd(addr, size, rep == 1)] + rest)[1..] == rest;
    if i > 0 {
      BlockWord(addr + inc, size, inc, rep - 1, i - 1, k);
    }
  }

  lemma {:induction false} SameCount(addr: nat, inc: nat, addr': nat, inc': nat, size: nat, rep: nat)
    ensures |AllWords(Blocks(addr, size, inc, rep))| == |AllWords(Blocks(addr', size, inc', rep))|
    decreases rep
  {
    if rep > 0 {
      SameCount(addr + inc, inc, addr' + inc', inc', size, rep - 1);
      assert ([Cmd(addr, size, rep == 1)] + Blocks(addr + inc, size, inc, rep - 1))[1..]
             == Blocks(addr + inc, size, inc, rep - 1);
      assert ([Cmd(addr', size, rep == 1)] + Blocks(addr' + inc', size, inc', rep - 1))[1..]
             == Blocks(addr' + inc', size, inc', rep - 1);
    }
  }

  lemma {:induction false} OneStatus(addr: nat, size: nat, inc: nat, rep: nat)
    ensures AllAsk(Blocks(addr, size, inc, rep)) == if rep > 0 && size > 0 then 1 else 0
    decreases rep
  {
    if rep > 0 {
      OneStatus(addr + inc, size, inc, rep - 1);
      assert ([Cmd(addr, size, rep == 1)] + Blocks(addr + inc, size, inc, rep - 1))[1..]
             == Blocks(addr + inc, size, inc, rep - 1);
    }
  }

  /** What `lsu_smemcpy` presumes about source and destination, in words. */
  ghost predicate Copyable(mem: Memory, src: nat, dst: nat, size: nat, srcInc: nat, dstInc: nat, n: nat) {
    var from, to := AllWords(Blocks(src, size, srcInc, n)), AllWords(Blocks(dst, size, dstInc, n));
    && (forall a | a in from :: a in mem && a !in to)
    && (forall x, y | 0 <= x < y < |to| :: to[x] != to[y])
  }

  /** Every run of the two engines copies every word of every block and sends one status each. */
  lemma BlocksCopied(d: Depths, states: seq<State>, steps: seq<Step>, mem: Memory,
                     src: nat, dst: nat, size: nat, srcInc: nat, dstInc: nat, n: nat, i: nat, k: nat)
    requires Copyable(mem, src, dst, size, srcInc, dstInc, n) && i < n && k < size
    requires WordAt(src, srcInc, n - 1, size) <= SPACE
    requires Run(states, steps) && states[0] == Initial(Blocks(src, size, srcInc, n), Blocks(dst, size, dstInc, n), mem)
    requires Deep(d) && forall step :: !Ready(d, states[|steps|], step)
    ensures var s := states[|steps|];
            && Done(s) && s.r.status == 1 && s.w.status == 1
            && WordAt(src, srcInc, i, k) in mem && WordAt(dst, dstInc, i, k) in s.mem
            && s.mem[WordAt(dst, dstInc, i, k)] == mem[WordAt(src, srcInc, i, k)]
  {
    hide Run, Enabled, Ready, Initial, Done, Copied, Blocks, AllWords, AllAsk;
    var loads, stores := Blocks(src, size, srcInc, n), Blocks(dst, size, dstInc, n);
    forall a | a in AllWords(loads)
      ensures a < SPACE
    {
      WordsBelow(src, size, srcInc, n, a);
    }
    InSpace(AllWords(loads));
    SameCount(src, srcInc, dst, dstInc, size, n);
    EveryRunCopies(d, states, steps, loads, stores, mem);
    OneStatus(src, size, srcInc, n);
    OneStatus(dst, size, dstInc, n);
    BlockWord(src, size, srcInc, n, i, k);
    BlockWord(dst, size, dstInc, n, i, k);
    BaseIs(src, srcInc, i);
    BaseIs(dst, dstInc, i);
    CopiedHas(mem, AllWords(loads), AllWords(stores), Position(size, i, k));
  }

  lemma InSpace(words: seq<nat>)
    requires forall a | a in words :: a < SPACE
    ensures Wrapped(words) == words
  {
    forall i | 0 <= i < |words|
      ensures Wrapped(words)[i] == words[i]
    {
      assert words[i] in words;
    }
  }

  // ---------- whether or not the operands fit ----------

  /** No word of the blocks lies behind the last word of the last one. */
  lemma {:induction false} WordsBelow(addr: nat, size: nat, inc: nat, rep: nat, a: nat)
    requires a in AllWords(Blocks(addr, size, inc, rep))
    ensures rep > 0 && size > 0 && a < addr + (rep - 1) * inc + size
    decreases rep
  {
    if rep > 0 {
      var rest := Blocks(addr + inc, size, inc, rep - 1);
      assert ([Cmd(addr, size, rep == 1)] + rest)[1..] == rest;
      if a in AllWords(rest) {
        WordsBelow(addr + inc, size, inc, rep - 1, a);
        assert (rep - 1) * inc == inc + (rep - 2) * inc;
      } else {
        Times(0, rep - 1, inc, inc);
      }
    }
  }

  /** With operands cut, the last word of the last block lies behind all words visited. */
  lemma LastMissed(addr: nat, size: nat, inc: nat, n: nat, size': nat, inc': nat, n': nat)
    requires n > 0 && size > 0 && size' <= size && inc' <= inc && n' <= n && (size' < size || (n > 1 && inc' < inc))
    ensures forall a | a in AllWords(Blocks(addr, size', inc', n')) :: a < WordAt(addr, inc, n - 1, size - 1)
  {
    forall a | a in AllWords(Blocks(addr, size', inc', n'))
      ensures a < WordAt(addr, inc, n - 1, size - 1)
    {
      WordsBelow(addr, size', inc', n', a);
      LaterEnd(size, inc, n, size', inc', n');
    }
  }

  lemma LaterEnd(size: nat, inc: nat, n: nat, size': nat, inc': nat, n': nat)
    requires 0 < n' <= n && 0 < size' <= size && inc' <= inc && (size' < size || (n > 1 && inc' < inc))
    ensures (n' - 1) * inc' + size' < (n - 1) * inc + size
  {
    Times(n' - 1, n - 1, inc', inc');
    assert (n - 1) * inc == (n - 1) * inc' + (n - 1) * (inc - inc');
    Times(1, if n > 1 then n - 1 else 1, inc - inc', inc - inc');
  }

  /** Cutting addresses brings no word behind all of them in reach. */
  lemma NotWrapped(words: seq<nat>, a: nat)
    requires a >= SPACE || forall w | w in words :: w < a
    ensures a !in Wrapped(words)
  {
    var cut := Wrapped(words);
    forall i | 0 <= i < |cut|
      ensures cut[i] != a
    {
      assert words[i] in words;
    }
  }

  /** All values come from words of the source blocks; words outside the destination blocks keep theirs. */
  ghost predicate Traced(s: State, mem: Memory, from: seq<nat>, to: seq<nat>) {
    && (forall a | a in ToRead(s.r) :: a in from) && (forall a | a in ToWrite(s.w) :: a in to)
    && (forall v | v in s.stream :: Source(mem, from, v))
    && (forall a | a in s.mem :: (a in mem && s.mem[a] == mem[a]) || (a in to && Source(mem, from, s.mem[a])))
    && (forall a | a in mem :: a in s.mem)
  }

  ghost predicate Source(mem: Memory, from: seq<nat>, v: nat) {
    exists x :: x in from && x in mem && mem[x] == v
  }

  lemma SourceOf(mem: Memory, from: seq<nat>, x: nat)
    requires x in from && x in mem
    ensures Source(mem, from, mem[x])
  {
  }

  lemma {:induction false} TracedStep(s: State, step: Step, mem: Memory, from: seq<nat>, to: seq<nat>)
    requires Traced(s, mem, from, to) && Enabled(s, step)
    ensures Traced(Next(s, step), mem, from, to)
  {
    hide ToRead, ToWrite, Source;
    if step.SendR? {
      FirstToRead(s.r);
      ReadersAgree(s.r, Next(s, SendR).r, Advance(s.r.sending));
      var a := s.r.sending.addr;
      assert ToRead(s.r)[0] == a;
      if a in mem {
        SourceOf(mem, from, a);
      }
    } else if step.StoreW? {
      FirstToWrite(s.w);
      WritersAgree(s.w, Next(s, StoreW).w, Advance(s.w.block));
      assert ToWrite(s.w)[0] == s.w.block.addr;
      assert s.stream[0] in s.stream;
    } else {
      SameWork(s, step);
    }
  }

  /** Every run, finished or not, of whatever commands. */
  lemma {:induction false} RunTraced(states: seq<State>, steps: seq<Step>, loads: seq<Cmd>, stores: seq<Cmd>,
                                     mem: Memory, n: nat)
    requires Run(states, steps) && states[0] == Initial(loads, stores, mem) && n < |states|
    ensures Traced(states[n], mem, ReadWords(loads), AllWords(stores))
    decreases n
  {
    hide Traced, Initial;
    if n == 0 {
      InitialTraced(loads, stores, mem);
    } else {
      RunTraced(states, steps, loads, stores, mem, n - 1);
      TracedStep(states[n - 1], steps[n - 1], mem, ReadWords(loads), AllWords(stores));
    }
  }

  lemma InitialTraced(loads: seq<Cmd>, stores: seq<Cmd>, mem: Memory)
    ensures Traced(Initial(loads, stores, mem), mem, ReadWords(loads), AllWords(stores))
  {
    hide AllWords, WordsOf, ReadWords;
    NoneLeft(NONE);
    EmptyWords();
  }

  lemma RunSize(states: seq<State>, steps: seq<Step>)
    requires Run(states, steps)
    ensures |states| == |steps| + 1
  {
  }

  /** A call of `lsu_smemcpy` on words in memory; addresses and sizes in bytes. */
  datatype Request = Request(src: nat, dst: nat, size: nat, srcInc: nat, dstInc: nat, n: nat)

  /**
   What the caller must see to: alignment, no wrap-around, a source that is disjoint from a destination without
   overlaps.
   */
  ghost predicate Proper(q: Request, mem: Memory) {
    && q.src % 8 == 0 && q.dst % 8 == 0 && q.size % 8 == 0 && q.srcInc % 8 == 0 && q.dstInc % 8 == 0
    && q.size > 0 && q.n > 0 && NoWrap(q.src, q.srcInc, q.n) && NoWrap(q.dst, q.dstInc, q.n)
    && Copyable(mem, q.src / 8, q.dst / 8, q.size / 8, q.srcInc / 8, q.dstInc / 8, q.n)
    && forall a | a in AllWords(Blocks(q.dst / 8, q.size / 8, q.dstInc / 8, q.n)) :: a in mem
  }

  /** A finished run of the engines on the two commands that `lsu_smemcpy` sends. */
  ghost predicate Finished(d: Depths, q: Request, mem: Memory, states: seq<State>, steps: seq<Step>) {
    && Run(states, steps)
    && states[0] == Initial(InWords(Expand(q.src, q.size, q.srcInc, q.n)),
       InWords(Expand(q.dst, q.size, q.dstInc, q.n)), mem)
    && Deep(d) && forall step :: !Ready(d, states[|steps|], step)
  }

  /**
   The operands fit the fields of the command registers and of a DMA command, and no source block reaches beyond the
   addresses that a load transaction can name.
   */
  predicate Fits(q: Request)
    requires q.n > 0
  {
    && q.size < SIZE_LIMIT && (q.n > 1 ==> q.srcInc < FIELD && q.dstInc < FIELD)
    && q.src + (q.n - 1) * q.srcInc + q.size <= ADDR_LIMIT
  }

  /** The same in words. */
  lemma LastByte(q: Request)
    requires q.src % 8 == 0 && q.size % 8 == 0 && q.srcInc % 8 == 0 && q.n > 0 && q.size > 0
    ensures q.src + (q.n - 1) * q.srcInc + q.size <= ADDR_LIMIT
            <==> WordAt(q.src / 8, q.srcInc / 8, q.n - 1, q.size / 8) <= SPACE
    ensures WordAt(q.src / 8, q.srcInc / 8, q.n - 1, q.size / 8)
            == WordAt(q.src / 8, q.srcInc / 8, q.n - 1, q.size / 8 - 1) + 1
  {
    var a, b, c := q.src / 8, q.srcInc / 8, q.size / 8;
    assert (q.n - 1) * (8 * b) == 8 * ((q.n - 1) * b);
  }

  /** Word `k` of block `i` has arrived. */
  ghost predicate Arrived(q: Request, mem: Memory, mem': Memory, i: nat, k: nat) {
    var a, b := WordAt(q.src / 8, q.srcInc / 8, i, k), WordAt(q.dst / 8, q.dstInc / 8, i, k);
    a in mem && b in mem' && mem'[b] == mem[a]
  }

  /** Distinct destination words leave room for fewer blocks than the repetition field can count. */
  lemma FewBlocks(q: Request, mem: Memory)
    requires Proper(q, mem)
    ensures q.n < FIELD
  {
    if q.n > 1 {
      var d, z, inc := q.dst / 8, q.size / 8, q.dstInc / 8;
      BlockWord(d, z, inc, q.n, 0, 0);
      BlockWord(d, z, inc, q.n, 1, 0);
      assert Position(z, 1, 0) == z && Base(d, inc, 1) == Base(d + inc, inc, 0) == d + inc;
      assert q.dstInc >= 8;
      Times(q.n - 1, q.n - 1, 8, q.dstInc);
    }
  }

  lemma SameBlocks(addr: nat, size: nat, inc: nat, inc': nat, n: nat)
    requires n <= 1 || inc == inc'
    ensures Blocks(addr, size, inc, n) == Blocks(addr, size, inc', n)
  {
    if n == 1 {
      assert Blocks(addr + inc, size, inc, 0) == Blocks(addr + inc', size, inc', 0) == [];
    }
  }

  /** When the operands fit, the commands are those of the blocks. */
  lemma FittingBlocks(q: Request, mem: Memory)
    requires Proper(q, mem) && Fits(q)
    ensures InWords(Expand(q.src, q.size, q.srcInc, q.n)) == Blocks(q.src / 8, q.size / 8, q.srcInc / 8, q.n)
    ensures InWords(Expand(q.dst, q.size, q.dstInc, q.n)) == Blocks(q.dst / 8, q.size / 8, q.dstInc / 8, q.n)
  {
    hide Copyable, Expand, InWords, Blocks, NoWrap;
    FewBlocks(q, mem);
    ExpandIs(q.src, q.size, q.srcInc, q.n);
    ExpandIs(q.dst, q.size, q.dstInc, q.n);
    SameBlocks(q.src / 8, q.size / 8, q.srcInc % FIELD / 8, q.srcInc / 8, q.n);
    SameBlocks(q.dst / 8, q.size / 8, q.dstInc % FIELD / 8, q.dstInc / 8, q.n);
  }

  /** Every run copies every word of every block when the operands fit, and each engine sends one status. */
  lemma SmemcpyCopies(d: Depths, q: Request, mem: Memory, states: seq<State>, steps: seq<Step>, i: nat, k: nat)
    requires Proper(q, mem) && Finished(d, q, mem, states, steps) && Fits(q) && i < q.n && k < q.size / 8
    ensures var s := states[|steps|];
            Done(s) && s.r.status == 1 && s.w.status == 1 && Arrived(q, mem, s.mem, i, k)
  {
    hide Run, Enabled, Ready, Initial, Done, Blocks, Expand, InWords, Copyable, NoWrap, WordAt;
    FittingBlocks(q, mem);
    LastByte(q);
    BlocksCopied(d, states, steps, mem, q.src / 8, q.dst / 8, q.size / 8, q.srcInc / 8, q.dstInc / 8, q.n, i, k);
  }

  /** No two words of memory have the same contents. */
  ghost predicate Telling(mem: Memory) {
    forall a, b | a in mem && b in mem && a != b :: mem[a] != mem[b]
  }

  /** The last word of the last block, read and written. */
  lemma LastWords(mem: Memory, src: nat, dst: nat, size: nat, srcInc: nat, dstInc: nat, n: nat)
    requires size > 0 && n > 0 && Copyable(mem, src, dst, size, srcInc, dstInc, n)
    requires forall a | a in AllWords(Blocks(dst, size, dstInc, n)) :: a in mem
    ensures var a, b := WordAt(src, srcInc, n - 1, size - 1), WordAt(dst, dstInc, n - 1, size - 1);
            a in mem && b in mem && a != b
  {
    hide AllWords, Blocks, Position;
    BlockWord(src, size, srcInc, n, n - 1, size - 1);
    BlockWord(dst, size, dstInc, n, n - 1, size - 1);
    BaseIs(src, srcInc, n - 1);
    BaseIs(dst, dstInc, n - 1);
  }

  /** With a size, a stride or an address cut, no run brings the last word of the last block. */
  lemma BlocksMissed(states: seq<State>, steps: seq<Step>, mem: Memory, src: nat, dst: nat, size: nat, srcInc: nat,
                     dstInc: nat, n: nat, size': nat, srcInc': nat, dstInc': nat, n': nat)
    requires n > 0 && size > 0 && size' <= size && srcInc' <= srcInc && dstInc' <= dstInc && n' <= n
    requires size' < size || (n > 1 && (srcInc' < srcInc || dstInc' < dstInc))
             || WordAt(src, srcInc, n - 1, size - 1) >= SPACE
    requires Run(states, steps)
    requires states[0] == Initial(Blocks(src, size', srcInc', n'), Blocks(dst, size', dstInc', n'), mem)
    requires Telling(mem)
    requires var a, b := WordAt(src, srcInc, n - 1, size - 1), WordAt(dst, dstInc, n - 1, size - 1);
             a in mem && b in mem && a != b
    ensures |states| == |steps| + 1
    ensures var a, b, s := WordAt(src, srcInc, n - 1, size - 1), WordAt(dst, dstInc, n - 1, size - 1), states[|steps|];
            b in s.mem && s.mem[b] != mem[a]
  {
    hide Run, Initial, Blocks, AllWords, ToRead, ToWrite, WordAt;
    RunSize(states, steps);
    RunTraced(states, steps, Blocks(src, size', srcInc', n'), Blocks(dst, size', dstInc', n'), mem, |steps|);
    if size' < size || (n > 1 && dstInc' < dstInc) {
      LastMissed(dst, size, dstInc, n, size', dstInc', n');
    } else {
      if n > 1 && srcInc' < srcInc {
        LastMissed(src, size, srcInc, n, size', srcInc', n');
      }
      NotWrapped(AllWords(Blocks(src, size', srcInc', n')), WordAt(src, srcInc, n - 1, size - 1));
    }
  }

  /** Cutting makes operands smaller, and smaller by whole words. */
  lemma CutSmaller(x: nat)
    ensures x % SIZE_LIMIT / 8 <= x / 8 && x % SIZE_LIMIT <= x && (x >= SIZE_LIMIT ==> x % SIZE_LIMIT / 8 < x / 8)
    ensures x % FIELD / 8 <= x / 8 && x % FIELD <= x && (x >= FIELD ==> x % FIELD / 8 < x / 8)
  {
  }

  /** Otherwise no run can bring the last word of the last block, whatever it does to the others. */
  lemma SmemcpyMisses(d: Depths, q: Request, mem: Memory, states: seq<State>, steps: seq<Step>)
    requires Proper(q, mem) && Finished(d, q, mem, states, steps) && !Fits(q) && Telling(mem)
    ensures !Arrived(q, mem, states[|steps|].mem, q.n - 1, q.size / 8 - 1)
  {
    hide Run, Enabled, Ready, Initial, Blocks, Expand, InWords, Copyable, NoWrap, AllWords, WordAt, Telling;
    LastWords(mem, q.src / 8, q.dst / 8, q.size / 8, q.srcInc / 8, q.dstInc / 8, q.n);
    ExpandIs(q.src, q.size, q.srcInc, q.n);
    ExpandIs(q.dst, q.size, q.dstInc, q.n);
    LastByte(q);
    CutSmaller(q.size);
    CutSmaller(q.srcInc);
    CutSmaller(q.dstInc);
    BlocksMissed(states, steps, mem, q.src / 8, q.dst / 8, q.size / 8, q.srcInc / 8, q.dstInc / 8, q.n,
                 q.size % SIZE_LIMIT / 8, q.srcInc % FIELD / 8, q.dstInc % FIELD / 8, q.n % FIELD);
  }

  /**
   `lsu_smemcpy` copies all blocks, whatever memory holds and however the engines interleave, exactly when the operands
   fit.
   */
  lemma SmemcpyExact(d: Depths, q: Request, mem: Memory, states: seq<State>, steps: seq<Step>)
    requires Proper(q, mem) && Finished(d, q, mem, states, steps) && Telling(mem)
    ensures |states| == |steps| + 1
    ensures (forall i: nat, k: nat | i < q.n && k < q.size / 8 :: Arrived(q, mem, states[|steps|].mem, i, k))
            <==> Fits(q)
  {
    hide Run, Enabled, Ready, Initial, Expand, InWords, Blocks, Copyable, NoWrap, Telling, Arrived;
    RunSize(states, steps);
    if Fits(q) {
      forall i: nat, k: nat | i < q.n && k < q.size / 8
        ensures Arrived(q, mem, states[|steps|].mem, i, k)
      {
        SmemcpyCopies(d, q, mem, states, steps, i, k);
      }
    } else {
      SmemcpyMisses(d, q, mem, states, steps);
    }
  }

  /** A block of exactly 16 MB becomes an empty command: nothing is moved and no status is ever sent. */
  lemma WholeBlockLost(addr: nat, inc: nat)
    ensures AllWords(InWords(Expand(addr, SIZE_LIMIT, inc, 1))) == []
            && AllAsk(InWords(Expand(addr, SIZE_LIMIT, inc, 1))) == 0
  {
    var e := Expand(addr, SIZE_LIMIT, inc, 1);
    assert e == [Cmd(Wrap(addr), 0, true)];
    assert InWords(e) == [Cmd(Wrap(addr) / 8, 0, true)];
    NoneLeft(Cmd(Wrap(addr) / 8, 0, true));
    assert InWords(e)[1..] == [];
  }

  /** A stride of 1 GB is lost: both blocks go to the same place. */
  lemma StrideLost()
    ensures var q := Request(0, 64, 8, 8, FIELD, 2);
            && NoWrap(q.src, q.srcInc, q.n) && NoWrap(q.dst, q.dstInc, q.n) && !Fits(q)
            && Expand(q.dst, q.size, q.dstInc, q.n) == [Cmd(64, 8, false), Cmd(64, 8, true)]
  {
    assert Commands(64, 8, 0, 2) == [Cmd(64, 8, false)] + Commands(64, 8, 0, 1);
    assert Commands(64, 8, 0, 1) == [Cmd(64, 8, true)] + Commands(64, 8, 0, 0);
  }

  /** A block that reaches beyond 4 GB is read on from address 0. */
  lemma AddressLost()
    ensures var q := Request(0xFFFF_FFF8, 64, 16, 8, 8, 1);
            && NoWrap(q.src, q.srcInc, q.n) && NoWrap(q.dst, q.dstInc, q.n) && !Fits(q)
            && ReadWords(InWords(Expand(q.src, q.size, q.srcInc, q.n))) == [0x1FFF_FFFF, 0]
  {
    var e := Expand(0xFFFF_FFF8, 16, 8, 1);
    assert e == [Cmd(0xFFFF_FFF8, 16, true)];
    assert InWords(e) == [Cmd(0x1FFF_FFFF, 2, true)] && AllWords(InWords(e)[1..]) == [];
    assert AllWords(InWords(e)) == [0x1FFF_FFFF, 0x2000_0000];
  }
}
