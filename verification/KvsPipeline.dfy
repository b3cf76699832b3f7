/**
 The key-value lookup pipeline as a state machine over tokens: a fork sends each key to the comparator and to the hash
 unit; hashes become index-driven loads whose words the comparator meets with the key again. Units and queues move in
 any order; bounded queues and stalls only take steps away.
 */
module KvsPipeline {
  import opened Words
  import opened ShortHash
  import opened HashPipeline
  import opened HashForms

  /** The fixed registers: hash mask, seed, table base in words, and slots per probe window. */
  datatype Config = Config(mask: nat, seed: Word, base: nat, probes: nat)

  type Memory = int -> nat

  /** The low `n` bytes of a number, least significant first. */
  function LowBytes(v: nat, n: nat): (b: seq<Byte>)
    ensures |b| == n
    decreases n, v
  {
    if n == 0 then [] else [v % 256] + LowBytes(v / 256, n - 1)
  }

  function KeyBytes(key: Word): (b: seq<Byte>)
    ensures |b| == 8
  {
    LowBytes(key, 8)
  }

  /** The masked hash of the bytes of a key. */
  function Index(cfg: Config, key: Word): nat {
    And(Hash(Start(cfg.seed), KeyBytes(key)).a, cfg.mask)
  }

  /** What the hash unit sends: the low word of what leaves its pipeline, masked. */
  function HashIndex(cfg: Config, key: Word): nat {
    And(Rounds(Absorb(Start(cfg.seed), 8, key, 0), STAGES - 1).a, cfg.mask)
  }

  /** The index register of the load unit has 30 bits. */
  const INDEX_LIMIT: nat := 0x4000_0000

  /** The words that a 32-bit address can name. */
  const SPACE: nat := 0x2000_0000

  /** The address of a load command for slot `index`. */
  function SlotAt(cfg: Config, index: nat): nat {
    (cfg.base + 2 * index) % SPACE
  }

  /** The length of a load in words: a DMA command counts bytes with 24 bits. */
  function LoadLength(cfg: Config): nat {
    16 * cfg.probes % 0x100_0000 / 8
  }

  /** The probe register has 10 bits and counts from 0. */
  predicate Proper(cfg: Config) {
    0 < cfg.probes <= 1024
  }

  /** Word `i` of the slots from slot `index` of the table on. */
  function TableWord(cfg: Config, index: nat, i: int): int {
    cfg.base + 2 * index + i
  }

  /** Two words per slot from a slot index on, with 32-bit addresses. */
  function WindowAt(cfg: Config, mem: Memory, index: nat): (w: seq<nat>)
    ensures |w| == 2 * cfg.probes && forall i | 0 <= i < |w| :: w[i] == mem(TableWord(cfg, index, i) % SPACE)
  {
    seq(2 * cfg.probes, i => mem(TableWord(cfg, index, i) % SPACE))
  }

  function Window(cfg: Config, mem: Memory, key: Word): seq<nat> {
    WindowAt(cfg, mem, Index(cfg, key))
  }

  /** A slot is its key word and a word with the value in its low and the probe count in its high half. */
  predicate Matches(slotKey: nat, meta: nat, key: Word) {
    meta / W32 != 0 && slotKey == key
  }

  /** The sequential lookup: the value of the first matching slot, else 0. */
  function Look(window: seq<nat>, key: Word): nat {
    if |window| < 2 then 0
    else if Matches(window[0], window[1], key) then window[1] % W32
    else Look(window[2..], key)
  }

  function Lookup(cfg: Config, mem: Memory, key: Word): nat {
    Look(Window(cfg, mem, key), key)
  }

  function Lookups(cfg: Config, mem: Memory, keys: seq<Word>): seq<nat> {
    seq(|keys|, i requires 0 <= i < |keys| => Lookup(cfg, mem, keys[i]))
  }

  // ---------- the units ----------

  /** The comparator: waiting for a key, or probing with `left` slots to go, perhaps with half a slot read. */
  datatype Comparator = Waiting | Probing(key: Word, half: seq<nat>, left: nat, found: bool)

  /** A load under way: words still to be fetched. */
  datatype Load = Load(addr: nat, size: nat)

  datatype State = State(source: seq<Word>, accepted: seq<Word>, toCompare: seq<Word>, toHash: seq<Word>,
                         hashing: seq<Word>, indices: seq<nat>, commands: seq<Load>, loading: Load, stream: seq<nat>,
                         comparator: Comparator, out: seq<nat>)

  datatype Step = Accept | HashIn | HashOut | Issue | StartLoad | LoadWord | TakeKey | TakeWord

  predicate Enabled(s: State, step: Step) {
    match step
    case Accept => s.source != []
    case HashIn => s.toHash != []
    case HashOut => s.hashing != []
    case Issue => s.indices != []
    case StartLoad => s.loading.size == 0 && s.commands != []
    case LoadWord => s.loading.size > 0
    case TakeKey => s.comparator.Waiting? && s.toCompare != []
    case TakeWord => s.comparator.Probing? && s.stream != []
  }

  /** The comparator after one more word: it answers at the first match, or with 0 behind the last slot. */
  function Compare(c: Comparator, word: nat): (Comparator, seq<nat>)
    requires c.Probing?
  {
    if c.half == [] then (c.(half := [word]), [])
    else
      var hit := !c.found && Matches(c.half[0], word, c.key);
      var answer := if hit then [word % W32] else if c.left <= 1 && !c.found then [0] else [];
      if c.left <= 1 then (Waiting, answer)
      else (Probing(c.key, [], c.left - 1, c.found || hit), answer)
  }

  function Next(cfg: Config, mem: Memory, s: State, step: Step): State
    requires Enabled(s, step)
  {
    match step
    case Accept =>
      var key := s.source[0];
      s.(source := s.source[1..], accepted := s.accepted + [key], toCompare := s.toCompare + [key],
          toHash := s.toHash + [key])
    case HashIn => s.(toHash := s.toHash[1..], hashing := s.hashing + [s.toHash[0]])
    case HashOut => s.(hashing := s.hashing[1..], indices := s.indices + [HashIndex(cfg, s.hashing[0]) % INDEX_LIMIT])
    case Issue => s.(indices := s.indices[1..],
        commands := s.commands + [Load(SlotAt(cfg, s.indices[0]), LoadLength(cfg))])
    case StartLoad => s.(loading := s.commands[0], commands := s.commands[1..])
    case LoadWord => s.(loading := Load(s.loading.addr + 1, s.loading.size - 1),
        stream := s.stream + [mem(s.loading.addr % SPACE)])
    case TakeKey => s.(comparator := Probing(s.toCompare[0], [], cfg.probes, false), toCompare := s.toCompare[1..])
    case TakeWord =>
      var (c, answer) := Compare(s.comparator, s.stream[0]);
      s.(comparator := c, stream := s.stream[1..], out := s.out + answer)
  }

  // ---------- keys and their bytes ----------

  lemma NoHighWord(b: seq<Byte>)
    requires |b| == 8
    ensures Load64(b, 8) == 0
  {
  }

  lemma LowBytesFirst(v: nat, n: nat)
    requires n > 0
    ensures LowBytes(v, n)[0] == v % 256 && LowBytes(v, n)[1..] == LowBytes(v / 256, n - 1)
    ensures v == v % 256 + 256 * (v / 256)
  {
  }

  /** The value of bytes, least significant first. */
  function BytesValue(b: seq<Byte>): nat {
    if b == [] then 0 else b[0] + 256 * BytesValue(b[1..])
  }

  lemma {:induction false} BytesBack(b: seq<Byte>)
    ensures LowBytes(BytesValue(b), |b|) == b
    decreases b
  {
    if b != [] {
      BytesBack(b[1..]);
      assert BytesValue(b) % 256 == b[0] && BytesValue(b) / 256 == BytesValue(b[1..]);
    }
  }

  lemma {:induction false} ValueBack(v: nat, n: nat)
    requires v < Pow256(n)
    ensures BytesValue(LowBytes(v, n)) == v
    decreases n
  {
    if n > 0 {
      LowBytesFirst(v, n);
      ValueBack(v / 256, n - 1);
    }
  }

  function Pow256(n: nat): nat {
    if n == 0 then 1 else 256 * Pow256(n - 1)
  }

  lemma EightBytes(b: seq<Byte>)
    requires |b| == 8
    ensures BytesValue(b) == Load64(b, 0)
  {
    assert BytesValue(b) == b[0] + 256 * BytesValue(b[1..]);
    assert BytesValue(b[1..]) == b[1] + 256 * BytesValue(b[2..]) by { assert b[1..][1..] == b[2..]; }
    assert BytesValue(b[2..]) == b[2] + 256 * BytesValue(b[3..]) by { assert b[2..][1..] == b[3..]; }
    assert BytesValue(b[3..]) == b[3] + 256 * BytesValue(b[4..]) by { assert b[3..][1..] == b[4..]; }
    assert BytesValue(b[4..]) == b[4] + 256 * BytesValue(b[5..]) by { assert b[4..][1..] == b[5..]; }
    assert BytesValue(b[5..]) == b[5] + 256 * BytesValue(b[6..]) by { assert b[5..][1..] == b[6..]; }
    assert BytesValue(b[6..]) == b[6] + 256 * BytesValue(b[7..]) by { assert b[6..][1..] == b[7..]; }
    assert BytesValue(b[7..]) == b[7] by { assert b[7..][1..] == []; }
  }

  lemma Pow256Is(n: nat)
    requires n == 8
    ensures Pow256(n) == W64
  {
    assert Pow256(n) == 256 * Pow256(n - 1) && Pow256(n - 1) == 256 * Pow256(n - 2)
        && Pow256(n - 2) == 256 * Pow256(n - 3) && Pow256(n - 3) == 256 * Pow256(n - 4)
        && Pow256(n - 4) == 256 * Pow256(n - 5) && Pow256(n - 5) == 256 * Pow256(n - 6)
        && Pow256(n - 6) == 256 * Pow256(n - 7) && Pow256(n - 7) == 256 * Pow256(n - 8);
  }

  /** A key is what its eight bytes are as a little-endian word, and eight bytes are those of the word they load as. */
  lemma KeyLoads(key: Word, b: seq<Byte>)
    requires |b| == 8
    ensures Load64(KeyBytes(key), 0) == key && Load64(KeyBytes(key), 8) == 0
    ensures KeyBytes(Load64(b, 0)) == b
  {
    hide Load64, LowBytes, BytesValue, Pow256;
    Pow256Is(8);
    ValueBack(key, 8);
    EightBytes(KeyBytes(key));
    NoHighWord(KeyBytes(key));
    BytesBack(b);
    EightBytes(b);
  }

  /** The pipeline computes the hash of the key: eight bytes, zero padded to a block. */
  lemma IndexIsHash(cfg: Config, key: Word)
    ensures HashIndex(cfg, key) == Index(cfg, key)
  {
    hide Rounds, Absorb, Load64, Hash, KeyBytes;
    KeyLoads(key, KeyBytes(key));
    PipeIsHash(KeyBytes(key), cfg.seed);
  }

  /** Where software that hashes the bytes of a key finds the slots that the pipeline looks at. */
  method SoftSlot(cfg: Config, bytes: array<Byte>, ghost mem: Memory) returns (slot: nat)
    requires bytes.Length == 8
    ensures forall i | 0 <= i < 2 * cfg.probes ::
              Window(cfg, mem, Load64(bytes[..], 0))[i] == mem((cfg.base + 2 * slot + i) % SPACE)
  {
    hide Load64, Hash, KeyBytes;
    var out0, out1 := SoftHash(bytes, cfg.seed);
    KeyLoads(0, bytes[..]);
    slot := And(out0, cfg.mask);
  }

  // ---------- words on their way ----------

  function Fetched(mem: Memory, l: Load): (w: seq<nat>)
    ensures |w| == l.size && forall i | 0 <= i < |w| :: w[i] == mem((l.addr + i) % SPACE)
  {
    seq(l.size, i => mem((l.addr + i) % SPACE))
  }

  function OfCommands(mem: Memory, loads: seq<Load>): seq<nat> {
    if loads == [] then [] else Fetched(mem, loads[0]) + OfCommands(mem, loads[1..])
  }

  function OfIndices(cfg: Config, mem: Memory, indices: seq<nat>): seq<nat> {
    if indices == [] then [] else WindowAt(cfg, mem, indices[0]) + OfIndices(cfg, mem, indices[1..])
  }

  function OfKeys(cfg: Config, mem: Memory, keys: seq<Word>): seq<nat> {
    if keys == [] then [] else Window(cfg, mem, keys[0]) + OfKeys(cfg, mem, keys[1..])
  }

  /** All words that will still reach the comparator for the keys accepted so far. */
  function Coming(cfg: Config, mem: Memory, s: State): seq<nat> {
    s.stream + Fetched(mem, s.loading) + OfCommands(mem, s.commands) + OfIndices(cfg, mem, s.indices)
    + OfKeys(cfg, mem, s.hashing) + OfKeys(cfg, mem, s.toHash)
  }

  /** What the comparator still wants for its current key, given the words to come. */
  ghost predicate Expects(cfg: Config, mem: Memory, s: State, rest: seq<nat>) {
    match s.comparator
    case Waiting => rest == []
    case Probing(key, half, left, found) => 0 < left && |half| <= 1 && |rest| == 2 * left - |half|
  }

  /** Answers owed for the current key. */
  function Owed(c: Comparator, rest: seq<nat>): seq<nat> {
    if c.Probing? && !c.found then [Look(c.half + rest, c.key)] else []
  }

  /** The words to come are the rest of the current window and the windows of the waiting keys; answers are in order. */
  ghost predicate InStep(cfg: Config, mem: Memory, s: State, rest: seq<nat>) {
    && Proper(cfg) && Expects(cfg, mem, s, rest)
    && Coming(cfg, mem, s) == rest + OfKeys(cfg, mem, s.toCompare)
    && s.out + Owed(s.comparator, rest) + Lookups(cfg, mem, s.toCompare) == Lookups(cfg, mem, s.accepted)
  }

  // ---------- every step keeps the pipeline in step ----------

  lemma {:induction false} KeysAppend(cfg: Config, mem: Memory, keys: seq<Word>, key: Word)
    ensures OfKeys(cfg, mem, keys + [key]) == OfKeys(cfg, mem, keys) + Window(cfg, mem, key)
    decreases |keys|
  {
    hide Window;
    if keys == [] {
      assert keys + [key] == [key] && OfKeys(cfg, mem, [key][1..]) == [];
    } else {
      assert (keys + [key])[1..] == keys[1..] + [key];
      KeysAppend(cfg, mem, keys[1..], key);
    }
  }

  lemma {:induction false} IndicesAppend(cfg: Config, mem: Memory, indices: seq<nat>, index: nat)
    ensures OfIndices(cfg, mem, indices + [index]) == OfIndices(cfg, mem, indices) + WindowAt(cfg, mem, index)
    decreases |indices|
  {
    hide WindowAt;
    if indices == [] {
      assert indices + [index] == [index] && OfIndices(cfg, mem, [index][1..]) == [];
    } else {
      assert (indices + [index])[1..] == indices[1..] + [index];
      IndicesAppend(cfg, mem, indices[1..], index);
    }
  }

  lemma {:induction false} CommandsAppend(mem: Memory, loads: seq<Load>, l: Load)
    ensures OfCommands(mem, loads + [l]) == OfCommands(mem, loads) + Fetched(mem, l)
    decreases |loads|
  {
    hide Fetched;
    if loads == [] {
      assert loads + [l] == [l] && OfCommands(mem, [l][1..]) == [];
    } else {
      assert (loads + [l])[1..] == loads[1..] + [l];
      CommandsAppend(mem, loads[1..], l);
    }
  }

  lemma LoadIsWindow(cfg: Config, mem: Memory, index: nat)
    requires Proper(cfg)
    ensures Fetched(mem, Load(SlotAt(cfg, index), LoadLength(cfg))) == WindowAt(cfg, mem, index)
  {
    var w, f := WindowAt(cfg, mem, index), Fetched(mem, Load(SlotAt(cfg, index), LoadLength(cfg)));
    forall i | 0 <= i < |w|
      ensures f[i] == w[i]
    {
      SumCut(cfg.base + 2 * index, i);
    }
  }

  lemma SumCut(a: nat, b: nat)
    ensures (a % SPACE + b) % SPACE == (a + b) % SPACE
  {
  }

  lemma FetchedFirst(mem: Memory, l: Load)
    ensures l.size == 0 ==> Fetched(mem, l) == []
    ensures l.size > 0 ==> Fetched(mem, l) == [mem(l.addr % SPACE)] + Fetched(mem, Load(l.addr + 1, l.size - 1))
  {
  }

  /** The 30 bits of the index register are enough: they leave the 32 bits of every slot address alone. */
  lemma CutHarmless(cfg: Config, mem: Memory, index: nat)
    ensures WindowAt(cfg, mem, index % INDEX_LIMIT) == WindowAt(cfg, mem, index)
  {
    var w, v := WindowAt(cfg, mem, index % INDEX_LIMIT), WindowAt(cfg, mem, index);
    forall i | 0 <= i < |w|
      ensures w[i] == v[i]
    {
      IndexCut(cfg.base + i, index);
    }
  }

  lemma IndexCut(a: nat, index: nat)
    ensures (a + 2 * (index % INDEX_LIMIT)) % SPACE == (a + 2 * index) % SPACE
  {
    var q := index / INDEX_LIMIT;
    assert a + 2 * index == a + 2 * (index % INDEX_LIMIT) + SPACE * (4 * q);
  }

  lemma Handed(a: seq<nat>, b: seq<nat>, c: seq<nat>, d: seq<nat>)
    ensures a + (b + c) + d == a + b + (c + d)
  {
  }

  lemma HashInMoves(cfg: Config, mem: Memory, s: State)
    requires Enabled(s, HashIn)
    ensures Coming(cfg, mem, Next(cfg, mem, s, HashIn)) == Coming(cfg, mem, s)
  {
    hide Index, HashIndex, Window, WindowAt, Fetched, Compare;
    var key := s.toHash[0];
    var before := s.stream + Fetched(mem, s.loading) + OfCommands(mem, s.commands) + OfIndices(cfg, mem, s.indices);
    KeysAppend(cfg, mem, s.hashing, key);
    Handed(before, OfKeys(cfg, mem, s.hashing), Window(cfg, mem, key), OfKeys(cfg, mem, s.toHash[1..]));
  }

  lemma HashOutMoves(cfg: Config, mem: Memory, s: State)
    requires Enabled(s, HashOut)
    ensures Coming(cfg, mem, Next(cfg, mem, s, HashOut)) == Coming(cfg, mem, s)
  {
    hide Index, HashIndex, WindowAt, Fetched, Compare;
    var key := s.hashing[0];
    var before := s.stream + Fetched(mem, s.loading) + OfCommands(mem, s.commands);
    IndexIsHash(cfg, key);
    hide HashIndex;
    CutHarmless(cfg, mem, Index(cfg, key));
    IndicesAppend(cfg, mem, s.indices, Index(cfg, key) % INDEX_LIMIT);
    Handed(before, OfIndices(cfg, mem, s.indices), Window(cfg, mem, key), OfKeys(cfg, mem, s.hashing[1..]));
  }

  lemma IssueMoves(cfg: Config, mem: Memory, s: State)
    requires Enabled(s, Issue) && Proper(cfg)
    ensures Coming(cfg, mem, Next(cfg, mem, s, Issue)) == Coming(cfg, mem, s)
  {
    hide Index, HashIndex, Window, WindowAt, Fetched, Compare, SlotAt, LoadLength;
    var i := s.indices[0];
    CommandsAppend(mem, s.commands, Load(SlotAt(cfg, i), LoadLength(cfg)));
    LoadIsWindow(cfg, mem, i);
    Handed(s.stream + Fetched(mem, s.loading), OfCommands(mem, s.commands), WindowAt(cfg, mem, i),
           OfIndices(cfg, mem, s.indices[1..]));
  }

  lemma LoadMoves(cfg: Config, mem: Memory, s: State, step: Step)
    requires Enabled(s, step) && (step.StartLoad? || step.LoadWord?)
    ensures Coming(cfg, mem, Next(cfg, mem, s, step)) == Coming(cfg, mem, s)
  {
    hide Index, HashIndex, Window, WindowAt, Fetched, Compare, OfIndices, OfKeys;
    FetchedFirst(mem, s.loading);
    if step.StartLoad? {
      Handed(s.stream, [], Fetched(mem, s.commands[0]), OfCommands(mem, s.commands[1..]));
    } else {
      Handed([], s.stream, [mem(s.loading.addr % SPACE)], Fetched(mem, Load(s.loading.addr + 1, s.loading.size - 1)));
    }
  }

  /** Words move on without change from unit to unit. */
  lemma {:induction false} WordsMove(cfg: Config, mem: Memory, s: State, step: Step)
    requires Enabled(s, step) && (step.HashIn? || step.HashOut? || step.Issue? || step.StartLoad? || step.LoadWord?)
    requires Proper(cfg)
    ensures Coming(cfg, mem, Next(cfg, mem, s, step)) == Coming(cfg, mem, s)
  {
    hide Coming, Next;
    match step {
      case HashIn => HashInMoves(cfg, mem, s);
      case HashOut => HashOutMoves(cfg, mem, s);
      case Issue => IssueMoves(cfg, mem, s);
      case StartLoad => LoadMoves(cfg, mem, s, step);
      case LoadWord => LoadMoves(cfg, mem, s, step);
    }
  }

  lemma AcceptKeeps(cfg: Config, mem: Memory, s: State, rest: seq<nat>)
    requires InStep(cfg, mem, s, rest) && Enabled(s, Accept)
    ensures InStep(cfg, mem, Next(cfg, mem, s, Accept), rest)
  {
    hide Lookup, Window, Owed, OfKeys, OfIndices, OfCommands, Fetched, Lookups;
    var key := s.source[0];
    ComingMore(cfg, mem, s, key);
    KeysAppend(cfg, mem, s.toCompare, key);
    LookupsAppend(cfg, mem, s.toCompare, key);
    LookupsAppend(cfg, mem, s.accepted, key);
    var owed, later := s.out + Owed(s.comparator, rest), Lookups(cfg, mem, s.toCompare);
    assert owed + (later + [Lookup(cfg, mem, key)]) == owed + later + [Lookup(cfg, mem, key)];
    assert rest + (OfKeys(cfg, mem, s.toCompare) + Window(cfg, mem, key)) == rest + OfKeys(cfg, mem, s.toCompare)
           + Window(cfg, mem, key);
  }

  lemma ComingMore(cfg: Config, mem: Memory, s: State, key: Word)
    requires s.source != [] && key == s.source[0]
    ensures Coming(cfg, mem, Next(cfg, mem, s, Accept)) == Coming(cfg, mem, s) + Window(cfg, mem, key)
  {
    hide Window, OfKeys, OfIndices, OfCommands, Fetched;
    KeysAppend(cfg, mem, s.toHash, key);
  }

  lemma LookupsAppend(cfg: Config, mem: Memory, keys: seq<Word>, key: Word)
    ensures Lookups(cfg, mem, keys + [key]) == Lookups(cfg, mem, keys) + [Lookup(cfg, mem, key)]
  {
    hide Lookup;
  }

  lemma LookupsFirst(cfg: Config, mem: Memory, keys: seq<Word>)
    requires keys != []
    ensures Lookups(cfg, mem, keys) == [Lookup(cfg, mem, keys[0])] + Lookups(cfg, mem, keys[1..])
  {
    hide Lookup;
  }

  lemma TakeKeyKeeps(cfg: Config, mem: Memory, s: State, rest: seq<nat>)
    requires InStep(cfg, mem, s, rest) && Enabled(s, TakeKey)
    ensures InStep(cfg, mem, Next(cfg, mem, s, TakeKey), Window(cfg, mem, s.toCompare[0]))
  {
    hide Index, HashIndex, WindowAt, Fetched, OfIndices, OfCommands;
    var key := s.toCompare[0];
    LookupsFirst(cfg, mem, s.toCompare);
    assert [] + Window(cfg, mem, key) == Window(cfg, mem, key);
    hide Lookups, Look;
  }

  lemma LookStep(w: seq<nat>, key: Word)
    requires |w| >= 2
    ensures Look(w, key) == if Matches(w[0], w[1], key) then w[1] % W32 else Look(w[2..], key)
    ensures Look([], key) == 0
  {
  }

  /** One word more for the comparator. */
  lemma CompareOwes(c: Comparator, rest: seq<nat>)
    requires c.Probing? && 0 < c.left && |c.half| <= 1 && |rest| == 2 * c.left - |c.half|
    ensures var (c', answer) := Compare(c, rest[0]);
            && answer + Owed(c', rest[1..]) == Owed(c, rest)
            && (if c'.Waiting? then rest[1..] == []
                else 0 < c'.left && |c'.half| <= 1 && |rest| - 1 == 2 * c'.left - |c'.half|)
  {
    hide Matches;
    if c.half == [] {
      assert [] + rest == [rest[0]] + rest[1..];
    } else {
      var w := c.half + rest;
      assert w[0] == c.half[0] && w[1] == rest[0] && w[2..] == rest[1..] && [] + rest[1..] == rest[1..];
      LookStep(w, c.key);
      if c.left == 1 {
        assert rest[1..] == [];
      }
    }
  }

  lemma TakeWordKeeps(cfg: Config, mem: Memory, s: State, rest: seq<nat>)
    requires InStep(cfg, mem, s, rest) && Enabled(s, TakeWord)
    ensures |rest| > 0 && InStep(cfg, mem, Next(cfg, mem, s, TakeWord), rest[1..])
  {
    hide OfKeys, OfIndices, OfCommands, Fetched, Lookups, Look;
    var later := OfKeys(cfg, mem, s.toCompare);
    assert rest[0] == (rest + later)[0] == Coming(cfg, mem, s)[0] == s.stream[0];
    CompareOwes(s.comparator, rest);
    hide Compare, Owed;
    assert (rest + later)[1..] == rest[1..] + later;
    ComingWithout(cfg, mem, s);
  }

  lemma ComingWithout(cfg: Config, mem: Memory, s: State)
    requires s.stream != []
    ensures Coming(cfg, mem, s)[1..] == Coming(cfg, mem, s.(stream := s.stream[1..]))
  {
  }

  lemma StepKeeps(cfg: Config, mem: Memory, s: State, step: Step, rest: seq<nat>) returns (rest': seq<nat>)
    requires InStep(cfg, mem, s, rest) && Enabled(s, step)
    ensures InStep(cfg, mem, Next(cfg, mem, s, step), rest')
  {
    hide Coming, Lookups, Owed, OfKeys, Window, Compare;
    rest' := rest;
    match step {
      case Accept => AcceptKeeps(cfg, mem, s, rest);
      case TakeKey =>
        TakeKeyKeeps(cfg, mem, s, rest);
        rest' := Window(cfg, mem, s.toCompare[0]);
      case TakeWord =>
        TakeWordKeeps(cfg, mem, s, rest);
        rest' := rest[1..];
      case _ => WordsMove(cfg, mem, s, step);
    }
  }

  // ---------- what an answer is ----------

  /** Slot `j` of the window from slot `slot` on holds the key and has been probed at least once. */
  predicate Hit(cfg: Config, mem: Memory, slot: nat, key: Word, j: nat) {
    mem((cfg.base + 2 * (slot + j)) % SPACE) == key && mem((cfg.base + 2 * (slot + j) + 1) % SPACE) >= 0x1_0000_0000
  }

  /** Told by words of memory: the low half of the second word of the first hit, or 0 if there is none. */
  ghost predicate Answer(cfg: Config, mem: Memory, slot: nat, key: Word, v: nat) {
    || (v == 0 && forall j: nat | j < cfg.probes :: !Hit(cfg, mem, slot, key, j))
    || exists j: nat | j < cfg.probes ::
         && Hit(cfg, mem, slot, key, j) && (forall i: nat | i < j :: !Hit(cfg, mem, slot, key, i))
         && v == mem((cfg.base + 2 * (slot + j) + 1) % SPACE) % 0x1_0000_0000
  }

  lemma {:induction false} LookFrom(cfg: Config, mem: Memory, slot: nat, key: Word, k: nat)
    requires k <= cfg.probes && forall i: nat | i < k :: !Hit(cfg, mem, slot, key, i)
    ensures Answer(cfg, mem, slot, key, Look(WindowAt(cfg, mem, slot)[2 * k..], key))
    decreases cfg.probes - k
  {
    var w := WindowAt(cfg, mem, slot);
    if k < cfg.probes {
      assert w[2 * k..][2..] == w[2 * (k + 1)..];
      LookStep(w[2 * k..], key);
      hide Look, WindowAt;
      assert w[2 * k] == mem(TableWord(cfg, slot, 2 * k) % SPACE)
          && w[2 * k + 1] == mem(TableWord(cfg, slot, 2 * k + 1) % SPACE);
      assert Hit(cfg, mem, slot, key, k) <==> Matches(w[2 * k], w[2 * k + 1], key);
      if !Hit(cfg, mem, slot, key, k) {
        LookFrom(cfg, mem, slot, key, k + 1);
      }
    }
  }

  /** The lookup of a key answers with the first hit in the window that its hash selects. */
  lemma LookupAnswers(cfg: Config, mem: Memory, key: Word)
    ensures Answer(cfg, mem, And(Hash(Start(cfg.seed), LowBytes(key, 8)).a, cfg.mask), key, Lookup(cfg, mem, key))
  {
    hide Hash, LowBytes, Look, Answer;
    var slot := Index(cfg, key);
    LookFrom(cfg, mem, slot, key, 0);
    assert WindowAt(cfg, mem, slot)[2 * 0..] == Window(cfg, mem, key);
  }

  // ---------- whole runs ----------

  ghost predicate Run(cfg: Config, mem: Memory, states: seq<State>, steps: seq<Step>) {
    && |states| == |steps| + 1
    && forall n | 0 <= n < |steps| ::
         Enabled(states[n], steps[n]) && states[n + 1] == Next(cfg, mem, states[n], steps[n])
  }

  function Initial(keys: seq<Word>): State {
    State.State(keys, [], [], [], [], [], [], Load(0, 0), [], Waiting, [])
  }

  lemma {:induction false} RunKeeps(cfg: Config, mem: Memory, states: seq<State>, steps: seq<Step>, keys: seq<Word>,
                                    n: nat)
    returns (rest: seq<nat>)
    requires Proper(cfg) && Run(cfg, mem, states, steps) && states[0] == Initial(keys) && n < |states|
    ensures InStep(cfg, mem, states[n], rest) && states[n].accepted + states[n].source == keys
    decreases n
  {
    hide InStep, Initial;
    if n == 0 {
      rest := [];
      InitialInStep(cfg, mem, keys);
    } else {
      rest := RunKeeps(cfg, mem, states, steps, keys, n - 1);
      var s := states[n - 1];
      assert s.source != [] ==> s.source == [s.source[0]] + s.source[1..];
      rest := StepKeeps(cfg, mem, s, steps[n - 1], rest);
    }
  }

  lemma InitialInStep(cfg: Config, mem: Memory, keys: seq<Word>)
    requires Proper(cfg)
    ensures InStep(cfg, mem, Initial(keys), []) && Initial(keys).accepted + Initial(keys).source == keys
  {
    FetchedFirst(mem, Load(0, 0));
  }

  /** However the units interleave and stall, the values emitted are a prefix of the sequential lookups of the keys. */
  lemma EmitsPrefix(cfg: Config, mem: Memory, states: seq<State>, steps: seq<Step>, keys: seq<Word>)
    requires Proper(cfg) && Run(cfg, mem, states, steps) && states[0] == Initial(keys)
    ensures var out := states[|steps|].out; |out| <= |keys| && out == Lookups(cfg, mem, keys)[..|out|]
    ensures forall i | 0 <= i < |states[|steps|].out| ::
              Answer(cfg, mem, And(Hash(Start(cfg.seed), LowBytes(keys[i], 8)).a, cfg.mask), keys[i],
                     states[|steps|].out[i])
  {
    hide Initial, Lookup, Coming, Owed;
    var s := states[|steps|];
    var rest := RunKeeps(cfg, mem, states, steps, keys, |steps|);
    var all, some := Lookups(cfg, mem, keys), Lookups(cfg, mem, s.accepted);
    forall i | 0 <= i < |some|
      ensures all[i] == some[i]
    {
      assert keys[i] == s.accepted[i];
    }
    assert s.out == some[..|s.out|];
    hide Answer, Hash, LowBytes;
    forall i | 0 <= i < |s.out|
      ensures Answer(cfg, mem, And(Hash(Start(cfg.seed), LowBytes(keys[i], 8)).a, cfg.mask), keys[i], s.out[i])
    {
      assert s.out[i] == all[i];
      LookupAnswers(cfg, mem, keys[i]);
    }
  }

  /** When nothing is left in the pipeline, every key has been answered. */
  lemma AnswersAll(cfg: Config, mem: Memory, states: seq<State>, steps: seq<Step>, keys: seq<Word>)
    requires Proper(cfg) && Run(cfg, mem, states, steps) && states[0] == Initial(keys)
    requires forall step :: !Enabled(states[|steps|], step)
    ensures states[|steps|].out == Lookups(cfg, mem, keys)
  {
    hide Initial, Lookup, InStep;
    var s := states[|steps|];
    var rest := RunKeeps(cfg, mem, states, steps, keys, |steps|);
    assert !Enabled(s, Accept) && !Enabled(s, HashIn) && !Enabled(s, HashOut) && !Enabled(s, Issue)
           && !Enabled(s, StartLoad)
           && !Enabled(s, LoadWord) && !Enabled(s, TakeKey) && !Enabled(s, TakeWord);
    assert s.accepted == keys;
    AllStill(cfg, mem, s, rest);
  }

  /** A pipeline in which nothing can move has answered every accepted key. */
  lemma AllStill(cfg: Config, mem: Memory, s: State, rest: seq<nat>)
    requires InStep(cfg, mem, s, rest) && s.toHash == [] && s.hashing == [] && s.indices == [] && s.commands == []
             && s.loading.size == 0
    requires (s.comparator.Waiting? ==> s.toCompare == []) && (s.comparator.Probing? ==> s.stream == [])
    ensures s.out == Lookups(cfg, mem, s.accepted)
  {
    hide Lookup, Window, Fetched, Look;
    FetchedFirst(mem, s.loading);
    assert Coming(cfg, mem, s) == s.stream;
  }

  // ---------- the table ----------

  function TableWindow(cfg: Config, mem: Memory, index: nat): (w: seq<nat>)
    ensures |w| == 2 * cfg.probes && forall i | 0 <= i < |w| :: w[i] == mem(TableWord(cfg, index, i))
  {
    seq(2 * cfg.probes, i => mem(TableWord(cfg, index, i)))
  }

  /** The sequential lookup in a table that starts at the base, with addresses as they are. */
  function TableLookup(cfg: Config, mem: Memory, key: Word): nat {
    Look(TableWindow(cfg, mem, Index(cfg, key)), key)
  }

  /** A window is the one of the table exactly when the table window lies in the address space. */
  lemma WindowExact(cfg: Config, index: nat)
    requires Proper(cfg)
    ensures (forall i | 0 <= i < 2 * cfg.probes :: TableWord(cfg, index, i) % SPACE == TableWord(cfg, index, i))
            <==> cfg.base + 2 * index + 2 * cfg.probes <= SPACE
  {
    var last := 2 * cfg.probes - 1;
    assert TableWord(cfg, index, last) == cfg.base + 2 * index + last;
  }

  lemma IndexBelow(cfg: Config, key: Word)
    ensures Index(cfg, key) <= cfg.mask
  {
    hide Hash;
  }

  /** For a table with all its windows in the address space, the pipeline looks up what the table says. */
  lemma LookupIsTable(cfg: Config, mem: Memory, key: Word)
    requires Proper(cfg) && cfg.base + 2 * cfg.mask + 2 * cfg.probes <= SPACE
    ensures Lookup(cfg, mem, key) == TableLookup(cfg, mem, key)
  {
    hide Index, HashIndex, Look;
    IndexBelow(cfg, key);
    WindowExact(cfg, Index(cfg, key));
    assert Window(cfg, mem, key) == TableWindow(cfg, mem, Index(cfg, key));
  }

  /** A window that reaches beyond 4 GB is read on from address 0. */
  lemma WindowLost(mem: Memory, seed: Word)
    ensures WindowAt(Config(0, seed, SPACE - 2, 2), mem, 0) == [mem(SPACE - 2), mem(SPACE - 1), mem(0), mem(1)]
  {
  }
}
