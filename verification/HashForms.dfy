/** The two C forms of the hash, proved against `ShortHash.Hash`. */
module HashForms {
  import opened Words
  import opened ShortHash

  lemma Sum4(x: Word, p: Word, q: Word, r: Word, s: Word)
    requires p + q + r + s < W64
    ensures Add(Add(Add(Add(x, p), q), r), s) == Add(x, p + q + r + s)
  {
  }

  /** `t` is the result of round `n` on the first `n - 1` rounds. */
  lemma Next(s: State, t: State, n: nat)
    requires n > 0 && t == Round(Rounds(s, n - 1), n)
    ensures t == Rounds(s, n)
  {
  }

  /** The eleven mixing statements. */
  method MixSoft(s: State) returns (t: State)
    ensures t == Rounds(s, 11)
  {
    hide Mix, Rotl, Rounds;
    var a, b, c, d := s.a, s.b, s.c, s.d;
    NoRounds(s);
    d, c := Mix(d, c, 15), Rotl(c, 15);
    Next(s, State(a, b, c, d), 1);
    a, d := Mix(a, d, 52), Rotl(d, 52);
    Next(s, State(a, b, c, d), 2);
    b, a := Mix(b, a, 26), Rotl(a, 26);
    Next(s, State(a, b, c, d), 3);
    c, b := Mix(c, b, 51), Rotl(b, 51);
    Next(s, State(a, b, c, d), 4);
    d, c := Mix(d, c, 28), Rotl(c, 28);
    Next(s, State(a, b, c, d), 5);
    a, d := Mix(a, d, 9), Rotl(d, 9);
    Next(s, State(a, b, c, d), 6);
    b, a := Mix(b, a, 47), Rotl(a, 47);
    Next(s, State(a, b, c, d), 7);
    c, b := Mix(c, b, 54), Rotl(b, 54);
    Next(s, State(a, b, c, d), 8);
    d, c := Mix(d, c, 32), Rotl(c, 32);
    Next(s, State(a, b, c, d), 9);
    a, d := Mix(a, d, 25), Rotl(d, 25);
    Next(s, State(a, b, c, d), 10);
    b, a := Mix(b, a, 63), Rotl(a, 63);
    Next(s, State(a, b, c, d), 11);
    t := State(a, b, c, d);
  }

  lemma NoRounds(s: State)
    ensures Rounds(s, 0) == s
  {
  }

  lemma AddZero(x: Word)
    ensures Add(x, 0) == x
  {
  }

  /** One statement of the fall-through switch: it runs when the key reaches byte `i`. */
  method AddByte(x: Word, p: seq<Byte>, i: nat, scale: nat) returns (y: Word)
    requires scale <= 0x1_0000_0000_0000
    ensures ByteAt(p, i) * scale < W64 && y == Add(x, ByteAt(p, i) * scale)
  {
    assert ByteAt(p, i) * scale <= 255 * 0x1_0000_0000_0000;
    AddZero(x);
    y := x;
    if |p| > i {
      y := Add(x, p[i] * scale);
    }
  }

  /** Seven bytes behind position `i`: the high three in falling order, then the low four. */
  method AddSeven(x: Word, p: seq<Byte>, i: nat) returns (y: Word)
    requires |p| < i + 8
    ensures y == Add(x, Load64(p, i))
  {
    hide Add;
    y := AddByte(x, p, i + 6, 0x1_0000_0000_0000);
    y := AddByte(y, p, i + 5, 0x100_0000_0000);
    y := AddByte(y, p, i + 4, 0x1_0000_0000);
    y := Add(y, Load32(p, i));
    SevenBytes(p, i);
    Sum4(x, ByteAt(p, i + 6) * 0x1_0000_0000_0000, ByteAt(p, i + 5) * 0x100_0000_0000,
         ByteAt(p, i + 4) * 0x1_0000_0000, Load32(p, i));
  }

  lemma SevenBytes(p: seq<Byte>, i: nat)
    requires |p| < i + 8
    ensures ByteAt(p, i + 6) * 0x1_0000_0000_0000 + ByteAt(p, i + 5) * 0x100_0000_0000
            + ByteAt(p, i + 4) * 0x1_0000_0000 + Load32(p, i)
         == Load64(p, i)
  {
  }

  /** Three bytes behind position `i`. */
  method AddThree(x: Word, p: seq<Byte>, i: nat) returns (y: Word)
    requires |p| < i + 4
    ensures y == Add(x, Load64(p, i))
  {
    hide Add;
    y := AddByte(x, p, i + 2, 0x1_0000);
    y := AddByte(y, p, i + 1, 0x100);
    y := AddByte(y, p, i, 1);
    AddZero(y);
    Sum4(x, ByteAt(p, i + 2) * 0x1_0000, ByteAt(p, i + 1) * 0x100, ByteAt(p, i), 0);
  }

  lemma NothingBehind(p: seq<Byte>, i: nat)
    requires |p| <= i
    ensures Load64(p, i) == 0
  {
  }

  /** The tail of 1 to 15 bytes. */
  method AddTail(p: seq<Byte>, c0: Word, d0: Word) returns (c: Word, d: Word)
    requires 0 < |p| < 16
    ensures c == Add(c0, Load64(p, 0)) && d == Add(d0, Load64(p, 8))
  {
    hide Add, Load64;
    c, d := c0, d0;
    AddZero(d0);
    if |p| >= 12 {
      d := AddSeven(d, p, 8);
      c := Add(c, Load64(p, 0));
    } else if |p| >= 8 {
      d := AddThree(d, p, 8);
      c := Add(c, Load64(p, 0));
    } else if |p| >= 4 {
      NothingBehind(p, 8);
      c := AddSeven(c, p, 0);
    } else {
      NothingBehind(p, 8);
      c := AddThree(c, p, 0);
    }
  }

  /** `short128_hash`, software version. */
  method SoftHash(key: array<Byte>, seed: Word) returns (out0: Word, out1: Word)
    requires key.Length < W32
    ensures var h := Hash(Start(seed), key[..]); out0 == h.a && out1 == h.b
  {
    hide Xor, Add, Rounds, Load64, Not;
    var s := State(seed, seed, INIT, INIT);
    var rest := key[..];
    while |rest| > 0
      invariant |rest| < W32 && Hash(s, rest) == Hash(Start(seed), key[..])
      decreases |rest|
    {
      var len := |rest|;
      var a, b := Xor(s.a, len), Xor(s.b, Not(len));
      var c, d := s.c, s.d;
      var next: seq<Byte>;
      if len < 16 {
        c, d := AddTail(rest, c, d);
        next := [];
      } else {
        c := Add(c, Load64(rest, 0));
        d := Add(d, Load64(rest, 8));
        next := rest[16..];
      }
      s := MixSoft(State(a, b, c, d));
      rest := next;
    }
    out0, out1 := s.a, s.b;
  }

  // ---------- the staged form ----------

  /** The staged `EMIX`. */
  method Emix(y: array<Word>, x: array<Word>, w: array<Word>, v: array<Word>, k: nat, n: nat)
    requires 0 < n < 12 && y.Length == 12 && x.Length == 12 && w.Length == 12 && v.Length == 12
    requires y != x && y != w && y != v && x != w && x != v && w != v
    modifies y, x, w, v
    ensures v[n] == old(v[n - 1]) && w[n] == old(w[n - 1]) && x[n] == Rotl(old(x[n - 1]), k)
    ensures y[n] == Mix(old(y[n - 1]), old(x[n - 1]), k)
  {
    v[n] := v[n - 1];
    w[n] := w[n - 1];
    x[n] := Rotl(x[n - 1], k);
    y[n] := Add(Xor(y[n - 1], x[n - 1]), x[n]);
  }

  method MixStaged(a: array<Word>, b: array<Word>, c: array<Word>, d: array<Word>)
    requires a.Length == 12 && b.Length == 12 && c.Length == 12 && d.Length == 12
    requires a != b && a != c && a != d && b != c && b != d && c != d
    modifies a, b, c, d
    ensures State(a[11], b[11], c[11], d[11]) == Rounds(old(State(a[0], b[0], c[0], d[0])), 11)
  {
    hide Mix, Rotl, Rounds;
    ghost var s := State(a[0], b[0], c[0], d[0]);
    NoRounds(s);
    Emix(d, c, b, a, 15, 1);
    Next(s, State(a[1], b[1], c[1], d[1]), 1);
    Emix(a, d, c, b, 52, 2);
    Next(s, State(a[2], b[2], c[2], d[2]), 2);
    Emix(b, a, d, c, 26, 3);
    Next(s, State(a[3], b[3], c[3], d[3]), 3);
    Emix(c, b, a, d, 51, 4);
    Next(s, State(a[4], b[4], c[4], d[4]), 4);
    Emix(d, c, b, a, 28, 5);
    Next(s, State(a[5], b[5], c[5], d[5]), 5);
    Emix(a, d, c, b, 9, 6);
    Next(s, State(a[6], b[6], c[6], d[6]), 6);
    Emix(b, a, d, c, 47, 7);
    Next(s, State(a[7], b[7], c[7], d[7]), 7);
    Emix(c, b, a, d, 54, 8);
    Next(s, State(a[8], b[8], c[8], d[8]), 8);
    Emix(d, c, b, a, 32, 9);
    Next(s, State(a[9], b[9], c[9], d[9]), 9);
    Emix(a, d, c, b, 25, 10);
    Next(s, State(a[10], b[10], c[10], d[10]), 10);
    Emix(b, a, d, c, 63, 11);
    Next(s, State(a[11], b[11], c[11], d[11]), 11);
  }

  /** The key copied into 16 zeroed bytes. */
  function Padded(key: seq<Byte>): seq<Byte>
    requires |key| < 16
  {
    key + seq(16 - |key|, i => 0)
  }

  lemma PaddedLoads(key: seq<Byte>, i: nat)
    requires |key| < 16
    ensures Load64(Padded(key), i) == Load64(key, i)
  {
    forall j: nat
      ensures ByteAt(Padded(key), j) == ByteAt(key, j)
    {
    }
  }

  /** `short128_hash`, pipelined version. */
  method StagedHash(key: array<Byte>, seed: Word) returns (out0: Word, out1: Word)
    requires key.Length < W32
    ensures var h := Hash(Start(seed), key[..]); out0 == h.a && out1 == h.b
  {
    hide Xor, Add, Rounds, Load64, Not;
    var a, b := new Word[12](i => 0), new Word[12](i => 0);
    var c, d := new Word[12](i => 0), new Word[12](i => 0);
    a[11], b[11], c[11], d[11] := seed, seed, INIT, INIT;
    var rest := key[..];
    while |rest| > 0
      invariant |rest| < W32 && Hash(State(a[11], b[11], c[11], d[11]), rest) == Hash(Start(seed), key[..])
      decreases |rest|
    {
      var len := |rest|;
      a[0] := Xor(a[11], len);
      b[0] := Xor(b[11], Not(len));
      var next: seq<Byte>;
      if len < 16 {
        var tmp := Padded(rest);
        PaddedLoads(rest, 0);
        PaddedLoads(rest, 8);
        c[0] := Add(c[11], Load64(tmp, 0));
        d[0] := Add(d[11], Load64(tmp, 8));
        next := [];
      } else {
        c[0] := Add(c[11], Load64(rest, 0));
        d[0] := Add(d[11], Load64(rest, 8));
        next := rest[16..];
      }
      MixStaged(a, b, c, d);
      rest := next;
    }
    out0, out1 := a[11], b[11];
  }
}
