/** Unsigned machine words as naturals with explicit widths, and their bitwise operations. */
module Words {

  const W32: nat := 0x1_0000_0000
  const W64: nat := 0x1_0000_0000_0000_0000

  function Pow2(n: nat): (p: nat)
    ensures p > 0
  {
    if n == 0 then 1 else 2 * Pow2(n - 1)
  }

  lemma Twice(x: nat, y: nat)
    ensures x * (2 * y) == 2 * (x * y)
  {
  }

  lemma PowNext(n: nat)
    requires n > 0
    ensures Pow2(n) == 2 * Pow2(n - 1)
  {
  }

  lemma {:induction false} PowAdd(a: nat, b: nat)
    ensures Pow2(a + b) == Pow2(a) * Pow2(b)
    decreases b
  {
    if b > 0 {
      hide Pow2;
      PowNext(a + b);
      PowNext(b);
      PowAdd(a, b - 1);
      Twice(Pow2(a), Pow2(b - 1));
    }
  }

  lemma {:induction false} PowMonotone(i: nat, n: nat)
    requires i <= n
    ensures Pow2(i) <= Pow2(n)
    decreases n
  {
    if i < n {
      PowMonotone(i, n - 1);
    }
  }

  lemma PowTable()
    ensures Pow2(0) == 1 && Pow2(1) == 2 && Pow2(2) == 4 && Pow2(3) == 8 && Pow2(4) == 0x10 && Pow2(5) == 0x20
    ensures Pow2(6) == 0x40 && Pow2(7) == 0x80 && Pow2(8) == 0x100 && Pow2(9) == 0x200 && Pow2(10) == 0x400
    ensures Pow2(11) == 0x800 && Pow2(12) == 0x1000 && Pow2(13) == 0x2000 && Pow2(14) == 0x4000
    ensures Pow2(15) == 0x8000 && Pow2(16) == 0x1_0000
  {
  }

  lemma Pow32(n: nat)
    requires n == 32
    ensures Pow2(n) == W32
  {
    PowTable();
    PowAdd(16, 16);
  }

  lemma Pow64(n: nat)
    requires n == 64
    ensures Pow2(n) == W64
  {
    Pow32(32);
    PowAdd(32, 32);
  }

  function And(x: nat, y: nat): (r: nat)
    ensures r <= x && r <= y
    decreases x, y
  {
    if x == 0 || y == 0 then 0
    else (if x % 2 == 1 && y % 2 == 1 then 1 else 0) + 2 * And(x / 2, y / 2)
  }

  function Or(x: nat, y: nat): nat
    decreases x + y
  {
    if x == 0 then y else if y == 0 then x
    else (if x % 2 == 1 || y % 2 == 1 then 1 else 0) + 2 * Or(x / 2, y / 2)
  }

  /** One's complement of a 32-bit word. */
  function Not32(x: nat): (r: nat)
    requires x < W32
  {
    W32 - 1 - x
  }

  /** Two's complement negation of a 32-bit word. */
  function Neg32(x: nat): (r: nat)
    requires x < W32
  {
    (W32 - x) % W32
  }

  function Shl32(x: nat, k: nat): (r: nat)
    ensures r < W32
  {
    (x * Pow2(k)) % W32
  }

  function Shr(x: nat, k: nat): nat
    decreases k, x
  {
    if k == 0 then x else Shr(x / 2, k - 1)
  }
}
