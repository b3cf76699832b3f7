/** The generic (branch-free) `compute_tree_index`, proved to find the bin that a linear search would. */
module TreeIndexing {
  import opened Words
  import opened SizeClasses

  /** 32-bit subtraction. */
  function Sub32(a: nat, b: nat): nat
    requires b <= W32
  {
    (a + W32 - b) % W32
  }

  lemma {:induction false} ShrIs(x: nat, k: nat, q: nat)
    requires q * Pow2(k) <= x < (q + 1) * Pow2(k)
    ensures Shr(x, k) == q
    decreases k
  {
    if k > 0 {
      var p := Pow2(k - 1);
      assert q * (2 * p) == 2 * (q * p) && (q + 1) * (2 * p) == 2 * ((q + 1) * p);
      ShrIs(x / 2, k - 1, q);
    }
  }

  lemma BorrowIs(y: nat, t: nat)
    requires y < 0x1_0000 && t < 0x1_0000
    ensures Shr(Sub32(y, t), 16) == if y < t then 0xFFFF else 0
  {
    PowTable();
    ShrIs(Sub32(y, t), 16, if y < t then 0xFFFF else 0);
  }

  lemma LowOnes()
    ensures And(0xFFFF, 8) == 8 && And(0xFFFF, 4) == 4 && And(0xFFFF, 2) == 2
  {
  }

  lemma ProbeIs(y: nat, t: nat, b: nat)
    requires y < 0x1_0000 && t < 0x1_0000 && b in {2, 4, 8}
    ensures And(Shr(Sub32(y, t), 16), b) == if y < t then b else 0
  {
    BorrowIs(y, t);
    LowOnes();
    hide Shr;
  }

  lemma ShiftIs(y: nat, b: nat)
    requires y < 0x1_0000 && b in {0, 2, 4, 8}
    ensures Shl32(y, b) == if b == 8 then 0x100 * y else if b == 4 then 0x10 * y else if b == 2 then 4 * y else y
  {
    if b == 8 {
      assert Pow2(8) == 0x100;
    } else if b == 4 {
      assert Pow2(4) == 0x10;
    } else if b == 2 {
      assert Pow2(2) == 4;
    } else {
      assert Pow2(0) == 1;
    }
  }

  /** One probe: `b` and a left shift by `b` when `y` is below `t`, else nothing. */
  method Probe(y: nat, t: nat, b: nat) returns (n: nat, z: nat)
    requires y < 0x1_0000 && (t, b) in {(0x100, 8), (0x1000, 4), (0x4000, 2)}
    ensures n == if y < t then b else 0
    ensures z == if y >= t then y else if b == 8 then 0x100 * y else if b == 4 then 0x10 * y else 4 * y
  {
    hide Shr, And, Shl32;
    ProbeIs(y, t, b);
    n := And(Shr(Sub32(y, t), 16), b);
    ShiftIs(y, n);
    z := Shl32(y, n);
  }

  /** Undoing the shifts that brought the highest bit of `x` to position 14 or 15. */
  lemma TopBitRange(x: nat, y1: nat, y2: nat, y3: nat, n: nat)
    requires 0 < x < 0x1_0000
    requires y1 == if x < 0x100 then 0x100 * x else x
    requires y2 == if y1 < 0x1000 then 0x10 * y1 else y1
    requires y3 == if y2 < 0x4000 then 4 * y2 else y2
    requires n == (if x < 0x100 then 8 else 0) + (if y1 < 0x1000 then 4 else 0) + (if y2 < 0x4000 then 2 else 0)
    ensures 0x4000 <= y3 < 0x1_0000
    ensures var k := 14 - n + (if y3 < 0x8000 then 0 else 1); k <= 15 && Pow2(k) <= x < Pow2(k + 1)
  {
    PowTable();
  }

  lemma HighBit(y: nat)
    requires y < 0x1_0000
    ensures Shr(y, 15) == if y < 0x8000 then 0 else 1
  {
    PowTable();
    ShrIs(y, 15, if y < 0x8000 then 0 else 1);
  }

  /** Position of the highest set bit of a nonzero 16-bit value. */
  method TopBit(x: nat) returns (k: nat)
    requires 0 < x < 0x1_0000
    ensures k <= 15 && Pow2(k) <= x < Pow2(k + 1)
  {
    var n0, y1 := Probe(x, 0x100, 8);
    var n1, y2 := Probe(y1, 0x1000, 4);
    var n2, y3 := Probe(y2, 0x4000, 2);
    TopBitRange(x, y1, y2, y3, n0 + n1 + n2);
    HighBit(y3);
    k := 14 - (n0 + n1 + n2) + Shr(y3, 15);
  }

  lemma HalfBit(s: nat, e: nat, p: nat)
    requires p == Pow2(e) && 2 * p <= s < 4 * p
    ensures And(Shr(s, e), 1) == if s < 3 * p then 0 else 1
  {
    ShrIs(s, e, if s < 3 * p then 2 else 3);
    assert And(2, 1) == 0 && And(3, 1) == 1;
  }

  lemma IndexIs(s: nat, k: nat, i: nat)
    requires k <= 15 && (i == 2 * k || i == 2 * k + 1)
    requires var p := Pow2(k + 7); if i == 2 * k then 2 * p <= s < 3 * p else 3 * p <= s < 4 * p
    ensures BinOf(s) == i
  {
    assert i / 2 == k;
    MinSizeGrows(i);
    hide BinFrom;
    BinIsUnique(s, 0, i);
  }

  lemma IndexLast(s: nat)
    requires s / 256 > 0xFFFF
    ensures BinOf(s) == NBINS - 1
  {
    PowTable();
    PowAdd(16, 6);
    PowAdd(16, 7);
    BinIsUnique(s, 0, NBINS - 1);
  }

  /** `compute_tree_index`. */
  method ComputeTreeIndex(s: nat) returns (i: nat)
    requires MIN_LARGE <= s
    ensures i == BinOf(s)
    ensures MinSize(i) <= s && (i == NBINS - 1 || s < MinSize(i + 1))
  {
    LeastLarge();
    hide And, Shr, MinSize;
    PowTable();
    ShrIs(s, 8, s / 256);
    var x := Shr(s, 8);
    if x > 0xFFFF {
      IndexLast(s);
      i := NBINS - 1;
    } else {
      var k := TopBit(x);
      PowAdd(k, 8);
      var p := Pow2(k + 7);
      HalfBit(s, k + 7, p);
      i := 2 * k + And(Shr(s, k + 7), 1);
      IndexIs(s, k, i);
    }
  }
}
