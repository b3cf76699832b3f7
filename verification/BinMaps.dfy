/** Bin maps: 32-bit words with one bit per bin, and the branch-free macros that search them. */
module BinMaps {
  import opened Words

  /** `idx2bit`. */
  function Bit(i: nat): nat {
    Pow2(i)
  }

  predicate Has(m: nat, i: nat) {
    And(m, Bit(i)) != 0
  }

  function Mark(m: nat, i: nat): nat {
    Or(m, Bit(i))
  }

  function Clear(m: nat, i: nat): nat
    requires i < 32
  {
    BitBelow(i);
    And(m, Not32(Bit(i)))
  }

  /** Isolates the least set bit. */
  function LeastBit(x: nat): nat
    requires x < W32
  {
    And(x, Neg32(x))
  }

  /** All bits to the left of the least set bit of `x`. */
  function LeftBits(x: nat): nat
    requires x < W32
  {
    Or(Shl32(x, 1), Neg32(Shl32(x, 1)))
  }

  /** The generic `compute_bit2idx`: five folding steps on the ones below a single set bit. */
  function Bit2Idx(x: nat): nat
    requires 0 < x < W32
  {
    Fold16(x - 1)
  }

  function Fold16(y: nat): nat {
    var k := And(Shr(y, 12), 16);
    k + Fold8(Shr(y, k))
  }

  function Fold8(y: nat): nat {
    var k := And(Shr(y, 5), 8);
    k + Fold4(Shr(y, k))
  }

  function Fold4(y: nat): nat {
    var k := And(Shr(y, 2), 4);
    k + Fold2(Shr(y, k))
  }

  function Fold2(y: nat): nat {
    var k := And(Shr(y, 1), 2);
    k + Fold1(Shr(y, k))
  }

  function Fold1(y: nat): nat {
    var k := And(Shr(y, 1), 1);
    k + Shr(y, k)
  }

  lemma BitBelow(i: nat)
    requires i < 32
    ensures Bit(i) < W32
  {
    PowMonotone(i + 1, 32);
    Pow32(32);
  }

  /** Bits above the lowest are the bits of the halved word. */
  lemma HasHalf(m: nat, i: nat)
    ensures Has(m, 0) <==> m % 2 == 1
    ensures i > 0 ==> (Has(m, i) <==> Has(m / 2, i - 1))
  {
  }

  lemma {:induction false} OrHas(x: nat, y: nat, j: nat)
    ensures Has(Or(x, y), j) <==> Has(x, j) || Has(y, j)
    decreases j
  {
    if x != 0 && y != 0 {
      HasHalf(x, j);
      HasHalf(y, j);
      HasHalf(Or(x, y), j);
      if j > 0 {
        OrHas(x / 2, y / 2, j - 1);
      }
    }
  }

  lemma {:induction false} AndHas(x: nat, y: nat, j: nat)
    ensures Has(And(x, y), j) <==> Has(x, j) && Has(y, j)
    decreases j
  {
    if x != 0 && y != 0 {
      HasHalf(x, j);
      HasHalf(y, j);
      HasHalf(And(x, y), j);
      if j > 0 {
        AndHas(x / 2, y / 2, j - 1);
      }
    }
  }

  lemma {:induction false} BitHas(i: nat, j: nat)
    ensures Has(Bit(i), j) <==> i == j
    decreases j
  {
    HasHalf(Bit(i), j);
    if i > 0 && j > 0 {
      BitHas(i - 1, j - 1);
    }
  }

  /** The ones of `2^n - 2^k` are the bits from `k` up to `n`. */
  lemma {:induction false} OnesHas(n: nat, k: nat, j: nat)
    requires k <= n
    ensures Pow2(k) <= Pow2(n)
    ensures Has(Pow2(n) - Pow2(k), j) <==> k <= j < n
    decreases n
  {
    PowMonotone(k, n);
    var x := Pow2(n) - Pow2(k);
    HasHalf(x, j);
    if k < n {
      if k == 0 {
        assert x % 2 == 1 && x / 2 == Pow2(n - 1) - Pow2(0);
        if j > 0 {
          OnesHas(n - 1, 0, j - 1);
        }
      } else {
        assert x % 2 == 0 && x / 2 == Pow2(n - 1) - Pow2(k - 1);
        if j > 0 {
          OnesHas(n - 1, k - 1, j - 1);
        }
      }
    }
  }

  /** One's complement flips every bit below the width. */
  lemma {:induction false} NotHas(x: nat, n: nat, j: nat)
    requires x < Pow2(n)
    ensures Has(Pow2(n) - 1 - x, j) <==> j < n && !Has(x, j)
    decreases n
  {
    var y := Pow2(n) - 1 - x;
    HasHalf(x, j);
    HasHalf(y, j);
    if n > 0 && j > 0 {
      assert y / 2 == Pow2(n - 1) - 1 - x / 2;
      NotHas(x / 2, n - 1, j - 1);
    }
  }

  lemma MarkHas(m: nat, i: nat)
    ensures forall j: nat :: Has(Mark(m, i), j) <==> j == i || Has(m, j)
  {
    forall j: nat
      ensures Has(Mark(m, i), j) <==> j == i || Has(m, j)
    {
      OrHas(m, Bit(i), j);
      BitHas(i, j);
    }
  }

  lemma ClearHas(m: nat, i: nat)
    requires i < 32
    ensures forall j: nat | j < 32 :: Has(Clear(m, i), j) <==> j != i && Has(m, j)
  {
    var n := 32;
    Pow32(n);
    BitBelow(i);
    forall j: nat | j < 32
      ensures Has(Clear(m, i), j) <==> j != i && Has(m, j)
    {
      AndHas(m, Not32(Bit(i)), j);
      NotHas(Bit(i), n, j);
      BitHas(i, j);
    }
  }

  /** A word stays a word when a bit is set or cleared. */
  lemma {:induction false} OrBelow(x: nat, y: nat, n: nat)
    requires x < Pow2(n) && y < Pow2(n)
    ensures Or(x, y) < Pow2(n)
    decreases n
  {
    if x != 0 && y != 0 {
      OrBelow(x / 2, y / 2, n - 1);
    }
  }

  lemma {:induction false} NoBits(x: nat, n: nat)
    requires x < Pow2(n)
    requires forall j: nat | j < n :: !Has(x, j)
    ensures x == 0
    decreases n
  {
    if n > 0 {
      HasHalf(x, 0);
      forall j: nat | j < n - 1
        ensures !Has(x / 2, j)
      {
        HasHalf(x, j + 1);
      }
      NoBits(x / 2, n - 1);
    }
  }

  lemma {:induction false} ComplementApart(x: nat, n: nat)
    requires x < Pow2(n)
    ensures And(x, Pow2(n) - 1 - x) == 0
    decreases n
  {
    if n > 0 {
      var y := Pow2(n) - 1 - x;
      assert y / 2 == Pow2(n - 1) - 1 - x / 2;
      ComplementApart(x / 2, n - 1);
    }
  }

  /** A nonzero word meets its two's complement exactly in its least set bit. */
  lemma {:induction false} LeastIs(x: nat, n: nat, i: nat)
    requires x < Pow2(n) && Has(x, i)
    requires forall j: nat | j < i :: !Has(x, j)
    ensures And(x, Pow2(n) - x) == Bit(i)
    decreases n
  {
    HasHalf(x, 0);
    HasHalf(x, i);
    if n > 0 {
      var y := Pow2(n) - x;
      if i == 0 {
        assert y / 2 == Pow2(n - 1) - 1 - x / 2;
        ComplementApart(x / 2, n - 1);
      } else {
        assert !Has(x, 0);
        assert y / 2 == Pow2(n - 1) - x / 2;
        forall j: nat | j < i - 1
          ensures !Has(x / 2, j)
        {
          HasHalf(x, j + 1);
        }
        LeastIs(x / 2, n - 1, i - 1);
      }
    }
  }

  /** Linear scan for the first set bit at or above `from`; 32 when there is none. */
  function Scan(m: nat, from: nat): (r: nat)
    requires from <= 32
    ensures from <= r <= 32
    ensures r < 32 ==> Has(m, r)
    ensures forall j: nat | from <= j < r :: !Has(m, j)
    decreases 32 - from, m
  {
    if from == 32 || Has(m, from) then from else Scan(m, from + 1)
  }

  lemma LeastBitIs(x: nat, i: nat, n: nat)
    requires n == 32 && x < W32 && i < 32 && Has(x, i)
    requires forall j: nat | j < i :: !Has(x, j)
    ensures LeastBit(x) == Bit(i)
  {
    hide Has, Bit, And, Pow2;
    Pow32(n);
    LeastIs(x, n, i);
  }

  /** `least_bit` then `compute_bit2idx` is the linear scan from bin 0. */
  lemma {:induction false} FirstBin(m: nat)
    requires m < W32
    ensures m == 0 <==> Scan(m, 0) == 32
    ensures m != 0 ==> 0 < LeastBit(m) < W32 && Bit2Idx(LeastBit(m)) == Scan(m, 0)
  {
    var i := Scan(m, 0);
    if i == 32 {
      Pow32(i);
      NoBits(m, i);
    } else {
      LeastBitIs(m, i, 32);
      IdxOfBit(i);
    }
  }

  /** Doubling the last bit drops it; doubling any other gives the next one. */
  lemma {:induction false} ShiftBit(i: nat, n: nat)
    requires i < 32 && n == 32
    ensures Bit(i) < W32
    ensures Shl32(Bit(i), 1) == if i == 31 then 0 else Bit(i + 1)
  {
    Pow32(n);
    BitBelow(i);
    assert Shl32(Bit(i), 1) == (2 * Bit(i)) % W32;
    if i < 31 {
      BitBelow(i + 1);
    } else {
      assert Pow2(n) == 2 * Bit(i);
    }
  }

  lemma NegBitHas(k: nat, j: nat, n: nat)
    requires k < 32 && n == 32
    ensures Bit(k) < W32
    ensures Has(Neg32(Bit(k)), j) <==> k <= j < 32
  {
    BitBelow(k);
    Pow32(n);
    OnesHas(n, k, j);
    assert Neg32(Bit(k)) == Pow2(n) - Pow2(k);
  }

  lemma LeftHas(i: nat, j: nat)
    requires i < 32
    ensures Bit(i) < W32
    ensures Has(LeftBits(Bit(i)), j) <==> i < j < 32
  {
    ShiftBit(i, 32);
    if i < 31 {
      NegBitHas(i + 1, j, 32);
      OrHas(Bit(i + 1), Neg32(Bit(i + 1)), j);
      BitHas(i + 1, j);
    }
  }

  /** `left_bits`, `least_bit` and `compute_bit2idx` together are the linear scan of the bins above `idx`. */
  lemma {:induction false} NextBin(m: nat, idx: nat)
    requires m < W32 && idx < 32
    ensures Bit(idx) < W32
    ensures var left := And(LeftBits(Bit(idx)), m);
            && (left == 0 <==> Scan(m, idx + 1) == 32)
            && (left != 0 ==> 0 < LeastBit(left) < W32 && Bit2Idx(LeastBit(left)) == Scan(m, idx + 1))
  {
    BitBelow(idx);
    var left := And(LeftBits(Bit(idx)), m);
    forall j: nat | j < 32
      ensures Has(left, j) <==> j > idx && Has(m, j)
    {
      LeftHas(idx, j);
      AndHas(LeftBits(Bit(idx)), m, j);
    }
    FirstBin(left);
    var i := Scan(m, idx + 1);
    if i < 32 {
      assert Has(left, i);
      ScanIs(left, 0, i);
    } else {
      assert Scan(left, 0) == 32;
    }
  }

  lemma ScanIs(m: nat, from: nat, i: nat)
    requires from <= i < 32 && Has(m, i)
    requires forall j: nat | from <= j < i :: !Has(m, j)
    ensures Scan(m, from) == i
  {
  }

  lemma {:induction false} ShrHas(x: nat, s: nat, e: nat)
    ensures Has(Shr(x, s), e) <==> Has(x, s + e)
    decreases s
  {
    HasHalf(x, s + e);
    if s > 0 {
      ShrHas(x / 2, s - 1, e);
    }
  }

  lemma {:induction false} AndBit(x: nat, e: nat)
    ensures And(x, Bit(e)) == if Has(x, e) then Bit(e) else 0
    decreases e
  {
    HasHalf(x, e);
    if e > 0 {
      AndBit(x / 2, e - 1);
    }
  }

  lemma {:induction false} ShrOnes(i: nat, k: nat)
    requires k <= i
    ensures Shr(Pow2(i) - 1, k) == Pow2(i - k) - 1
    decreases k
  {
    if k > 0 {
      assert (Pow2(i) - 1) / 2 == Pow2(i - 1) - 1;
      ShrOnes(i - 1, k - 1);
    }
  }

  /** One folding step on a run of `i` ones: it tests bit `k` and shifts the run by `k` when that bit is set. */
  lemma FoldStep(y: nat, i: nat, s: nat, e: nat, k: nat, bit: nat)
    requires k == s + e && bit == Bit(e) && bit == k
    requires y == Pow2(i) - 1
    ensures And(Shr(y, s), bit) == if i > k then k else 0
    ensures Shr(y, if i > k then k else 0) == Pow2(if i > k then i - k else i) - 1
  {
    AndBit(Shr(y, s), e);
    ShrHas(y, s, e);
    OnesHas(i, 0, k);
    ShrOnes(i, And(Shr(y, s), bit));
  }

  lemma Fold1Ones(y: nat, i: nat)
    requires i <= 2 && y == Pow2(i) - 1
    ensures Fold1(y) == i
  {
    FoldStep(y, i, 1, 0, 1, 1);
  }

  lemma Fold2Ones(y: nat, i: nat)
    requires i <= 4 && y == Pow2(i) - 1
    ensures Fold2(y) == i
  {
    FoldStep(y, i, 1, 1, 2, 2);
    var j := if i > 2 then i - 2 else i;
    Fold1Ones(Shr(y, i - j), j);
  }

  lemma Fold4Ones(y: nat, i: nat)
    requires i <= 8 && y == Pow2(i) - 1
    ensures Fold4(y) == i
  {
    FoldStep(y, i, 2, 2, 4, 4);
    var j := if i > 4 then i - 4 else i;
    Fold2Ones(Shr(y, i - j), j);
  }

  lemma Fold8Ones(y: nat, i: nat)
    requires i <= 16 && y == Pow2(i) - 1
    ensures Fold8(y) == i
  {
    FoldStep(y, i, 5, 3, 8, 8);
    var j := if i > 8 then i - 8 else i;
    Fold4Ones(Shr(y, i - j), j);
  }

  lemma Fold16Ones(y: nat, i: nat)
    requires i <= 32 && y == Pow2(i) - 1
    ensures Fold16(y) == i
  {
    FoldStep(y, i, 12, 4, 16, 16);
    var j := if i > 16 then i - 16 else i;
    Fold8Ones(Shr(y, i - j), j);
  }

  /** `compute_bit2idx` inverts `idx2bit`. */
  lemma IdxOfBit(i: nat)
    requires i < 32
    ensures Bit(i) < W32 && Bit2Idx(Bit(i)) == i
  {
    BitBelow(i);
    Fold16Ones(Bit(i) - 1, i);
  }

  /** `m` without its lowest `k` bits. */
  function Truncated(m: nat, k: nat): (r: nat)
    ensures r <= m
    decreases k, m
  {
    if k == 0 then m else 2 * Truncated(m / 2, k - 1)
  }

  lemma {:induction false} ShiftBack(m: nat, k: nat)
    ensures Shr(m, k) * Pow2(k) == Truncated(m, k)
    ensures Truncated(m, k) == 0 <==> Shr(m, k) == 0
    decreases k
  {
    if k > 0 {
      hide Pow2, Shr, Truncated;
      ShiftBack(m / 2, k - 1);
      PowNext(k);
      ShiftStep(m, k);
      Twice(Shr(m / 2, k - 1), Pow2(k - 1));
    }
  }

  lemma ShiftStep(m: nat, k: nat)
    requires k > 0
    ensures Shr(m, k) == Shr(m / 2, k - 1) && Truncated(m, k) == 2 * Truncated(m / 2, k - 1)
  {
  }

  lemma {:induction false} TruncatedHas(m: nat, k: nat, j: nat)
    ensures Has(Truncated(m, k), j) <==> k <= j && Has(m, j)
    decreases k
  {
    if k > 0 {
      HasHalf(Truncated(m, k), j);
      HasHalf(m, j);
      if j > 0 {
        TruncatedHas(m / 2, k - 1, j - 1);
      }
    }
  }

  lemma LowBits(x: nat)
    ensures And(x, 3) != 0 <==> Has(x, 0) || Has(x, 1)
    ensures x < W32 ==> And(Not32(x), 1) == if Has(x, 0) then 0 else 1
  {
    hide And, Has;
    BitZero();
    AndStep(x, 3);
    AndBit(x / 2, 0);
    HasHalf(x, 1);
    if x < W32 {
      AndBit(Not32(x), 0);
      HasHalf(Not32(x), 0);
      NotOdd(x);
    }
  }

  lemma BitZero()
    ensures Bit(0) == 1
  {
  }

  lemma NotOdd(x: nat)
    requires x < W32
    ensures Not32(x) % 2 == 1 - x % 2
  {
  }

  lemma AndStep(x: nat, y: nat)
    ensures And(x, y) == (if x % 2 == 1 && y % 2 == 1 then 1 else 0) + 2 * And(x / 2, y / 2)
  {
  }

  lemma ShrBelow(m: nat, k: nat)
    ensures Shr(m, k) <= m
    decreases k
  {
  }

  /** `smallbits` tells whether the bin of the request or the next one holds a chunk, and which of the two to use. */
  lemma SmallBits(m: nat, idx: nat)
    requires m < W32 && idx + 1 < 32
    ensures Shr(m, idx) < W32
    ensures And(Shr(m, idx), 3) != 0 <==> Has(m, idx) || Has(m, idx + 1)
    ensures And(Not32(Shr(m, idx)), 1) == if Has(m, idx) then 0 else 1
  {
    ShrBelow(m, idx);
    LowBits(Shr(m, idx));
    ShrHas(m, idx, 0);
    ShrHas(m, idx, 1);
  }

  lemma {:induction false} ShiftedBits(m: nat, idx: nat, j: nat)
    requires m < W32 && idx < 32
    ensures var y := Shl32(Shr(m, idx), idx);
            y <= m && (y == 0 <==> Shr(m, idx) == 0) && (Has(y, j) <==> idx <= j && Has(m, j))
  {
    ShiftBack(m, idx);
    TruncatedHas(m, idx, j);
    hide Shr, Has, Pow2, Truncated;
  }

  /** Past an empty bin `idx`, the shifted and masked bits select the next non-empty bin, as a linear scan would. */
  lemma NextSmall(m: nat, idx: nat)
    requires m < W32 && idx < 32 && !Has(m, idx)
    ensures Bit(idx) < W32
    ensures var left := And(Shl32(Shr(m, idx), idx), LeftBits(Bit(idx)));
            && (Shr(m, idx) == 0 <==> Scan(m, idx + 1) == 32)
            && (Shr(m, idx) != 0 ==> 0 < LeastBit(left) < W32 && Bit2Idx(LeastBit(left)) == Scan(m, idx + 1))
  {
    BitBelow(idx);
    ShiftedBits(m, idx, 0);
    var y := Shl32(Shr(m, idx), idx);
    var left := And(y, LeftBits(Bit(idx)));
    hide Shl32, Shr, LeftBits, LeastBit, Bit2Idx, Has;
    forall j: nat | j < 32
      ensures Has(left, j) <==> j > idx && Has(m, j)
      ensures Has(y, j) <==> j >= idx && Has(m, j)
    {
      ShiftedBits(m, idx, j);
      LeftHas(idx, j);
      AndHas(y, LeftBits(Bit(idx)), j);
    }
    NextSmallScan(m, idx, y, left);
  }

  lemma NextSmallScan(m: nat, idx: nat, y: nat, left: nat)
    requires idx < 32 && !Has(m, idx) && left <= y < W32
    requires forall j: nat | j < 32 :: Has(left, j) <==> j > idx && Has(m, j)
    requires forall j: nat | j < 32 :: Has(y, j) <==> j >= idx && Has(m, j)
    ensures y == 0 <==> Scan(m, idx + 1) == 32
    ensures y != 0 ==> 0 < LeastBit(left) < W32 && Bit2Idx(LeastBit(left)) == Scan(m, idx + 1)
  {
    FirstBin(left);
    FirstBin(y);
    hide LeftBits, LeastBit, Bit2Idx;
    var i := Scan(m, idx + 1);
    if i < 32 {
      ScanIs(left, 0, i);
      ScanIs(y, 0, i);
    } else {
      assert Scan(left, 0) == 32 && Scan(y, 0) == 32;
    }
  }
}
