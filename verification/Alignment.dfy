/** Powers of two as alignments, and masking with them. */
module Alignment {
  import opened Words
  import opened BinMaps
  import opened ChunkHeads

  ghost predicate IsPower(x: nat) {
    exists k: nat :: x == Pow2(k)
  }

  lemma {:induction false} AndSelf(x: nat)
    ensures And(x, x) == x
  {
    if x > 0 {
      AndSelf(x / 2);
    }
  }

  lemma EvenPower(k: nat)
    ensures k > 0 ==> Pow2(k) % 2 == 0
  {
  }

  /** `x & (x - 1)` is zero exactly for powers of two. */
  lemma {:induction false} PowerTest(x: nat)
    requires x > 0
    ensures And(x, x - 1) == 0 <==> IsPower(x)
  {
    if x == 1 {
      assert x == Pow2(0);
    } else if x % 2 == 1 {
      AndSelf(x / 2);
      assert (x - 1) / 2 == x / 2;
      if k: nat :| x == Pow2(k) {
        EvenPower(k);
      }
    } else {
      PowerTest(x / 2);
      assert (x - 1) / 2 == x / 2 - 1;
      if k: nat :| x / 2 == Pow2(k) {
        assert x == Pow2(k + 1);
      }
      if k: nat :| x == Pow2(k) {
        assert x / 2 == Pow2(k - 1);
      }
    }
  }

  /** Exponent of the least power of two from `2^from` on that is not below `a`. */
  function AlignExponent(a: nat, from: nat): (k: nat)
    ensures from <= k && a <= Pow2(k) && (k == from || Pow2(k - 1) < a)
    decreases a - Pow2(from), from
  {
    if Pow2(from) >= a then from else AlignExponent(a, from + 1)
  }

  lemma {:induction false} ExponentIs(a: nat, from: nat, k: nat)
    requires from <= k && a <= Pow2(k) && (k == from || Pow2(k - 1) < a)
    ensures AlignExponent(a, from) == k
    decreases k - from
  {
    if from < k {
      PowMonotone(from, k - 1);
      ExponentIs(a, from + 1, k);
    }
  }

  /** The alignment that `internal_memalign` uses: at least a minimal chunk, rounded up to a power of two. */
  method RoundAlignment(alignment0: nat) returns (alignment: nat, k: nat)
    requires alignment0 <= Pow2(63)
    ensures k == AlignExponent(alignment0, 6) && k <= 63 && alignment == Pow2(k)
  {
    hide And, AlignExponent;
    PowTable();
    assert IsPower(64) by {
      assert 64 == Pow2(6);
    }
    alignment := alignment0;
    if alignment < 64 {
      alignment := 64;
    }
    PowerTest(alignment);
    if And(alignment, alignment - 1) != 0 {
      var a := 128;
      k := 7;
      while a < alignment
        invariant a == Pow2(k) && 7 <= k <= 63 && Pow2(k - 1) < alignment
        decreases alignment - a
      {
        a := 2 * a;
        k := k + 1;
        PowOrder(k, 63, alignment);
      }
      alignment := a;
    } else {
      k := Exponent(alignment);
      PowerRange(k, alignment);
    }
    ExponentIs(alignment0, 6, k);
  }

  /** Doubling a power below `x <= 2^n` stays within `2^n`. */
  lemma PowOrder(k: nat, n: nat, x: nat)
    requires k > 0 && Pow2(k - 1) < x <= Pow2(n)
    ensures k <= n
  {
    if k > n {
      PowMonotone(n, k - 1);
    }
  }

  lemma PowerRange(k: nat, x: nat)
    requires x == Pow2(k) && 64 <= x <= Pow2(63)
    ensures 6 <= k <= 63
  {
    PowTable();
    if k < 6 {
      PowMonotone(k, 5);
    }
    assert Pow2(63 + 1) == 2 * Pow2(63);
    if k > 63 {
      PowMonotone(64, k);
    }
  }

  /** The exponent of a power of two. */
  function Exponent(x: nat): (k: nat)
    requires IsPower(x)
    ensures x == Pow2(k)
  {
    if x <= 1 then
      assert x == 1 == Pow2(0) by { var k: nat :| x == Pow2(k); }
      0
    else
      assert IsPower(x / 2) && x % 2 == 0 by {
        var k: nat :| x == Pow2(k);
        assert x == 2 * Pow2(k - 1) && x / 2 == Pow2(k - 1);
      }
      1 + Exponent(x / 2)
  }

  lemma {:induction false} TruncatedNear(x: nat, k: nat)
    ensures x < Truncated(x, k) + Pow2(k)
    decreases k
  {
    if k > 0 {
      TruncatedNear(x / 2, k - 1);
    }
  }

  /** Clearing low bits twice clears them once. */
  lemma {:induction false} TruncatedTwice(x: nat, k: nat, j: nat)
    requires j <= k
    ensures Truncated(Truncated(x, k), j) == Truncated(x, k)
    decreases k
  {
    if j > 0 {
      TruncatedTwice(x / 2, k - 1, j - 1);
      assert Truncated(x, k) / 2 == Truncated(x / 2, k - 1);
    }
  }

  ghost predicate IsMultiple(x: int, a: nat) {
    exists q: nat :: x == q * a
  }

  lemma TruncatedMultiple(x: nat, k: nat)
    ensures IsMultiple(Truncated(x, k), Pow2(k))
  {
    ShiftBack(x, k);
    assert Truncated(x, k) == Shr(x, k) * Pow2(k);
  }

  lemma {:induction false} LowMask(w: nat, k: nat)
    ensures And(w, Pow2(k) - 1) == w - Truncated(w, k)
    decreases k
  {
    if k > 0 {
      assert (Pow2(k) - 1) / 2 == Pow2(k - 1) - 1 && (Pow2(k) - 1) % 2 == 1;
      LowMask(w / 2, k - 1);
    }
  }

  lemma MultipleGrid(x: nat)
    requires Truncated(x, 6) == x
    ensures x % 64 == 0
  {
    var k := 6;
    ShiftBack(x, k);
    PowTable();
    TimesGrid(Shr(x, k));
  }

  lemma TimesGrid(q: nat)
    ensures (q * 64) % 64 == 0
  {
  }

  lemma {:induction false} PowerGrid(k: nat)
    requires k >= 6
    ensures Pow2(k) % 64 == 0
    decreases k
  {
    if k == 6 {
      PowTable();
    } else {
      PowerGrid(k - 1);
      DoubleGrid(Pow2(k - 1));
    }
  }

  lemma DoubleGrid(x: int)
    requires x % 64 == 0
    ensures (2 * x) % 64 == 0
  {
  }

  lemma GridGap(x: int, y: int)
    requires x % 64 == 0 && y % 64 == 0 && x < y
    ensures x + 64 <= y
  {
  }

  lemma GridPlus(x: int, y: int)
    requires x % 64 == 0 && y % 64 == 0
    ensures (x + y) % 64 == 0
  {
  }

  /** The next multiple of the alignment above a misaligned, 64-byte aligned address. */
  lemma NextAligned(mem: nat, k: nat)
    requires mem % 64 == 0 && k >= 6 && Truncated(mem, k) != mem
    ensures var up := Truncated(mem + Pow2(k) - 1, k);
            && up % 64 == 0 && mem + 64 <= up <= mem + Pow2(k) - 64
            && Truncated(up, k) == up && IsMultiple(up, Pow2(k))
  {
    hide Truncated, Pow2, IsMultiple;
    var a, x := Pow2(k), mem + Pow2(k) - 1;
    var up := Truncated(x, k);
    TruncatedNear(x, k);
    TruncatedTwice(x, k, k);
    TruncatedTwice(x, k, 6);
    MultipleGrid(up);
    TruncatedMultiple(x, k);
    PowerGrid(k);
    GridPlus(mem, a);
    GridGap(mem, up);
    GridGap(up, mem + a);
  }

  /** The masks of `internal_memalign`. */
  lemma AlignMasks(mem: nat, k: nat, n: nat)
    requires n == 64 && k <= 63 && mem + Pow2(k) - 1 < W64
    ensures And(mem, Pow2(k) - 1) != 0 <==> Truncated(mem, k) != mem
    ensures Pow2(k) < W64 && And(mem + Pow2(k) - 1, W64 - Pow2(k)) == Truncated(mem + Pow2(k) - 1, k)
  {
    hide Truncated, And;
    LowMask(mem, k);
    Pow64(n);
    PowMonotone(k + 1, n);
    MaskIs(mem + Pow2(k) - 1, n, k);
  }
}
