/** Request padding and the assignment of chunk sizes to bins, for 8-byte sizes and 64-byte alignment. */
module SizeClasses {
  import opened Words

  const ALIGN: nat := 64
  const MIN_CHUNK: nat := 64
  const OVERHEAD: nat := 8
  const MIN_REQUEST: nat := 55
  const MAX_REQUEST: nat := W64 - 256
  const MAX_SMALL_REQUEST: nat := 184
  const MIN_LARGE: nat := 256
  const NBINS: nat := 32

  /** `pad_request`: add the overhead and round up to the alignment, in 64-bit arithmetic. */
  function PadRequest(bytes: nat): nat {
    var x := (bytes + OVERHEAD + 63) % W64;
    x - x % ALIGN
  }

  /** `request2size`. */
  function Request2Size(bytes: nat): nat {
    if bytes < MIN_REQUEST then MIN_CHUNK else PadRequest(bytes)
  }

  // ---------- the 64-byte grid ----------

  lemma OnGridIs(t: int, r: int)
    requires 0 <= r < 64
    ensures (64 * t + r) % 64 == r
  {
  }

  lemma WordsAre(t: int)
    ensures (8 * t) % 8 == 0
  {
  }

  /** Moving up by whole grid units. */
  lemma GridShift(p: int, size: nat, n: nat)
    requires p % 64 == 48 && size % 8 == 0 && n % 64 == 0
    ensures (size - n) % 8 == 0 && (p + n) % 64 == 48
  {
    var a, b, c := p / 64, size / 8, n / 64;
    OnGridIs(a + c, 48);
    WordsAre(b - 8 * c);
    assert p + n == 64 * (a + c) + 48 && size - n == 8 * (b - 8 * c);
  }

  predicate IsSmall(s: nat) {
    s / 8 < NBINS
  }

  function SmallIndex(s: nat): nat {
    s / 8
  }

  /** Padding never wraps below `MAX_REQUEST`, covers the request and its overhead, and wastes less than one unit. */
  lemma PaddingFits(bytes: nat)
    requires bytes < MAX_REQUEST
    ensures var nb := Request2Size(bytes);
            && nb % ALIGN == 0 && MIN_CHUNK <= nb <= W64 - 192
            && bytes + OVERHEAD <= nb
            && (nb == MIN_CHUNK || nb < bytes + OVERHEAD + ALIGN)
            && (bytes <= MAX_SMALL_REQUEST <==> IsSmall(nb))
  {
    var x := bytes + OVERHEAD + 63;
    assert x < W64;
  }

  /** `minsize_for_tree_index`. */
  function MinSize(i: nat): nat {
    Pow2(i / 2 + 8) + (if i % 2 == 1 then Pow2(i / 2 + 7) else 0)
  }

  /** The bin of a large size: the last bin whose least size does not exceed it. */
  function BinOf(s: nat): (i: nat)
    ensures i < NBINS
  {
    BinFrom(s, 0)
  }

  function BinFrom(s: nat, from: nat): (i: nat)
    requires from < NBINS
    ensures from <= i < NBINS
    ensures MinSize(from) <= s ==> MinSize(i) <= s
    ensures i == NBINS - 1 || s < MinSize(i + 1)
    decreases NBINS - from, s
  {
    if from == NBINS - 1 || s < MinSize(from + 1) then from else BinFrom(s, from + 1)
  }

  lemma MinSizeGrows(i: nat)
    ensures MinSize(i + 1) == MinSize(i) + Pow2(i / 2 + 7)
  {
    assert Pow2(i / 2 + 9) == 2 * Pow2(i / 2 + 8);
  }

  lemma {:induction false} MinSizeMonotone(i: nat, j: nat)
    requires i <= j
    ensures MinSize(i) <= MinSize(j)
    decreases j
  {
    if i < j {
      MinSizeMonotone(i, j - 1);
      MinSizeGrows(j - 1);
    }
  }

  lemma {:induction false} BinIsUnique(s: nat, from: nat, i: nat)
    requires from <= i < NBINS
    requires MinSize(i) <= s && (i == NBINS - 1 || s < MinSize(i + 1))
    ensures BinFrom(s, from) == i
    decreases i - from
  {
    hide MinSize;
    if from < i {
      MinSizeMonotone(from + 1, i);
      BinIsUnique(s, from + 1, i);
    }
  }

  lemma LeastLarge()
    ensures MinSize(0) == MIN_LARGE
  {
    PowTable();
  }

  /** A larger size never has a smaller index. */
  lemma BinMonotone(s: nat, t: nat)
    requires MIN_LARGE <= s <= t
    ensures BinOf(s) <= BinOf(t)
  {
    LeastLarge();
    if BinOf(t) < BinOf(s) {
      MinSizeMonotone(BinOf(t) + 1, BinOf(s));
    }
  }

  /** Number of size bits that tell the chunks of tree bin `i` apart. */
  function BinBits(i: nat): nat {
    if i == NBINS - 1 then 64 else i / 2 + 7
  }

  /** Start of the power-of-two range that the trie of bin `i` divides. */
  function BinLo(i: nat): nat {
    if i == NBINS - 1 then 0 else MinSize(i)
  }

  /** `leftshift_for_tree_index`. */
  function LeftShift(i: nat): nat
    requires i < NBINS
  {
    if i == NBINS - 1 then 0 else 63 - (i / 2 + 8 - 2)
  }

  /** Sizes of one bin agree above `BinBits`, so that a shift by `LeftShift` leaves exactly the distinguishing bits. */
  lemma BinRange(s: nat, i: nat)
    requires MIN_LARGE <= s < W64 && i == BinOf(s)
    ensures LeftShift(i) == 64 - BinBits(i)
    ensures BinLo(i) <= s < BinLo(i) + Pow2(BinBits(i))
  {
    LeastLarge();
    assert MinSize(i) <= s && (i == NBINS - 1 || s < MinSize(i + 1));
    hide BinOf, BinFrom, Pow2;
    if i == NBINS - 1 {
      Pow64(64);
    } else {
      MinSizeGrows(i);
    }
  }

  lemma BinLoAligned(i: nat)
    requires i < NBINS
    ensures exists q: nat :: BinLo(i) == q * Pow2(BinBits(i))
  {
    if i == NBINS - 1 {
      assert BinLo(i) == 0 * Pow2(BinBits(i));
    } else {
      var q := if i % 2 == 1 then 3 else 2;
      assert BinLo(i) == q * Pow2(BinBits(i));
    }
  }
}
