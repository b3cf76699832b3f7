/** The head word of a chunk: its size, a multiple of 8, with the in-use bits in the low positions. */
module ChunkHeads {
  import opened Words
  import opened BinMaps

  /** The size and the two in-use bits of a head word. */
  datatype Head = Head(size: nat, cinuse: bool, pinuse: bool)

  type Heads = map<int, Head>

  /** The word itself. */
  function Pack(h: Head): nat {
    h.size + (if h.cinuse then 2 else 0) + (if h.pinuse then 1 else 0)
  }

  lemma {:induction false} MaskIs(w: nat, n: nat, k: nat)
    requires w < Pow2(n) && k <= n
    ensures Pow2(k) <= Pow2(n) && And(w, Pow2(n) - Pow2(k)) == Truncated(w, k)
    decreases n
  {
    PowMonotone(k, n);
    var y := Pow2(n) - Pow2(k);
    if w == 0 || y == 0 {
      TruncatedZero(w, k);
    } else {
      if k == 0 {
        assert y % 2 == 1 && y / 2 == Pow2(n - 1) - 1;
        MaskIs(w / 2, n - 1, 0);
      } else {
        assert y % 2 == 0 && y / 2 == Pow2(n - 1) - Pow2(k - 1);
        MaskIs(w / 2, n - 1, k - 1);
      }
    }
  }

  lemma {:induction false} TruncatedZero(w: nat, k: nat)
    ensures w < Pow2(k) ==> Truncated(w, k) == 0
    decreases k
  {
    if k > 0 {
      TruncatedZero(w / 2, k - 1);
    }
  }

  lemma TruncatedEighths(w: nat)
    ensures Truncated(w, 3) == w - w % 8
  {
    var k := 1;
    assert Truncated(w / 4, k) == 2 * (w / 4 / 2);
    assert Truncated(w / 2, k + 1) == 2 * Truncated(w / 4, k);
    assert Truncated(w, k + 2) == 2 * Truncated(w / 2, k + 1);
  }

  lemma LowBitsIs(w: nat)
    ensures And(w, 2) != 0 <==> (w / 2) % 2 == 1
    ensures And(w, 1) != 0 <==> w % 2 == 1
  {
    HasHalf(w, 1);
    HasHalf(w / 2, 0);
  }

  lemma MaskEight(w: nat, n: nat, k: nat)
    requires n == 64 && k == 3 && w < W64
    ensures And(w, W64 - 8) == w - w % 8
  {
    Pow64(n);
    MaskIs(w, n, k);
    TruncatedEighths(w);
    PowTable();
    hide And, Truncated, Pow2;
  }

  lemma PackedBits(h: Head)
    requires h.size % 8 == 0 && h.size < W64
    ensures var w := Pack(h);
            && w < W64 && w - w % 8 == h.size
            && ((w / 2) % 2 == 1 <==> h.cinuse) && (w % 2 == 1 <==> h.pinuse)
  {
    var q := h.size / 8;
    assert Pack(h) == 8 * q + (if h.cinuse then 2 else 0) + (if h.pinuse then 1 else 0);
  }

  /** `chunksize`, `cinuse` and `pinuse` read back what was packed. */
  lemma UnpackPacked(h: Head)
    requires h.size % 8 == 0 && h.size < W64
    ensures Pack(h) < W64
    ensures And(Pack(h), W64 - 8) == h.size
    ensures (And(Pack(h), 2) != 0 <==> h.cinuse) && (And(Pack(h), 1) != 0 <==> h.pinuse)
  {
    PackedBits(h);
    LowBitsIs(Pack(h));
    MaskEight(Pack(h), 64, 3);
    hide And, Pack;
  }
}
