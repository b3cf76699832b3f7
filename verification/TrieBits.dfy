/** Walking a trie by shifting the size left and testing the sign bit of a 64-bit word. */
module TrieBits {
  import opened Words
  import opened Trie

  const SIGN: nat := 0x8000_0000_0000_0000

  /** `x` doubled `k` times. */
  function Lift(x: nat, k: nat): nat {
    if k == 0 then x else 2 * Lift(x, k - 1)
  }

  function Shl64(x: nat, k: nat): (r: nat)
    ensures r < W64
  {
    Lift(x, k) % W64
  }

  predicate SignSet(bits: nat) {
    bits / SIGN % 2 == 1
  }

  /** `bits <<= 1`. */
  function Double64(bits: nat): nat {
    (2 * bits) % W64
  }

  lemma {:induction false} LiftAdd(x: nat, y: nat, k: nat)
    ensures Lift(x + y, k) == Lift(x, k) + Lift(y, k)
  {
    if k > 0 {
      LiftAdd(x, y, k - 1);
    }
  }

  lemma {:induction false} LiftPow(m: nat, k: nat)
    ensures Lift(Pow2(m), k) == Pow2(m + k)
    decreases k
  {
    if k > 0 {
      LiftPow(m, k - 1);
    }
  }

  lemma {:induction false} LiftMonotone(x: nat, y: nat, k: nat)
    requires x < y
    ensures Lift(x, k) < Lift(y, k)
  {
    if k > 0 {
      LiftMonotone(x, y, k - 1);
    }
  }

  lemma {:induction false} LiftTimes(q: nat, m: nat, k: nat)
    ensures Lift(q * Pow2(m), k) == q * Pow2(m + k)
    decreases k
  {
    if k > 0 {
      hide Lift, Pow2;
      LiftTimes(q, m, k - 1);
      PowNext(m + k);
      Twice(q, Pow2(m + k - 1));
      LiftNext(q * Pow2(m), k - 1);
    }
  }

  lemma ModOfSum(q: nat, r: nat)
    requires r < W64
    ensures (q * W64 + r) % W64 == r
  {
  }

  /** `sizebits` for size `s` in a range of `n` undecided bits: those bits, moved to the top of the word. */
  predicate BitsOf(bits: nat, s: nat, lo: nat, n: nat) {
    n <= 64 && s >= lo && bits == Lift(s - lo, 64 - n)
  }

  lemma LiftFits(d: nat, n: nat)
    requires n <= 64 && d < Pow2(n)
    ensures Lift(d, 64 - n) < W64
  {
    LiftMonotone(d, Pow2(n), 64 - n);
    LiftPow(n, 64 - n);
    Pow64(64);
  }

  /** The initial shift by `leftshift_for_tree_index` leaves exactly the undecided bits. */
  lemma {:induction false} ShiftIn(s: nat, lo: nat, n: nat, q: nat)
    requires n <= 64 && lo == q * Pow2(n) && InRange(s, lo, n)
    ensures BitsOf(Shl64(s, 64 - n), s, lo, n)
  {
    hide Lift;
    LiftAdd(lo, s - lo, 64 - n);
    LiftTimes(q, n, 64 - n);
    Pow64(64);
    LiftFits(s - lo, n);
    ModOfSum(q, Lift(s - lo, 64 - n));
  }

  /** The sign bit is the highest undecided bit, and shifting left moves on to the half that it selects. */
  lemma {:induction false} ShiftOn(bits: nat, s: nat, lo: nat, n: nat)
    requires 0 < n <= 64 && InRange(s, lo, n) && BitsOf(bits, s, lo, n)
    ensures SignSet(bits) <==> GoesRight(s, lo, n)
    ensures BitsOf(Double64(bits), s, HalfLo(s, lo, n), n - 1)
  {
    hide Lift, Pow2, SignSet, Double64;
    var d, h, k := s - lo, Pow2(n - 1), 64 - n;
    LiftFits(d, n);
    LiftPow(n - 1, k);
    Pow64(64);
    PowNext(64);
    SignIs(bits);
    if d >= h {
      LiftAdd(h, d - h, k);
      LiftNext(d - h, k);
    } else {
      LiftMonotone(d, h, k);
      LiftNext(d, k);
    }
  }

  lemma LiftNext(x: nat, k: nat)
    ensures Lift(x, k + 1) == 2 * Lift(x, k)
  {
  }

  /** Testing the sign bit and shifting it out, as numbers. */
  lemma SignIs(bits: nat)
    requires bits < W64
    ensures SignSet(bits) <==> bits >= SIGN
    ensures Double64(bits) == if bits >= SIGN then 2 * bits - W64 else 2 * bits
  {
  }
}
