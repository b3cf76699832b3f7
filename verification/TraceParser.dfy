/** The trace parser's walk over packed bits: integers and hexadecimal strings read back what was packed. */
module TraceParser {
  import opened Words

  // ---------- packing ----------

  /** `w` bits of a value, least significant first. */
  function Bits(v: nat, w: nat): (b: seq<bool>)
    ensures |b| == w
    decreases w, v
  {
    if w == 0 then [] else [v % 2 == 1] + Bits(v / 2, w - 1)
  }

  function Value(bits: seq<bool>): (v: nat)
    ensures v < Pow2(|bits|)
  {
    if bits == [] then 0 else (if bits[0] then 1 else 0) + 2 * Value(bits[1..])
  }

  /** Unpacking inverts packing. */
  lemma {:induction false} ValueOfBits(v: nat, w: nat)
    requires v < Pow2(w)
    ensures Value(Bits(v, w)) == v
    decreases w
  {
    if w > 0 {
      ValueOfBits(v / 2, w - 1);
      assert Bits(v, w)[1..] == Bits(v / 2, w - 1);
    }
  }

  /** `x` shifted up by `k` bits. */
  function Scaled(x: nat, k: nat): nat
    decreases k, x
  {
    if k == 0 then x else 2 * Scaled(x, k - 1)
  }

  lemma {:induction false} ScaledBit(k: nat)
    ensures Scaled(0, k) == 0 && Scaled(1, k) == Pow2(k)
  {
    if k > 0 {
      ScaledBit(k - 1);
    }
  }

  lemma {:induction false} ValueJoin(a: seq<bool>, b: seq<bool>)
    ensures Value(a + b) == Value(a) + Scaled(Value(b), |a|)
    decreases |a|
  {
    if a == [] {
      assert a + b == b;
    } else {
      assert (a + b)[1..] == a[1..] + b;
      ValueJoin(a[1..], b);
    }
  }

  /** Setting a bit above a number adds it. */
  lemma {:induction false} OrTop(num: nat, k: nat)
    requires num < Pow2(k)
    ensures Or(num, Pow2(k)) == num + Pow2(k)
    decreases k
  {
    if k > 0 {
      OrTop(num / 2, k - 1);
    }
  }

  /** `next_uint`. */
  method NextUint(bits: seq<bool>, cursor: nat, len: nat) returns (num: nat, next: nat)
    requires cursor + len <= |bits| && len <= 32
    ensures num == Value(bits[cursor..cursor + len]) && next == cursor + len
  {
    hide Or;
    num := 0;
    var mask, k := 1, 0;
    next := cursor;
    while k < len
      invariant 0 <= k <= len && next == cursor + k
      invariant num == Value(bits[cursor..cursor + k]) && mask == Pow2(k) % W32
    {
      ghost var some := bits[cursor..cursor + k];
      MaskIsPower(k, 32);
      OrTop(num, k);
      OneMore(some, bits[next]);
      assert bits[cursor..cursor + k + 1] == some + [bits[next]];
      if bits[next] {
        num := Or(num, mask);
      }
      next := next + 1;
      mask := 2 * mask % W32;
      DoubleMask(k);
      k := k + 1;
    }
  }

  lemma OneMore(bits: seq<bool>, b: bool)
    ensures Value(bits + [b]) == Value(bits) + if b then Pow2(|bits|) else 0
  {
    ValueJoin(bits, [b]);
    assert Value([b][1..]) == 0;
    ScaledBit(|bits|);
    hide Scaled, Pow2;
  }

  lemma MaskIsPower(k: nat, n: nat)
    requires k < n == 32
    ensures Pow2(k) % W32 == Pow2(k) < W32
  {
    Pow32(n);
    PowMonotone(k + 1, n);
  }

  lemma DoubleMask(k: nat)
    ensures 2 * (Pow2(k) % W32) % W32 == Pow2(k + 1) % W32
  {
  }

  // ---------- hexadecimal strings ----------

  const HEX: string := "0123456789ABCDEF"

  function Digit(c: char): nat {
    if '0' <= c <= '9' then c as nat - '0' as nat else if 'A' <= c <= 'F' then c as nat - 'A' as nat + 10 else 0
  }

  lemma DigitOfHex(d: nat)
    requires d < 16
    ensures Digit(HEX[d]) == d
  {
  }

  /** The number that a string of hexadecimal digits denotes. */
  function HexValue(s: string): nat {
    if s == "" then 0 else 16 * HexValue(s[..|s| - 1]) + Digit(s[|s| - 1])
  }

  lemma {:induction false} HexPrepend(c: char, s: string)
    ensures HexValue([c] + s) == Scaled(Digit(c), 4 * |s|) + HexValue(s)
    decreases |s|
  {
    hide Digit;
    if s == "" {
      assert ([c] + s)[..0] == "" && ([c] + s)[0] == c;
    } else {
      var n := |s| - 1;
      assert ([c] + s)[..n + 1] == [c] + s[..n];
      HexPrepend(c, s[..n]);
      FourBits(Digit(c), 4 * n);
    }
  }

  lemma FourBits(x: nat, k: nat)
    ensures Scaled(x, k + 4) == 16 * Scaled(x, k)
  {
    assert Scaled(x, k + 4) == 2 * Scaled(x, k + 3) && Scaled(x, k + 3) == 2 * Scaled(x, k + 2)
        && Scaled(x, k + 2) == 2 * Scaled(x, k + 1);
  }

  /** `next_hexstr`: digits from the least significant nibble upward, most significant first in the string. */
  method NextHex(bits: seq<bool>, cursor: nat, len0: nat) returns (str: string, next: nat)
    requires cursor + len0 <= |bits|
    ensures next == cursor + len0 && |str| == 2 + (if len0 > 0 then (len0 + 3) / 4 else 1)
    ensures str[..2] == "0x" && HexValue(str[2..]) == Value(bits[cursor..cursor + len0])
  {
    hide HexValue, Digit;
    var digits: string := "";
    var len: nat := len0;
    next := cursor;
    NoDigits();
    while len > 4
      invariant len <= len0 && next == cursor + len0 - len && (len0 > 0 ==> len > 0) && len0 - len == 4 * |digits|
      invariant HexValue(digits) == Value(bits[cursor..next])
    {
      digits, next := OneDigit(bits, cursor, next, digits, 4);
      len := len - 4;
    }
    ghost var before := |digits|;
    digits, next := OneDigit(bits, cursor, next, digits, len);
    str := "0x" + digits;
    assert str[2..] == digits;
  }

  lemma NoDigits()
    ensures HexValue("") == 0
  {
  }

  /** One more digit in front. */
  method OneDigit(bits: seq<bool>, ghost cursor: nat, at: nat, digits: string, len: nat)
                  returns (more: string, next: nat)
    requires cursor <= at && at + len <= |bits| && len <= 4 && at - cursor == 4 * |digits|
    requires HexValue(digits) == Value(bits[cursor..at])
    ensures |more| == |digits| + 1 && next == at + len && HexValue(more) == Value(bits[cursor..next])
  {
    hide HexValue, Digit, Value, Scaled;
    var d;
    d, next := NextUint(bits, at, len);
    Nibble(bits[at..at + len]);
    DigitOfHex(d);
    more := [HEX[d]] + digits;
    HexPrepend(HEX[d], digits);
    ValueJoin(bits[cursor..at], bits[at..next]);
    assert bits[cursor..next] == bits[cursor..at] + bits[at..next];
  }

  lemma Nibble(bits: seq<bool>)
    requires |bits| <= 4
    ensures Value(bits) < 16
  {
    PowTable();
    PowMonotone(|bits|, 4);
  }

  // ---------- whole entries ----------

  /** Fields one after another, each in the bits of its width. */
  function Packed(values: seq<nat>, widths: seq<nat>): seq<bool>
    requires |values| == |widths|
  {
    if values == [] then [] else Bits(values[0], widths[0]) + Packed(values[1..], widths[1..])
  }

  ghost predicate Fit(values: seq<nat>, widths: seq<nat>) {
    |values| == |widths| && forall i | 0 <= i < |values| :: values[i] < Pow2(widths[i]) && widths[i] <= 32
  }

  /** Walking a width table over a packed entry gives back its fields, whatever follows. */
  method Walk(bits: seq<bool>, widths: seq<nat>, ghost values: seq<nat>, ghost rest: seq<bool>)
              returns (fields: seq<nat>)
    requires Fit(values, widths) && bits == Packed(values, widths) + rest
    ensures fields == values
  {
    fields := [];
    var cursor: nat, i: nat := 0, 0;
    assert values[0..] == values && widths[0..] == widths;
    while i < |widths|
      invariant 0 <= i <= |widths| && fields == values[..i] && cursor <= |bits|
      invariant bits[cursor..] == Packed(values[i..], widths[i..]) + rest
    {
      ghost var v, w := values[i], widths[i];
      assert values[i..][1..] == values[i + 1..] && widths[i..][1..] == widths[i + 1..];
      ghost var later := Packed(values[i + 1..], widths[i + 1..]);
      assert bits[cursor..] == Bits(v, w) + (later + rest);
      assert bits[cursor..cursor + w] == bits[cursor..][..w] == Bits(v, w);
      assert bits[cursor + w..] == bits[cursor..][w..] == later + rest;
      ValueOfBits(v, w);
      var num;
      num, cursor := NextUint(bits, cursor, widths[i]);
      fields := fields + [num];
      i := i + 1;
    }
  }
}
