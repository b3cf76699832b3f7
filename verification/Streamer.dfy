/** The byte streamer: arbitrary runs of bytes through a FIFO that only moves whole words. */
module ByteStreamer {
  import opened Numbers

  /** Capacity of the holding buffer; the FIFO is at most that wide. */
  const HOLD: nat := 16

  /** `length` bytes are `words` words. */
  predicate IsWords(length: int, words: int, width: nat) {
    length == words * width
  }

  /** The words that fit into `n` bytes. */
  function WordsIn(n: nat, width: nat): nat
    requires width > 0
  {
    n / width
  }

  /** Their bytes. */
  function Whole(n: nat, width: nat): (r: nat)
    requires width > 0
    ensures r <= n < r + width && (n >= width ==> r > 0) && IsWords(r, WordsIn(n, width), width)
  {
    assert n == width * (n / width) + n % width;
    WordsIn(n, width) * width
  }

  lemma MoreWords(length: int, words: int, length': int, words': int, width: nat)
    requires IsWords(length, words, width) && IsWords(length', words', width)
    ensures IsWords(length + length', words + words', width)
  {
  }

  lemma NoWords(width: nat)
    ensures IsWords(0, 0, width) && IsWords(width, 1, width)
  {
  }

  /** Whole words are there whenever their bytes are. */
  lemma WholeAvailable(length: nat, words: nat, length': nat, words': nat, width: nat)
    requires width > 0 && IsWords(length, words, width) && IsWords(length', words', width) && length' <= length
    ensures words' <= words && IsWords(length - length', words - words', width)
  {
    assert words' > words ==> words' * width >= (words + 1) * width;
  }

  lemma ByteNeedsWord(length: nat, words: nat, width: nat)
    requires width > 0 && IsWords(length, words, width) && length > 0
    ensures words > 0 && length >= width
  {
    assert words >= 1 ==> words * width >= width;
  }

  /** A frame on the link: whole words, of which `length` bytes count. */
  datatype Frame = Frame(bytes: seq<nat>, words: nat, length: nat)

  ghost predicate FrameOk(f: Frame, width: nat) {
    IsWords(|f.bytes|, f.words, width) && f.length <= |f.bytes|
  }

  lemma MoreData(before: seq<nat>, data: seq<nat>, n: nat, m: nat)
    requires n + m <= |data|
    ensures before + data[..n] + data[n..n + m] == before + data[..n + m]
  {
    assert data[..n + m] == data[..n] + data[n..n + m];
  }

  /** `XStrm_TxFifoStreamer`. */
  class TxStreamer {
    const width: nat
    const aligned: array<nat>
    var tail: nat
    /** The words handed to the FIFO since the last frame, and the frames sent. */
    var fifo: seq<nat>
    var words: nat
    var frames: seq<Frame>

    ghost predicate Valid()
      reads this, aligned
    {
      0 < width <= HOLD && aligned.Length == HOLD && tail <= width && IsWords(|fifo|, words, width)
    }

    /** The bytes written since the last frame. */
    ghost function Written(): seq<nat>
      reads this, aligned
      requires Valid()
    {
      fifo + aligned[..tail]
    }

    /** `XStrm_TxInitialize`. */
    constructor (fifoWidth: nat)
      requires 0 < fifoWidth <= HOLD
      ensures Valid() && fresh(aligned) && width == fifoWidth && Written() == [] && frames == []
    {
      width := fifoWidth;
      aligned := new nat[HOLD](i => 0);
      tail, fifo, words, frames := 0, [], 0, [];
    }

    /** The holding buffer goes to the FIFO as one word. */
    method Flush()
      requires Valid()
      modifies this`fifo, this`words, this`tail
      ensures Valid() && tail == 0 && fifo == old(fifo) + aligned[..width]
      ensures old(tail) == width ==> Written() == old(Written())
    {
      hide IsWords;
      NoWords(width);
      MoreWords(|fifo|, words, width, 1, width);
      fifo := fifo + aligned[..width];
      words := words + 1;
      tail := 0;
    }

    /** The fast path: whole words straight from the source. */
    method PushWords(buf: array<nat>, src: nat, remaining: nat) returns (moved: nat)
      requires Valid() && tail == 0 && width <= remaining && src + remaining <= buf.Length
      modifies this`fifo, this`words
      ensures Valid() && 0 < moved <= remaining && Written() == old(Written()) + buf[..][src..src + moved]
    {
      hide IsWords, WordsIn, Whole;
      var n := WordsIn(remaining, width);
      moved := Whole(remaining, width);
      MoreWords(|fifo|, words, moved, n, width);
      assert buf[src..src + moved] == buf[..][src..src + moved];
      fifo := fifo + buf[src..src + moved];
      words := words + n;
    }

    /** `XStrm_Write` of `bytes` bytes at address `addr`. */
    method Write(buf: array<nat>, addr: nat, bytes: nat)
      requires Valid() && bytes <= buf.Length && buf != aligned
      modifies this`fifo, this`words, this`tail, aligned
      ensures Valid() && Written() == old(Written()) + buf[..bytes] && frames == old(frames)
    {
      hide IsWords, TxStreamer.Written;
      ghost var data, before := buf[..], Written();
      var src: nat, remaining: nat := 0, bytes;
      assert before + data[..src] == before;
      while remaining > 0
        invariant Valid() && src + remaining == bytes && buf[..] == data
        invariant Written() == before + data[..src]
        decreases remaining
      {
        if tail == width {
          Flush();
        }
        var moved: nat;
        if tail == 0 && remaining >= width && (addr + src) % 4 == 0 {
          moved := PushWords(buf, src, remaining);
        } else {
          moved := Min(remaining, width - tail);
          Hold(buf, src, moved);
        }
        MoreData(before, data, src, moved);
        src := src + moved;
        remaining := remaining - moved;
      }
    }

    /** Bytes from the source into the holding buffer. */
    method Hold(buf: array<nat>, src: nat, partial: nat)
      requires Valid() && buf != aligned && src + partial <= buf.Length && tail + partial <= width
      modifies this`tail, aligned
      ensures Valid() && Written() == old(Written()) + buf[..][src..src + partial] && tail == old(tail) + partial
    {
      hide IsWords;
      var i, k := tail, 0;
      ghost var before := aligned[..tail];
      while k < partial
        invariant 0 <= k <= partial && i == tail + k && tail == old(tail)
        invariant aligned[..i] == before + buf[src..src + k]
      {
        aligned[i] := buf[src + k];
        assert aligned[..i + 1] == aligned[..i] + [buf[src + k]];
        i := i + 1;
        k := k + 1;
      }
      assert buf[src..src + partial] == buf[..][src..src + partial];
      tail := tail + partial;
    }

    /** `XStrm_TxSetLen`: flushes the holding buffer, whatever its unused bytes are, and sends the frame. */
    method SetLen(bytes: nat)
      requires Valid() && bytes == |Written()|
      modifies this
      ensures Valid() && Written() == []
      ensures |frames| == |old(frames)| + 1 && frames[..|old(frames)|] == old(frames)
      ensures var f := frames[|old(frames)|];
              FrameOk(f, width) && f.length == bytes && f.bytes[..bytes] == old(Written()) && |f.bytes| < bytes + width
    {
      hide IsWords;
      ghost var written := Written();
      if tail != 0 {
        ghost var n := tail;
        Flush();
        assert aligned[..width][..n] == aligned[..n];
        assert fifo[..bytes] == written;
      } else {
        assert fifo[..bytes] == written;
      }
      frames := frames + [Frame(fifo, words, bytes)];
      fifo, words := [], 0;
      NoWords(width);
    }
  }

  /** `XStrm_RxFifoStreamer`. */
  class RxStreamer {
    const width: nat
    const aligned: array<nat>
    var head: nat
    var frmByteCnt: nat
    /** The words of the current frame that are still in the FIFO. */
    var fifo: seq<nat>
    var words: nat

    ghost predicate Valid()
      reads this, aligned
    {
      && 0 < width <= HOLD && aligned.Length == HOLD && head <= width && IsWords(|fifo|, words, width)
      && (frmByteCnt > 0 ==> frmByteCnt <= width - head + |fifo|)
    }

    /** The bytes of the frame that have not been read. */
    ghost function Rest(): (r: seq<nat>)
      reads this, aligned
      requires Valid()
      ensures |r| == frmByteCnt
    {
      if frmByteCnt == 0 then [] else (aligned[head..width] + fifo)[..frmByteCnt]
    }

    /** `XStrm_RxInitialize`. */
    constructor (fifoWidth: nat)
      requires 0 < fifoWidth <= HOLD
      ensures Valid() && fresh(aligned) && width == fifoWidth && Rest() == []
    {
      width := fifoWidth;
      aligned := new nat[HOLD](i => 0);
      head, frmByteCnt, fifo, words := fifoWidth, 0, [], 0;
    }

    /** `XStrm_RxGetLen`: the next frame arrives in the FIFO. */
    method GetLen(f: Frame) returns (length: nat)
      requires Valid() && FrameOk(f, width)
      modifies this
      ensures Valid() && length == f.length && Rest() == f.bytes[..f.length]
    {
      hide IsWords;
      head := width;
      fifo, words := f.bytes, f.words;
      length := f.length;
      frmByteCnt := length;
      assert aligned[width..width] + f.bytes == f.bytes;
    }

    /** Case 1: bytes from the holding buffer. */
    method Drain(buf: array<nat>, at: nat, remaining: nat) returns (partial: nat)
      requires Valid() && buf != aligned && head < width && 0 < remaining <= frmByteCnt && at + remaining <= buf.Length
      modifies this`head, this`frmByteCnt, buf
      ensures Valid() && 0 < partial <= remaining && frmByteCnt == old(frmByteCnt) - partial
      ensures buf[..] == Spliced(old(buf[..]), at, old(Rest())[..partial]) && Rest() == old(Rest())[partial..]
    {
      hide IsWords;
      ghost var rest, hold := Rest(), aligned[head..width] + fifo;
      var i := head;
      partial := Min(remaining, width - head);
      head := head + partial;
      frmByteCnt := frmByteCnt - partial;
      var k := 0;
      while k < partial
        invariant 0 <= k <= partial && i == old(head) + k
        invariant buf[..] == Spliced(old(buf[..]), at, rest[..k])
        invariant Valid() && head == old(head) + partial && frmByteCnt == old(frmByteCnt) - partial
        modifies buf
      {
        buf[at + k] := aligned[i];
        SplicedNext(old(buf[..]), at, rest, k);
        assert rest[k] == hold[k] == aligned[i];
        i := i + 1;
        k := k + 1;
      }
      Dropped(aligned[..], fifo, old(head), width, partial);
      assert Rest() == hold[partial..][..frmByteCnt] == rest[partial..];
    }

    /** Case 2: whole words straight into the destination. */
    method PullWords(buf: array<nat>, at: nat, remaining: nat) returns (moved: nat)
      requires Valid() && buf != aligned && head == width && width <= remaining <= frmByteCnt
               && at + remaining <= buf.Length
      modifies this`fifo, this`words, this`frmByteCnt, buf
      ensures Valid() && 0 < moved <= remaining && frmByteCnt == old(frmByteCnt) - moved
      ensures buf[..] == Spliced(old(buf[..]), at, old(Rest())[..moved]) && Rest() == old(Rest())[moved..]
    {
      hide IsWords, WordsIn, Whole;
      ghost var rest := Rest();
      assert aligned[width..width] + fifo == fifo;
      var n := WordsIn(remaining, width);
      moved := Whole(remaining, width);
      WholeAvailable(|fifo|, words, moved, n, width);
      forall j | 0 <= j < moved {
        buf[at + j] := fifo[j];
      }
      assert fifo[..moved] == rest[..moved];
      fifo := fifo[moved..];
      words := words - n;
      frmByteCnt := frmByteCnt - moved;
      assert aligned[width..width] + fifo == fifo;
      assert fifo[..frmByteCnt] == rest[moved..];
    }

    /** Case 3: one word into the holding buffer. */
    method Refill()
      requires Valid() && head == width && frmByteCnt > 0
      modifies this`fifo, this`words, this`head, aligned
      ensures Valid() && head == 0 && Rest() == old(Rest())
    {
      hide IsWords;
      assert aligned[width..width] + fifo == fifo;
      ByteNeedsWord(|fifo|, words, width);
      NoWords(width);
      WholeAvailable(|fifo|, words, width, 1, width);
      forall j | 0 <= j < width {
        aligned[j] := fifo[j];
      }
      ghost var before := fifo;
      fifo := fifo[width..];
      words := words - 1;
      head := 0;
      assert aligned[0..width] + fifo == before;
    }

    /** `XStrm_Read` of `bytes` bytes to address `addr`, here `buf[at..]`. The refill case consumes nothing. */
    method Read(buf: array<nat>, at: nat, addr: nat, bytes: nat)
      requires Valid() && buf != aligned && bytes <= frmByteCnt && at + bytes <= buf.Length
      modifies this`fifo, this`words, this`head, this`frmByteCnt, aligned, buf
      ensures Valid() && frmByteCnt == old(frmByteCnt) - bytes
      ensures buf[..] == Spliced(old(buf[..]), at, old(Rest())[..bytes]) && Rest() == old(Rest())[bytes..]
    {
      hide IsWords, RxStreamer.Rest, Spliced;
      ghost var rest, orig := Rest(), buf[..];
      var dest: nat, remaining: nat := at, bytes;
      SplicedNone(orig, at, rest);
      while remaining > 0
        invariant Valid() && dest + remaining == at + bytes && at <= dest && remaining <= frmByteCnt
        invariant frmByteCnt == |rest| - (dest - at) && Rest() == rest[dest - at..]
        invariant buf[..] == Spliced(orig, at, rest[..dest - at])
        decreases remaining, if head == width then 1 else 0
      {
        ghost var n := dest - at;
        if head != width {
          var partial := Drain(buf, dest, remaining);
          SplicedMore(orig, at, rest, n, partial);
          dest := dest + partial;
          remaining := remaining - partial;
        } else if (addr + (dest - at)) % 4 == 0 && remaining >= width {
          var moved := PullWords(buf, dest, remaining);
          SplicedMore(orig, at, rest, n, moved);
          dest := dest + moved;
          remaining := remaining - moved;
        } else {
          Refill();
        }
      }
      if frmByteCnt == 0 {
        head := 0;
      }
    }
  }

  /** What remains of the holding buffer and the FIFO behind it. */
  lemma Dropped(hold: seq<nat>, fifo: seq<nat>, head: nat, width: nat, n: nat)
    requires head + n <= width <= |hold|
    ensures (hold[head..width] + fifo)[n..] == hold[head + n..width] + fifo
  {
  }

  /** A buffer after `data` has been written at `at`. */
  function Spliced(s: seq<nat>, at: nat, data: seq<nat>): (r: seq<nat>)
    requires at + |data| <= |s|
    ensures |r| == |s|
  {
    s[..at] + data + s[at + |data|..]
  }

  lemma SplicedNone(s: seq<nat>, at: nat, data: seq<nat>)
    requires at <= |s|
    ensures data[0..] == data && Spliced(s, at, data[..0]) == s
  {
  }

  lemma SplicedNext(s: seq<nat>, at: nat, data: seq<nat>, k: nat)
    requires k < |data| && at + k < |s|
    ensures Spliced(s, at, data[..k])[at + k := data[k]] == Spliced(s, at, data[..k + 1])
  {
  }

  /** One more run of bytes right behind the last. */
  lemma SplicedMore(s: seq<nat>, at: nat, data: seq<nat>, k: nat, n: nat)
    requires k + n <= |data| && at + k + n <= |s|
    ensures Spliced(Spliced(s, at, data[..k]), at + k, data[k..][..n]) == Spliced(s, at, data[..k + n])
    ensures data[k..][n..] == data[k + n..]
  {
    assert data[..k + n] == data[..k] + data[k..][..n];
  }

  lemma SplicedPrefix(s: seq<nat>, at: nat, data: seq<nat>, all: seq<nat>)
    requires at + |data| <= |s| && at + |data| <= |all| && s[..at] == all[..at] && data == all[at..][..|data|]
    ensures Spliced(s, at, data)[..at + |data|] == all[..at + |data|] && all[at..][|data|..] == all[at + |data|..]
  {
    assert all[..at + |data|] == all[..at] + data;
  }

  // ---------- the two ends together ----------

  ghost function Contents(chunks: seq<array<nat>>): seq<nat>
    reads chunks
  {
    if chunks == [] then [] else Contents(chunks[..|chunks| - 1]) + chunks[|chunks| - 1][..]
  }

  function Sum(sizes: seq<nat>): nat {
    if sizes == [] then 0 else Sum(sizes[..|sizes| - 1]) + sizes[|sizes| - 1]
  }

  lemma {:induction false} SumPrefix(sizes: seq<nat>, i: nat)
    requires i < |sizes|
    ensures Sum(sizes[..i + 1]) == Sum(sizes[..i]) + sizes[i] <= Sum(sizes)
    decreases |sizes|
  {
    assert sizes[..i + 1][..i] == sizes[..i];
    if i + 1 < |sizes| {
      SumPrefix(sizes[..|sizes| - 1], i);
      assert sizes[..|sizes| - 1][..i + 1] == sizes[..i + 1] && sizes[..|sizes| - 1][..i] == sizes[..i];
    } else {
      assert sizes[..i + 1] == sizes;
    }
  }

  /** One frame, written in any pieces from any addresses. */
  method WriteFrame(tx: TxStreamer, chunks: seq<array<nat>>, from: seq<nat>)
    requires tx.Valid() && tx.Written() == [] && |from| == |chunks|
    requires forall c | c in chunks :: c != tx.aligned
    modifies tx, tx.aligned
    ensures tx.Valid() && tx.Written() == [] && |tx.frames| == |old(tx.frames)| + 1
    ensures var f := tx.frames[|old(tx.frames)|]; FrameOk(f, tx.width) && f.bytes[..f.length] == old(Contents(chunks))
  {
    hide IsWords, TxStreamer.Written;
    assert chunks[..0] == [];
    var total, i := 0, 0;
    while i < |chunks|
      invariant 0 <= i <= |chunks| && tx.Valid() && tx.frames == old(tx.frames)
      invariant forall c | c in chunks :: c[..] == old(c[..])
      invariant tx.Written() == old(Contents(chunks[..i])) && total == |tx.Written()|
    {
      assert chunks[i] in chunks && chunks[..i + 1][..i] == chunks[..i];
      tx.Write(chunks[i], from[i], chunks[i].Length);
      total := total + chunks[i].Length;
      i := i + 1;
    }
    assert chunks[..i] == chunks;
    tx.SetLen(total);
  }

  /** One frame, read in any pieces to any addresses. */
  method ReadFrame(rx: RxStreamer, sizes: seq<nat>, to: seq<nat>) returns (out: array<nat>)
    requires rx.Valid() && |to| == |sizes| && Sum(sizes) == rx.frmByteCnt
    modifies rx, rx.aligned
    ensures out[..] == old(rx.Rest()) && fresh(out)
  {
    hide IsWords, RxStreamer.Rest;
    ghost var data := rx.Rest();
    out := new nat[rx.frmByteCnt](i => 0);
    assert data[0..] == data && sizes[..0] == [];
    var at, i := 0, 0;
    while i < |sizes|
      invariant 0 <= i <= |sizes| && rx.Valid() && at == Sum(sizes[..i]) <= out.Length
      invariant out[..at] == data[..at] && rx.Rest() == data[at..] && rx.frmByteCnt == |data| - at
    {
      SumPrefix(sizes, i);
      ghost var was := out[..];
      rx.Read(out, at, to[i], sizes[i]);
      SplicedPrefix(was, at, data[at..][..sizes[i]], data);
      at := at + sizes[i];
      i := i + 1;
    }
    assert sizes[..i] == sizes;
  }

  /** Whatever the pieces and addresses at either end, exactly the bytes written arrive. */
  method Transfer(tx: TxStreamer, rx: RxStreamer, chunks: seq<array<nat>>, from: seq<nat>, sizes: seq<nat>,
                  to: seq<nat>)
    returns (out: array<nat>)
    requires tx.Valid() && rx.Valid() && tx.width == rx.width && tx.Written() == [] && tx.aligned != rx.aligned
    requires |from| == |chunks| && |to| == |sizes| && Sum(sizes) == |Contents(chunks)|
    requires forall c | c in chunks :: c != tx.aligned
    modifies tx, tx.aligned, rx, rx.aligned
    ensures out[..] == old(Contents(chunks)) && fresh(out)
  {
    hide IsWords, TxStreamer.Written, RxStreamer.Rest;
    WriteFrame(tx, chunks, from);
    var length := rx.GetLen(tx.frames[|tx.frames| - 1]);
    out := ReadFrame(rx, sizes, to);
  }
}
