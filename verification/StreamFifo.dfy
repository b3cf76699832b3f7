/** The clocked stream elements: ring FIFO, register slice and fork, refined to queues. */
module StreamFifo {

  /** The successor of an index in the ring. */
  lemma NextIndex(i: nat, depth: nat)
    requires i < depth
    ensures (i + 1) % depth == if i + 1 == depth then 0 else i + 1
  {
    if i + 1 == depth {
      assert depth % depth == 0;
    }
  }

  /** Position `i` places behind `from`. */
  function Slot(from: nat, i: nat, depth: nat): (k: nat)
    requires from < depth && i <= depth
    ensures k < depth
  {
    if from + i < depth then from + i else from + i - depth
  }

  /** The `n` elements from position `from` on, around the ring. */
  function Window<T>(s: seq<T>, from: nat, n: nat): (q: seq<T>)
    requires from < |s| && n <= |s|
    ensures |q| == n && forall i | 0 <= i < n :: q[i] == s[Slot(from, i, |s|)]
  {
    seq(n, i requires 0 <= i < n => s[Slot(from, i, |s|)])
  }

  /** Writing behind the window appends. */
  lemma WindowWrite<T>(s: seq<T>, from: nat, n: nat, x: T)
    requires from < |s| && n < |s|
    ensures Window(s[Slot(from, n, |s|) := x], from, n + 1) == Window(s, from, n) + [x]
  {
  }

  /** Reading drops the first element. */
  lemma WindowRead<T>(s: seq<T>, from: nat, n: nat)
    requires from < |s| && 0 < n <= |s|
    ensures Window(s, Slot(from, 1, |s|), n - 1) == Window(s, from, n)[1..]
  {
  }

  /** A queue after a read and a write. */
  function Served<T>(q: seq<T>, take: bool, put: seq<T>): seq<T> {
    (if take && q != [] then q[1..] else q) + put
  }

  lemma WindowServed<T>(s: seq<T>, from: nat, n: nat, write: bool, read: bool, x: T)
    requires from < |s| && n <= |s| && (write ==> n < |s|) && (read ==> n > 0)
    ensures var s' := if write then s[Slot(from, n, |s|) := x] else s;
            Served(Window(s, from, n), read, if write then [x] else [])
            == Window(s', if read then Slot(from, 1, |s|) else from,
                      n + (if write then 1 else 0) - (if read then 1 else 0))
  {
    if write {
      WindowWrite(s, from, n, x);
      if read {
        WindowRead(s[Slot(from, n, |s|) := x], from, n + 1);
      }
    } else if read {
      WindowRead(s, from, n);
    }
  }

  /** `sfifo_cc`; with `depth` 2 also the two-deep register slice. */
  class Ring<T> {
    const depth: nat
    const data: array<T>
    var rd: nat
    var wr: nat
    var full: bool
    var empty: bool

    ghost predicate Valid()
      reads this
    {
      && 1 <= depth == data.Length && rd < depth && wr < depth
      && !(full && empty) && (rd == wr <==> full || empty)
    }

    ghost function Count(): nat
      reads this
      requires Valid()
    {
      if full then depth else if wr >= rd then wr - rd else wr + depth - rd
    }

    /** The queue that the ring holds. */
    ghost function Queue(): (q: seq<T>)
      reads this, data
      requires Valid()
      ensures |q| == Count() <= depth
    {
      Window(data[..], rd, Count())
    }

    /** Reset. */
    constructor (size: nat, init: T)
      requires size >= 1
      ensures Valid() && fresh(data) && depth == size && Queue() == []
    {
      depth := size;
      data := new T[size](i => init);
      rd, wr, full, empty := 0, 0, false, true;
    }

    /** The combinational outputs. */
    method Outputs() returns (outValid: bool, outData: T, inReady: bool)
      requires Valid()
      ensures outValid == (Queue() != []) && inReady == (|Queue()| < depth)
      ensures outValid ==> outData == Queue()[0]
    {
      outValid, outData, inReady := !empty, data[rd], !full;
    }

    /** One clock edge: a bounded queue, with simultaneous reads and writes. */
    method Clock(inValid: bool, inData: T, outReady: bool)
      requires Valid()
      modifies this`rd, this`wr, this`full, this`empty, data
      ensures Valid()
      ensures var q := old(Queue()); Queue() == Served(q, outReady, if inValid && |q| < depth then [inData] else [])
    {
      hide Window, Served;
      ghost var s, n := data[..], Count();
      var wrEn, rdEn := inValid && !full, outReady && !empty;
      WindowServed(s, rd, n, wrEn, rdEn, inData);
      NoRead(Window(s, rd, n), outReady, rdEn, if wrEn then [inData] else []);
      NextIndex(wr, depth);
      NextIndex(rd, depth);
      var wrInc, rdInc, rd0 := (wr + 1) % depth, (rd + 1) % depth, rd;
      if wrEn {
        data[wr] := inData;
      }
      assert data[..] == if wrEn then s[wr := inData] else s;
      Move(wrEn, rdEn, wrInc, rdInc);
    }

    /** The index and flag registers. */
    method Move(wrEn: bool, rdEn: bool, wrInc: nat, rdInc: nat)
      requires Valid() && (wrEn ==> !full) && (rdEn ==> !empty)
      requires wrInc == (if wr + 1 == depth then 0 else wr + 1) && rdInc == (if rd + 1 == depth then 0 else rd + 1)
      modifies this`rd, this`wr, this`full, this`empty
      ensures Valid() && rd == (if rdEn then Slot(old(rd), 1, depth) else old(rd))
      ensures Count() == old(Count()) + (if wrEn then 1 else 0) - (if rdEn then 1 else 0)
      ensures !old(full) ==> old(wr) == Slot(old(rd), old(Count()), depth)
    {
      var wr0, rd0 := wr, rd;
      if wrEn {
        wr := wrInc;
        if !rdEn {
          if wrInc == rd0 {
            full := true;
          }
          empty := false;
        }
      }
      if rdEn {
        rd := rdInc;
        if !wrEn {
          full := false;
          if rdInc == wr0 {
            empty := true;
          }
        }
      }
    }
  }

  lemma NoRead<T>(q: seq<T>, outReady: bool, rdEn: bool, put: seq<T>)
    requires rdEn == (outReady && q != [])
    ensures Served(q, outReady, put) == Served(q, rdEn, put)
  {
  }

  /** The one-deep register slice. */
  class Slice<T> {
    var valid: bool
    var data: T

    ghost function Queue(): seq<T>
      reads this
    {
      if valid then [data] else []
    }

    constructor (init: T)
      ensures Queue() == []
    {
      valid, data := false, init;
    }

    /** One clock edge: an element enters when the slice is empty or drains in the same cycle. */
    method Clock(inValid: bool, inData: T, outReady: bool) returns (outValid: bool, outData: T, inReady: bool)
      modifies this
      ensures var q := old(Queue());
              && inReady == (outReady || q == []) && outValid == (q != []) && (outValid ==> outData == q[0])
              && Queue() == Served(q, outReady, if inValid && inReady then [inData] else [])
    {
      outValid, outData, inReady := valid, data, outReady || !valid;
      if outReady || !valid {
        data := inData;
        valid := inValid;
      }
    }
  }

  /** The fork of the split unit: two two-deep slices that accept in lockstep. */
  class Fork<T> {
    const left: Ring<T>
    const right: Ring<T>
    ghost var accepted: seq<T>
    ghost var delivered1: seq<T>
    ghost var delivered2: seq<T>

    ghost predicate Valid()
      reads this, left, right, left.data, right.data
    {
      && left != right && left.data != right.data && left.Valid() && right.Valid() && left.depth == 2
         && right.depth == 2
      && accepted == delivered1 + left.Queue() && accepted == delivered2 + right.Queue()
    }

    constructor (init: T)
      ensures Valid() && accepted == [] && fresh(left) && fresh(right) && fresh(left.data) && fresh(right.data)
    {
      left := new Ring(2, init);
      right := new Ring(2, init);
      accepted, delivered1, delivered2 := [], [], [];
    }

    /** The two slices behind the combinational fork. */
    method Route(inValid: bool, inData: T, ready1: bool, ready2: bool)
      returns (inReady: bool, valid1: bool, data1: T, valid2: bool, data2: T)
      requires Valid()
      modifies left, right, left.data, right.data
      ensures left.Valid() && right.Valid()
      ensures var q1, q2, put := old(left.Queue()), old(right.Queue()), if inValid && inReady then [inData] else [];
              && left.Queue() == Served(q1, ready1, put) && right.Queue() == Served(q2, ready2, put)
              && valid1 == (q1 != []) && valid2 == (q2 != []) && (valid1 ==> data1 == q1[0])
                 && (valid2 ==> data2 == q2[0])
    {
      hide Served, Ring.Queue, Ring.Valid;
      var inReady1, inReady2;
      valid1, data1, inReady1 := left.Outputs();
      valid2, data2, inReady2 := right.Outputs();
      inReady := inReady1 && inReady2;
      left.Clock(inValid && inReady2, inData, ready1);
      right.Clock(inValid && inReady1, inData, ready2);
    }

    /** One clock edge: both branches get the same accepted sequence, each in its own time. */
    method Clock(inValid: bool, inData: T, ready1: bool, ready2: bool)
      returns (inReady: bool, valid1: bool, data1: T, valid2: bool, data2: T)
      requires Valid()
      modifies this, left, right, left.data, right.data
      ensures Valid() && accepted == old(accepted) + if inValid && inReady then [inData] else []
      ensures delivered1 == old(delivered1) + if valid1 && ready1 then [data1] else []
      ensures delivered2 == old(delivered2) + if valid2 && ready2 then [data2] else []
    {
      hide Served, Ring.Queue, Ring.Valid;
      ghost var q1, q2 := left.Queue(), right.Queue();
      inReady, valid1, data1, valid2, data2 := Route(inValid, inData, ready1, ready2);
      ghost var put := if inValid && inReady then [inData] else [];
      Delivered(accepted, delivered1, q1, ready1, put);
      Delivered(accepted, delivered2, q2, ready2, put);
      accepted := accepted + put;
      delivered1 := delivered1 + if valid1 && ready1 then [data1] else [];
      delivered2 := delivered2 + if valid2 && ready2 then [data2] else [];
    }
  }

  lemma Delivered<T>(accepted: seq<T>, delivered: seq<T>, q: seq<T>, take: bool, put: seq<T>)
    requires accepted == delivered + q
    ensures accepted + put == delivered + (if take && q != [] then [q[0]] else []) + Served(q, take, put)
  {
    if take && q != [] {
      assert q == [q[0]] + q[1..];
    }
  }
}
