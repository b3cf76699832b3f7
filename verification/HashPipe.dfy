/** The twelve-stage hash pipeline of the hash unit, under stalls. */
module HashPipeline {
  import opened ShortHash

  const STAGES: nat := 12

  /** The remaining rounds of what has reached stage `i`. */
  function Finish(s: State, i: nat): State
    requires i < STAGES
    decreases STAGES - i, s
  {
    if i == STAGES - 1 then s else Finish(Round(s, i + 1), i + 1)
  }

  lemma {:induction false} FinishIs(s: State, i: nat)
    requires i < STAGES
    ensures Finish(Rounds(s, i), i) == Rounds(s, STAGES - 1)
    decreases STAGES - i
  {
    hide Round;
    if i < STAGES - 1 {
      assert Rounds(s, i + 1) == Round(Rounds(s, i), i + 1);
      FinishIs(s, i + 1);
    }
  }

  /** Results of the valid stages from the last one down to stage `i`, in the order in which they will leave. */
  function Flight(st: seq<State>, v: seq<bool>, i: nat): seq<State>
    requires |st| == STAGES && |v| == STAGES && i <= STAGES
    decreases STAGES - i, st
  {
    if i == STAGES then [] else Flight(st, v, i + 1) + if v[i] then [Finish(st[i], i)] else []
  }

  /** What is in the last stage. */
  function Leaving(st: seq<State>, v: seq<bool>): seq<State>
    requires |st| == STAGES && |v| == STAGES
  {
    if v[STAGES - 1] then [st[STAGES - 1]] else []
  }

  function Shifted(st: seq<State>, first: State): seq<State>
    requires |st| == STAGES
  {
    seq(STAGES, i requires 0 <= i < STAGES => if i == 0 then first else Round(st[i - 1], i))
  }

  /** One advance of the pipeline moves every result on and lets the one in the last stage go. */
  lemma {:induction false} FlightMoves(st: seq<State>, v: seq<bool>, first: State, valid: bool, i: nat)
    requires |st| == STAGES && |v| == STAGES && i < STAGES
    ensures Leaving(st, v) + Flight(Shifted(st, first), [valid] + v[..STAGES - 1], i + 1) == Flight(st, v, i)
    decreases STAGES - i
  {
    hide Round;
    var st', v' := Shifted(st, first), [valid] + v[..STAGES - 1];
    if i < STAGES - 1 {
      FlightMoves(st, v, first, valid, i + 1);
      assert v'[i + 1] == v[i] && st'[i + 1] == Round(st[i], i + 1);
    }
  }

  function Results(inputs: seq<State>): seq<State> {
    seq(|inputs|, i requires 0 <= i < |inputs| => Rounds(inputs[i], STAGES - 1))
  }

  /** `short_hash`. */
  class Pipe {
    var st: seq<State>
    var v: seq<bool>
    /** The blocks that entered and the results that left. */
    ghost var accepted: seq<State>
    ghost var emitted: seq<State>

    ghost predicate Valid()
      reads this
    {
      && |st| == STAGES && |v| == STAGES
      && Results(accepted) == emitted + Flight(st, v, 0)
    }

    /** Reset. */
    constructor ()
      ensures Valid() && accepted == [] && emitted == []
    {
      st, v := seq(STAGES, i => State(0, 0, 0, 0)), seq(STAGES, i => false);
      accepted, emitted := [], [];
      new;
      NoFlight(st, v, 0);
    }

    /**
     One clock edge with `ready` from the consumer: nothing moves in a stall; otherwise all stages advance and a block
     enters when both key and tap are valid. The output is that of the last stage before the edge.
     */
    method Clock(ready: bool, keyValid: bool, tapValid: bool, length: Word, data0: Word, data1: Word, tap: State)
      returns (outValid: bool, out: State, keyReady: bool)
      requires Valid()
      modifies this
      ensures Valid() && keyReady == (ready && tapValid)
      ensures accepted == old(accepted) + if keyValid && keyReady then [Absorb(tap, length, data0, data1)] else []
      ensures emitted == old(emitted) + if outValid && ready then [out] else []
    {
      hide Round, Rounds, Absorb, Flight, Results, Shifted;
      outValid, out, keyReady := v[STAGES - 1], st[STAGES - 1], ready && tapValid;
      if ready {
        var first, enters := Absorb(tap, length, data0, data1), keyValid && tapValid;
        Advanced(accepted, emitted, st, v, first, enters);
        emitted := emitted + Leaving(st, v);
        accepted := accepted + if enters then [first] else [];
        ShiftedSize(st, first);
        st := Shifted(st, first);
        v := [enters] + v[..STAGES - 1];
      }
    }
  }

  lemma {:induction false} NoFlight(st: seq<State>, v: seq<bool>, i: nat)
    requires |st| == STAGES && |v| == STAGES && i <= STAGES && forall j | 0 <= j < STAGES :: !v[j]
    ensures Flight(st, v, i) == []
    decreases STAGES - i
  {
    if i < STAGES {
      NoFlight(st, v, i + 1);
    }
  }

  lemma Entering(st: seq<State>, v: seq<bool>)
    requires |st| == STAGES && |v| == STAGES
    ensures Flight(st, v, 0) == Flight(st, v, 1) + if v[0] then [Rounds(st[0], STAGES - 1)] else []
  {
    FinishIs(st[0], 0);
  }

  lemma ShiftedSize(st: seq<State>, first: State)
    requires |st| == STAGES
    ensures |Shifted(st, first)| == STAGES && Shifted(st, first)[0] == first
  {
  }

  lemma Advanced(accepted: seq<State>, emitted: seq<State>, st: seq<State>, v: seq<bool>, first: State, enters: bool)
    requires |st| == STAGES && |v| == STAGES && Results(accepted) == emitted + Flight(st, v, 0)
    ensures Results(accepted + if enters then [first] else [])
         == emitted + Leaving(st, v) + Flight(Shifted(st, first), [enters] + v[..STAGES - 1], 0)
  {
    hide Flight, Leaving, Shifted, Rounds, Results;
    var st', v' := Shifted(st, first), [enters] + v[..STAGES - 1];
    ShiftedSize(st, first);
    FlightMoves(st, v, first, enters, 0);
    Entering(st', v');
    ResultsGrow(accepted, first);
    Regroup(emitted, Leaving(st, v), Flight(st', v', 1), if enters then [Rounds(first, STAGES - 1)] else []);
    assert !enters ==> accepted + [] == accepted;
  }

  lemma Regroup(e: seq<State>, l: seq<State>, r: seq<State>, m: seq<State>)
    ensures e + l + (r + m) == e + (l + r) + m
  {
  }

  lemma ResultsGrow(inputs: seq<State>, x: State)
    ensures Results(inputs + [x]) == Results(inputs) + [Rounds(x, STAGES - 1)]
  {
  }

  /** For a key of 1 to 16 bytes the pipeline computes the software hash. */
  lemma PipeIsHash(key: seq<Byte>, seed: Word)
    requires 0 < |key| <= 16
    ensures Rounds(Absorb(Start(seed), |key|, Load64(key, 0), Load64(key, 8)), STAGES - 1) == Hash(Start(seed), key)
  {
    hide Rounds, Absorb, Load64;
    var s := Block(Start(seed), key);
    assert (if |key| < 16 then [] else key[16..]) == [];
    assert Hash(s, []) == s;
  }
}
