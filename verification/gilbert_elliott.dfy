/**
 * The two-state Markov burst-error channel of `src/gilbert_elliott_channel.py`.
 * Every transmitted unit (a byte for `Transmit`, a bit for `TransmitBits`)
 * is counted in the current state, draws `random.random()` against that
 * state's error probability (and, for a byte in error, `random.randint(1, 255)`
 * as the exclusive-or mask), then draws `random.random()` against the
 * probability of leaving the state.
 */
module GilbertElliott {
  import opened Bytes
  import opened Randomness

  datatype ChannelState = Good | Bad
  {
    function Other(): ChannelState
    {
      if Good? then Bad else Good
    }
  }

  datatype Parameters = Parameters(goodToBad: real, badToGood: real, goodErrorProb: real, badErrorProb: real)
  {
    function ErrorProb(s: ChannelState): real
    {
      if s.Good? then goodErrorProb else badErrorProb
    }

    function LeaveProb(s: ChannelState): real
    {
      if s.Good? then goodToBad else badToGood
    }
  }

  /** The channel's mutable fields, together with how many draws have been used. */
  datatype Snapshot = Snapshot(state: ChannelState, goodCount: nat, badCount: nat, cursor: nat)
  {
    /** The counter of the current state, incremented. */
    function Counted(): Snapshot
    {
      if state.Good? then this.(goodCount := goodCount + 1) else this.(badCount := badCount + 1)
    }
  }

  /** The transition draw at position `at`, made after the error decision. */
  function Move(p: Parameters, o: Oracle, s: ChannelState, at: nat): ChannelState
  {
    if o.uniform(at) < p.LeaveProb(s) then s.Other() else s
  }

  /** `c` is `b` exclusive-or some mask in 1..255, as `randint(1, 255)` yields. */
  ghost predicate Corrupted(b: byte, c: byte)
  {
    exists m: byte :: 1 <= m && c == Xor(b, m)
  }

  /** A corrupted byte always differs from the byte sent. */
  lemma CorruptedDiffers(b: byte, c: byte)
    requires Corrupted(b, c)
    ensures c != b
  {
    var m: byte :| 1 <= m && c == Xor(b, m);
  }

  /** One pass of the loop body of `transmit` for byte `b`. */
  function ByteStep(p: Parameters, o: Oracle, s: Snapshot, b: byte): (r: (byte, Snapshot))
    ensures r.1.goodCount + r.1.badCount == s.goodCount + s.badCount + 1
  {
    var counted := s.Counted();
    var erroneous := o.uniform(s.cursor) < p.ErrorProb(s.state);
    var out := if erroneous then Xor(b, IntAt(o, s.cursor + 1, 1, 255)) else b;
    var at := if erroneous then s.cursor + 2 else s.cursor + 1;
    (out, counted.(state := Move(p, o, s.state, at), cursor := at + 1))
  }

  /** A byte leaves `ByteStep` as sent or corrupted. */
  lemma ByteStepCorrupts(p: Parameters, o: Oracle, s: Snapshot, b: byte)
    ensures var c := ByteStep(p, o, s, b).0; c == b || Corrupted(b, c)
  {
    if o.uniform(s.cursor) < p.ErrorProb(s.state) {
      var m: byte := IntAt(o, s.cursor + 1, 1, 255);
      assert ByteStep(p, o, s, b).0 == Xor(b, m);
    }
  }

  /** One pass of the loop body of `transmit_bits` for bit `x`. */
  function BitStep(p: Parameters, o: Oracle, s: Snapshot, x: bit): (r: (bit, Snapshot))
    ensures r.0 == x || r.0 == 1 - x
    ensures r.1.goodCount + r.1.badCount == s.goodCount + s.badCount + 1
  {
    var counted := s.Counted();
    var out := if o.uniform(s.cursor) < p.ErrorProb(s.state) then 1 - x else x;
    (out, counted.(state := Move(p, o, s.state, s.cursor + 1), cursor := s.cursor + 2))
  }

  /** What `transmit(data)` returns and the channel state it leaves, from snapshot `s`. */
  function Run(p: Parameters, o: Oracle, s: Snapshot, data: seq<byte>): (r: (seq<byte>, Snapshot))
    ensures |r.0| == |data|
    ensures r.1.goodCount + r.1.badCount == s.goodCount + s.badCount + |data|
  {
    if data == [] then ([], s)
    else
      var prev := Run(p, o, s, data[..|data| - 1]);
      var step := ByteStep(p, o, prev.1, data[|data| - 1]);
      (prev.0 + [step.0], step.1)
  }

  /** `ByteStep` from the good state, written out. */
  lemma ByteStepGood(p: Parameters, o: Oracle, s: Snapshot, b: byte)
    requires s.state == Good
    ensures var c := s.cursor;
      var erroneous := o.uniform(c) < p.goodErrorProb;
      var at := if erroneous then c + 2 else c + 1;
      ByteStep(p, o, s, b) ==
        (if erroneous then Xor(b, IntAt(o, c + 1, 1, 255)) else b,
         Snapshot(if o.uniform(at) < p.goodToBad then Bad else Good, s.goodCount + 1, s.badCount, at + 1))
  {
  }

  /** `ByteStep` from the bad state, written out. */
  lemma ByteStepBad(p: Parameters, o: Oracle, s: Snapshot, b: byte)
    requires s.state == Bad
    ensures var c := s.cursor;
      var erroneous := o.uniform(c) < p.badErrorProb;
      var at := if erroneous then c + 2 else c + 1;
      ByteStep(p, o, s, b) ==
        (if erroneous then Xor(b, IntAt(o, c + 1, 1, 255)) else b,
         Snapshot(if o.uniform(at) < p.badToGood then Good else Bad, s.goodCount, s.badCount + 1, at + 1))
  {
  }

  /** `Run` over one more byte. */
  lemma RunSnoc(p: Parameters, o: Oracle, s: Snapshot, data: seq<byte>, i: nat)
    requires i < |data|
    ensures var prev := Run(p, o, s, data[..i]);
      var step := ByteStep(p, o, prev.1, data[i]);
      Run(p, o, s, data[..i + 1]) == (prev.0 + [step.0], step.1)
  {
    assert data[..i + 1][..i] == data[..i];
  }

  /** `RunBits` over one more bit. */
  lemma RunBitsSnoc(p: Parameters, o: Oracle, s: Snapshot, bits: seq<bit>, i: nat)
    requires i < |bits|
    ensures var prev := RunBits(p, o, s, bits[..i]);
      var step := BitStep(p, o, prev.1, bits[i]);
      RunBits(p, o, s, bits[..i + 1]) == (prev.0 + [step.0], step.1)
  {
    assert bits[..i + 1][..i] == bits[..i];
  }

  /** What `transmit_bits(bits)` returns and the channel state it leaves. */
  function RunBits(p: Parameters, o: Oracle, s: Snapshot, bits: seq<bit>): (r: (seq<bit>, Snapshot))
    ensures |r.0| == |bits|
    ensures r.1.goodCount + r.1.badCount == s.goodCount + s.badCount + |bits|
  {
    if bits == [] then ([], s)
    else
      var prev := RunBits(p, o, s, bits[..|bits| - 1]);
      var step := BitStep(p, o, prev.1, bits[|bits| - 1]);
      (prev.0 + [step.0], step.1)
  }

  /** Every byte is delivered as sent or corrupted, and a corrupted byte differs. */
  lemma {:induction false} RunCorrupts(p: Parameters, o: Oracle, s: Snapshot, data: seq<byte>)
    ensures var out := Run(p, o, s, data).0;
      forall i :: 0 <= i < |data| ==>
        out[i] == data[i] || (Corrupted(data[i], out[i]) && out[i] != data[i])
  {
    if data != [] {
      var n := |data|;
      RunCorrupts(p, o, s, data[..n - 1]);
      var prev := Run(p, o, s, data[..n - 1]);
      var step := ByteStep(p, o, prev.1, data[n - 1]);
      ByteStepCorrupts(p, o, prev.1, data[n - 1]);
      if step.0 != data[n - 1] {
        CorruptedDiffers(data[n - 1], step.0);
      }
    }
  }

  /** Every bit is delivered as sent or flipped. */
  lemma {:induction false} RunBitsFlips(p: Parameters, o: Oracle, s: Snapshot, bits: seq<bit>)
    ensures var out := RunBits(p, o, s, bits).0;
      forall i :: 0 <= i < |bits| ==> out[i] == bits[i] || out[i] == 1 - bits[i]
  {
    if bits != [] {
      RunBitsFlips(p, o, s, bits[..|bits| - 1]);
    }
  }

  /** With both error probabilities 0 no draw falls below them: output equals input. */
  lemma {:induction false} RunNoErrors(p: Parameters, o: Oracle, s: Snapshot, data: seq<byte>)
    requires p.goodErrorProb == 0.0 && p.badErrorProb == 0.0
    ensures Run(p, o, s, data).0 == data
  {
    if data != [] {
      RunNoErrors(p, o, s, data[..|data| - 1]);
      assert data == data[..|data| - 1] + [data[|data| - 1]];
    }
  }

  lemma {:induction false} RunBitsNoErrors(p: Parameters, o: Oracle, s: Snapshot, bits: seq<bit>)
    requires p.goodErrorProb == 0.0 && p.badErrorProb == 0.0
    ensures RunBits(p, o, s, bits).0 == bits
  {
    if bits != [] {
      RunBitsNoErrors(p, o, s, bits[..|bits| - 1]);
      assert bits == bits[..|bits| - 1] + [bits[|bits| - 1]];
    }
  }

  /** With `good_to_bad == 0` a channel in the good state never leaves it. */
  lemma {:induction false} RunStaysGood(p: Parameters, o: Oracle, s: Snapshot, data: seq<byte>)
    requires p.goodToBad == 0.0 && s.state == Good
    ensures Run(p, o, s, data).1.state == Good
    ensures Run(p, o, s, data).1.badCount == s.badCount
  {
    if data != [] {
      RunStaysGood(p, o, s, data[..|data| - 1]);
    }
  }

  lemma {:induction false} RunBitsStaysGood(p: Parameters, o: Oracle, s: Snapshot, bits: seq<bit>)
    requires p.goodToBad == 0.0 && s.state == Good
    ensures RunBits(p, o, s, bits).1.state == Good
    ensures RunBits(p, o, s, bits).1.badCount == s.badCount
  {
    if bits != [] {
      RunBitsStaysGood(p, o, s, bits[..|bits| - 1]);
    }
  }

  /**
   * A channel that starts good, with `good_to_bad == 0` and
   * `good_error_prob == 0`, passes every byte through and stays good, whatever
   * the bad-state probabilities are.
   */
  lemma {:induction false} RunGoodPassthrough(p: Parameters, o: Oracle, s: Snapshot, data: seq<byte>)
    requires p.goodToBad == 0.0 && p.goodErrorProb == 0.0 && s.state == Good
    ensures Run(p, o, s, data).0 == data
    ensures Run(p, o, s, data).1.state == Good
  {
    if data != [] {
      RunGoodPassthrough(p, o, s, data[..|data| - 1]);
      assert data == data[..|data| - 1] + [data[|data| - 1]];
    }
  }

  lemma {:induction false} RunBitsGoodPassthrough(p: Parameters, o: Oracle, s: Snapshot, bits: seq<bit>)
    requires p.goodToBad == 0.0 && p.goodErrorProb == 0.0 && s.state == Good
    ensures RunBits(p, o, s, bits).0 == bits
    ensures RunBits(p, o, s, bits).1.state == Good
  {
    if bits != [] {
      RunBitsGoodPassthrough(p, o, s, bits[..|bits| - 1]);
      assert bits == bits[..|bits| - 1] + [bits[|bits| - 1]];
    }
  }

  class GilbertElliottChannel {
    const goodToBad: real
    const badToGood: real
    const goodErrorProb: real
    const badErrorProb: real
    /** The process-wide `random` module the channel draws from. */
    const rng: RandomSource
    var state: ChannelState
    var goodStateCount: nat
    var badStateCount: nat

    function Params(): Parameters
    {
      Parameters(goodToBad, badToGood, goodErrorProb, badErrorProb)
    }

    function Snap(): Snapshot
      reads this, rng
    {
      Snapshot(state, goodStateCount, badStateCount, rng.cursor)
    }

    constructor (goodToBad: real, badToGood: real, goodErrorProb: real, badErrorProb: real, rng: RandomSource)
      ensures Params() == Parameters(goodToBad, badToGood, goodErrorProb, badErrorProb)
      ensures this.rng == rng
      ensures state == Good && goodStateCount == 0 && badStateCount == 0
    {
      this.goodToBad := goodToBad;
      this.badToGood := badToGood;
      this.goodErrorProb := goodErrorProb;
      this.badErrorProb := badErrorProb;
      this.rng := rng;
      state := Good;
      goodStateCount := 0;
      badStateCount := 0;
    }

    /** One pass of the loop body of `transmit`: sends byte `b`. */
    method TransmitByte(b: byte) returns (out: byte)
      modifies this, rng
      ensures (out, Snap()) == ByteStep(Params(), rng.oracle, old(Snap()), b)
    {
      if state == Good {
        ByteStepGood(Params(), rng.oracle, Snap(), b);
        goodStateCount := goodStateCount + 1;
        var u := rng.Random();
        if u < goodErrorProb {
          var mask := rng.RandInt(1, 255);
          out := Xor(b, mask);
        } else {
          out := b;
        }
        var v := rng.Random();
        if v < goodToBad {
          state := Bad;
        }
      } else {
        ByteStepBad(Params(), rng.oracle, Snap(), b);
        badStateCount := badStateCount + 1;
        var u := rng.Random();
        if u < badErrorProb {
          var mask := rng.RandInt(1, 255);
          out := Xor(b, mask);
        } else {
          out := b;
        }
        var v := rng.Random();
        if v < badToGood {
          state := Good;
        }
      }
    }

    /** `transmit(data)` */
    method Transmit(data: seq<byte>) returns (transmitted: seq<byte>)
      modifies this, rng
      ensures (transmitted, Snap()) == Run(Params(), rng.oracle, old(Snap()), data)
      ensures |transmitted| == |data|
      ensures goodStateCount + badStateCount == old(goodStateCount + badStateCount) + |data|
    {
      ghost var start := Snap();
      transmitted := [];
      var i := 0;
      while i < |data|
        invariant 0 <= i <= |data|
        invariant (transmitted, Snap()) == Run(Params(), rng.oracle, start, data[..i])
      {
        RunSnoc(Params(), rng.oracle, start, data, i);
        var out := TransmitByte(data[i]);
        transmitted := transmitted + [out];
        i := i + 1;
      }
      assert data[..|data|] == data;
    }

    /** One pass of the loop body of `transmit_bits`: sends bit `x`. */
    method TransmitBit(x: bit) returns (out: bit)
      modifies this, rng
      ensures (out, Snap()) == BitStep(Params(), rng.oracle, old(Snap()), x)
    {
      if state == Good {
        goodStateCount := goodStateCount + 1;
        var u := rng.Random();
        if u < goodErrorProb {
          out := 1 - x;
        } else {
          out := x;
        }
        var v := rng.Random();
        if v < goodToBad {
          state := Bad;
        }
      } else {
        badStateCount := badStateCount + 1;
        var u := rng.Random();
        if u < badErrorProb {
          out := 1 - x;
        } else {
          out := x;
        }
        var v := rng.Random();
        if v < badToGood {
          state := Good;
        }
      }
    }

    /** `transmit_bits(bit_data)` */
    method TransmitBits(bitData: seq<bit>) returns (transmittedBits: seq<bit>)
      modifies this, rng
      ensures (transmittedBits, Snap()) == RunBits(Params(), rng.oracle, old(Snap()), bitData)
      ensures |transmittedBits| == |bitData|
      ensures goodStateCount + badStateCount == old(goodStateCount + badStateCount) + |bitData|
    {
      ghost var start := Snap();
      transmittedBits := [];
      var i := 0;
      while i < |bitData|
        invariant 0 <= i <= |bitData|
        invariant (transmittedBits, Snap()) == RunBits(Params(), rng.oracle, start, bitData[..i])
      {
        RunBitsSnoc(Params(), rng.oracle, start, bitData, i);
        var out := TransmitBit(bitData[i]);
        transmittedBits := transmittedBits + [out];
        i := i + 1;
      }
      assert bitData[..|bitData|] == bitData;
    }

    /**
     * `get_channel_statistics()`: the percentage of units seen in each state,
     * `(0, 0)` before any unit was transmitted.
     */
    function Statistics(): (r: (real, real))
      reads this
      ensures goodStateCount + badStateCount == 0 ==> r == (0.0, 0.0)
      ensures goodStateCount + badStateCount > 0 ==>
        r.0 + r.1 == 100.0 && 0.0 <= r.0 <= 100.0 && 0.0 <= r.1 <= 100.0
      ensures goodStateCount + badStateCount > 0 ==>
        r.0 * (goodStateCount + badStateCount) as real == 100.0 * goodStateCount as real
    {
      var total := goodStateCount + badStateCount;
      var goodPercentage := if total > 0 then (goodStateCount as real / total as real) * 100.0 else 0.0;
      var badPercentage := if total > 0 then (badStateCount as real / total as real) * 100.0 else 0.0;
      (goodPercentage, badPercentage)
    }
  }
}
