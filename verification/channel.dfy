/**
 * The channel front end of `src/channel.py`: byte/bit conversion and the
 * dispatch between the memoryless binary symmetric channel (which works on
 * bits) and the Gilbert-Elliott channel (which works on bytes).
 */
module Channels {
  import opened Bytes
  import opened Randomness
  import opened GilbertElliott

  /** The eight bits of a byte, most significant first. */
  function ByteBits(b: byte): (r: seq<bit>)
    ensures |r| == 8
  {
    seq(8, i requires 0 <= i < 8 => BitOf(b, i))
  }

  /** What `_bytes_to_bits(data)` returns. */
  function ToBits(data: seq<byte>): (r: seq<bit>)
    ensures |r| == 8 * |data|
  {
    if data == [] then [] else ToBits(data[..|data| - 1]) + ByteBits(data[|data| - 1])
  }

  function Zeros(n: nat): (r: seq<bit>)
    ensures |r| == n && forall i :: 0 <= i < n ==> r[i] == 0
  {
    seq(n, i => 0)
  }

  /** The bit list after `_bits_to_bytes` pads it to whole bytes. */
  function Padded(bits: seq<bit>): (r: seq<bit>)
    ensures |r| % 8 == 0 && |bits| <= |r| < |bits| + 8
  {
    if |bits| % 8 != 0 then bits + Zeros(8 - |bits| % 8) else bits
  }

  /** The bytes read from consecutive 8-bit groups, most significant bit first. */
  function Group(bits: seq<bit>): (r: seq<byte>)
  {
    if |bits| < 8 then []
    else
      HornerByte(bits[|bits| - 8..]);
      Group(bits[..|bits| - 8]) + [Horner(bits[|bits| - 8..])]
  }

  /** What `_bits_to_bytes(bits)` returns. */
  function FromBits(bits: seq<bit>): seq<byte>
  {
    Group(Padded(bits))
  }

  lemma {:induction false} GroupLength(bits: seq<bit>)
    ensures |Group(bits)| == |bits| / 8
  {
    if |bits| >= 8 {
      GroupLength(bits[..|bits| - 8]);
    }
  }

  /** `_bits_to_bytes` makes `ceil(n / 8)` bytes of `n` bits. */
  lemma FromBitsLength(bits: seq<bit>)
    ensures |FromBits(bits)| == (|bits| + 7) / 8
  {
    GroupLength(Padded(bits));
  }

  lemma ByteBitsLowBits(b: byte)
    ensures ByteBits(b) == LowBits(b, 8)
  {
    ByteLowBits(b);
  }

  /** Packing the eight bits of a byte gives the byte back. */
  lemma ByteBitsHorner(b: byte)
    ensures Horner(ByteBits(b)) == b
  {
    ByteBitsLowBits(b);
    Pow2Byte();
    HornerLowBits(b, 8);
  }

  /** The padded bit list holds a whole number of bytes. */
  lemma PaddedBytes(bits: seq<bit>) returns (count: nat)
    ensures |Padded(bits)| == 8 * count
  {
    count := |Padded(bits)| / 8;
  }

  /** Packing one more group of eight bits appends one byte. */
  lemma GroupSnoc(bits: seq<bit>, i: nat)
    requires i + 8 <= |bits|
    ensures Group(bits[..i + 8]) == Group(bits[..i]) + [Horner(bits[i..i + 8])]
  {
    assert bits[..i + 8][..i] == bits[..i];
    assert bits[..i + 8][i..] == bits[i..i + 8];
  }

  /** One pass of the outer packing loop appends the next group of eight bits. */
  lemma GroupStep(bits: seq<bit>, i: nat, acc: seq<byte>, b: nat)
    requires i + 8 <= |bits|
    requires acc == Group(bits[..i]) && b == Horner(bits[i..i + 8])
    ensures b < 256
    ensures Group(bits[..i + 8]) == acc + [b]
  {
    GroupSnoc(bits, i);
    HornerByte(bits[i..i + 8]);
  }

  /** Bit `8 * k + i` of `_bytes_to_bits(data)` is `(data[k] >> (7 - i)) & 1`. */
  lemma {:induction false} ToBitsAt(data: seq<byte>, k: nat, i: nat)
    requires k < |data| && i < 8
    ensures ToBits(data)[8 * k + i] == BitOf(data[k], i)
  {
    var n := |data|;
    if k < n - 1 {
      ToBitsAt(data[..n - 1], k, i);
    }
  }

  lemma {:induction false} GroupToBits(data: seq<byte>)
    ensures Group(ToBits(data)) == data
  {
    if data != [] {
      var n := |data|;
      var last := data[n - 1];
      var front := ToBits(data[..n - 1]);
      var bits := front + ByteBits(last);
      assert ToBits(data) == bits;
      GroupToBits(data[..n - 1]);
      assert bits[..|bits| - 8] == front;
      assert bits[|bits| - 8..] == ByteBits(last);
      ByteBitsHorner(last);
      assert data[..n - 1] + [last] == data;
    }
  }

  /** Round trip: repacking the unpacked bits gives the bytes back. */
  lemma FromBitsToBits(data: seq<byte>)
    ensures FromBits(ToBits(data)) == data
  {
    assert Padded(ToBits(data)) == ToBits(data);
    GroupToBits(data);
  }

  lemma {:induction false} ToBitsGroup(bits: seq<bit>)
    requires |bits| % 8 == 0
    ensures ToBits(Group(bits)) == bits
  {
    if bits != [] {
      var n := |bits|;
      var last := bits[n - 8..];
      ToBitsGroup(bits[..n - 8]);
      var g := Group(bits);
      assert g[..|g| - 1] == Group(bits[..n - 8]);
      LowBitsHorner(last);
      HornerByte(last);
      ByteBitsLowBits(Horner(last));
      assert bits == bits[..n - 8] + last;
    }
  }

  /**
   * The other direction: unpacking the bytes that `_bits_to_bytes` built gives
   * the bits followed by the zero padding at the end.
   */
  lemma ToBitsFromBits(bits: seq<bit>)
    ensures ToBits(FromBits(bits)) == Padded(bits)
    ensures ToBits(FromBits(bits))[..|bits|] == bits
    ensures forall i :: |bits| <= i < |Padded(bits)| ==> ToBits(FromBits(bits))[i] == 0
  {
    var padded := Padded(bits);
    ToBitsGroup(padded);
    assert ToBits(FromBits(bits)) == padded;
    if |bits| % 8 != 0 {
      var zeros := Zeros(8 - |bits| % 8);
      assert padded == bits + zeros;
      assert padded[..|bits|] == bits;
      forall i | |bits| <= i < |padded|
        ensures padded[i] == 0
      {
        assert padded[i] == zeros[i - |bits|];
      }
    } else {
      assert padded[..|bits|] == bits;
    }
  }

  /**
   * The bits the binary symmetric channel delivers: bit `i` is flipped when
   * the `start + i`-th draw of its generator falls below the crossover
   * probability.
   */
  function Flip(p: real, draws: nat -> Unit, start: nat, bits: seq<bit>): (r: seq<bit>)
    ensures |r| == |bits|
    ensures forall i :: 0 <= i < |bits| ==> r[i] == bits[i] || r[i] == 1 - bits[i]
  {
    seq(|bits|, i requires 0 <= i < |bits| => if draws(start + i) < p then 1 - bits[i] else bits[i])
  }

  /** A crossover probability of 0 flips nothing. */
  lemma FlipNothing(draws: nat -> Unit, start: nat, bits: seq<bit>)
    ensures Flip(0.0, draws, start, bits) == bits
  {
  }

  /**
   * `komm.BinarySymmetricChannel`: flips each bit independently; its own
   * random generator is injected as `draws`.
   */
  class BinarySymmetricChannel {
    const crossoverProbability: real
    const draws: nat -> Unit
    var drawn: nat

    constructor (crossoverProbability: real, draws: nat -> Unit)
      ensures this.crossoverProbability == crossoverProbability && this.draws == draws && drawn == 0
    {
      this.crossoverProbability := crossoverProbability;
      this.draws := draws;
      drawn := 0;
    }

    /** `channel(bits)` */
    method Apply(bits: seq<bit>) returns (out: seq<bit>)
      modifies this
      ensures out == Flip(crossoverProbability, draws, old(drawn), bits)
      ensures drawn == old(drawn) + |bits|
    {
      out := Flip(crossoverProbability, draws, drawn, bits);
      drawn := drawn + |bits|;
    }
  }

  /** The object `Channel.__init__` stores in `self.channel`. */
  datatype Medium = Bsc(bsc: BinarySymmetricChannel) | GilbertElliottMedium(ge: GilbertElliottChannel)

  /** The channel type and the parameters `Channel.__init__` reads from its keyword arguments. */
  datatype ChannelConfig =
    | BscConfig(ber: real, draws: nat -> Unit)
    | GilbertElliottConfig(goodToBad: real, badToGood: real, goodErrorProb: real, badErrorProb: real, rng: RandomSource)

  /**
   * What a transfer starts from and leaves behind: how many draws the binary
   * symmetric channel has used, or the Gilbert-Elliott channel's state,
   * counters and position in the shared `random` draws.
   */
  datatype Condition = BscCondition(drawn: nat) | GeCondition(snap: Snapshot)

  class Channel {
    const medium: Medium

    /** The objects a transmission may change. */
    ghost function Footprint(): set<object>
    {
      match medium
      case Bsc(b) => {b}
      case GilbertElliottMedium(g) => {g, g.rng}
    }

    /** Neither noise source can corrupt anything: every error probability is 0. */
    predicate Noiseless()
    {
      match medium
      case Bsc(b) => b.crossoverProbability == 0.0
      case GilbertElliottMedium(g) => g.goodErrorProb == 0.0 && g.badErrorProb == 0.0
    }

    /** The channel's condition now. */
    ghost function Current(): (c: Condition)
      reads Footprint()
      ensures c.BscCondition? <==> medium.Bsc?
    {
      match medium
      case Bsc(b) => BscCondition(b.drawn)
      case GilbertElliottMedium(g) => GeCondition(g.Snap())
    }

    /**
     * What `channel_transmit(data)` delivers from condition `c`, and the
     * condition it leaves: unpack, flip and repack for the binary symmetric
     * channel, one draw per bit; `transmit` for the Gilbert-Elliott channel.
     */
    ghost function Transfer(c: Condition, data: seq<byte>): (r: (seq<byte>, Condition))
      requires c.BscCondition? <==> medium.Bsc?
      ensures |r.0| == |data|
      ensures r.1.BscCondition? <==> medium.Bsc?
    {
      match medium
      case Bsc(b) =>
        var flipped := Flip(b.crossoverProbability, b.draws, c.drawn, ToBits(data));
        FromBitsLength(flipped);
        (FromBits(flipped), BscCondition(c.drawn + 8 * |data|))
      case GilbertElliottMedium(g) =>
        var r := Run(g.Params(), g.rng.oracle, c.snap, data);
        (r.0, GeCondition(r.1))
    }

    /** A noiseless channel delivers its input from every condition. */
    lemma TransferNoiseless(c: Condition, data: seq<byte>)
      requires c.BscCondition? <==> medium.Bsc?
      requires Noiseless()
      ensures Transfer(c, data).0 == data
    {
      match medium
      case Bsc(b) =>
        BscNoiseless(b.draws, c.drawn, data);
      case GilbertElliottMedium(g) =>
        RunNoErrors(g.Params(), g.rng.oracle, c.snap, data);
    }

    constructor (config: ChannelConfig)
      ensures config.BscConfig? ==>
        && medium.Bsc? && fresh(medium.bsc)
        && medium.bsc.crossoverProbability == config.ber && medium.bsc.draws == config.draws
        && medium.bsc.drawn == 0
      ensures config.GilbertElliottConfig? ==>
        && medium.GilbertElliottMedium? && fresh(medium.ge)
        && medium.ge.Params() == Parameters(config.goodToBad, config.badToGood, config.goodErrorProb, config.badErrorProb)
        && medium.ge.rng == config.rng
        && medium.ge.state == Good && medium.ge.goodStateCount == 0 && medium.ge.badStateCount == 0
    {
      match config
      case BscConfig(ber, draws) =>
        var b := new BinarySymmetricChannel(ber, draws);
        medium := Bsc(b);
      case GilbertElliottConfig(goodToBad, badToGood, goodErrorProb, badErrorProb, rng) =>
        var g := new GilbertElliottChannel(goodToBad, badToGood, goodErrorProb, badErrorProb, rng);
        medium := GilbertElliottMedium(g);
    }

    /** `_bytes_to_bits(byte_data)` */
    method BytesToBits(byteData: seq<byte>) returns (bitList: seq<bit>)
      ensures bitList == ToBits(byteData)
      ensures |bitList| == 8 * |byteData|
    {
      bitList := [];
      var k := 0;
      while k < |byteData|
        invariant 0 <= k <= |byteData|
        invariant bitList == ToBits(byteData[..k])
      {
        var byte := byteData[k];
        ghost var before := bitList;
        var i := 0;
        while i < 8
          invariant 0 <= i <= 8
          invariant bitList == before + ByteBits(byte)[..i]
        {
          bitList := bitList + [Shr(byte, 7 - i) % 2];
          i := i + 1;
        }
        assert byteData[..k + 1][..k] == byteData[..k];
        k := k + 1;
      }
      assert byteData[..|byteData|] == byteData;
    }

    /** `_bits_to_bytes(bit_list)` */
    method BitsToBytes(bitList: seq<bit>) returns (bytes: seq<byte>)
      ensures bytes == FromBits(bitList)
    {
      var bits := bitList;
      if |bits| % 8 != 0 {
        var padding := 8 - |bits| % 8;
        bits := bits + Zeros(padding);
      }
      assert bits == Padded(bitList);
      ghost var count := PaddedBytes(bitList);
      var byteList: seq<byte> := [];
      ghost var k := 0;
      var i := 0;
      while i < |bits|
        invariant |bits| == 8 * count
        invariant 0 <= k <= count && i == 8 * k
        invariant byteList == Group(bits[..i])
      {
        var chunk := bits[i..i + 8];
        var byte: nat := 0;
        var j := 0;
        while j < |chunk|
          invariant 0 <= j <= |chunk|
          invariant byte == Horner(chunk[..j])
        {
          HornerPrefix(chunk, j);
          byte := byte * 2 + chunk[j];
          j := j + 1;
        }
        assert chunk[..j] == chunk;
        GroupStep(bits, i, byteList, byte);
        byteList := byteList + [byte];
        i := i + 8;
        k := k + 1;
      }
      assert bits[..|bits|] == bits;
      bytes := byteList;
    }

    /** `channel_transmit(data)` */
    method ChannelTransmit(data: seq<byte>) returns (transmitted: seq<byte>)
      modifies Footprint()
      ensures transmitted == Transfer(old(Current()), data).0
      ensures Current() == Transfer(old(Current()), data).1
      ensures |transmitted| == |data|
      ensures Noiseless() ==> transmitted == data
    {
      ghost var before := Current();
      ghost var target := Transfer(before, data);
      match medium {
        case Bsc(b) =>
          ghost var drawn := b.drawn;
          assert target.0 == FromBits(Flip(b.crossoverProbability, b.draws, drawn, ToBits(data)));
          assert target.1 == BscCondition(drawn + 8 * |data|);
          var bitData := BytesToBits(data);
          var transmittedBits := b.Apply(bitData);
          transmitted := BitsToBytes(transmittedBits);
          assert Current() == BscCondition(b.drawn);
        case GilbertElliottMedium(g) =>
          ghost var snap := g.Snap();
          ghost var run := Run(g.Params(), g.rng.oracle, snap, data);
          assert target == (run.0, GeCondition(run.1));
          transmitted := g.Transmit(data);
          assert Current() == GeCondition(g.Snap());
      }
      if Noiseless() {
        TransferNoiseless(before, data);
      }
    }
  }

  /** With crossover probability 0 the binary symmetric path returns its input. */
  lemma BscNoiseless(draws: nat -> Unit, start: nat, data: seq<byte>)
    ensures FromBits(Flip(0.0, draws, start, ToBits(data))) == data
  {
    FlipNothing(draws, start, ToBits(data));
    FromBitsToBits(data);
  }
}
