/**
 * The hybrid-ARQ delivery loop of `Pipeline.run_image_transmission` in
 * `src/pipeline.py`: the pixel data after the image header is cut into
 * 64-byte packets, and every packet gets up to ten attempts. An attempt
 * sends the detection encoding of the packet; if the receiver's detection
 * decode rejects it, the Reed-Solomon symbols of the packet are sent too and
 * the receiver tries to correct, accepting the result only if it decodes and
 * carries the checksum the frame froze before sending.
 */
module Pipeline {
  import opened Bytes
  import opened Wrappers
  import opened Randomness
  import opened ErrorDetection
  import opened Frames
  import opened ErrorCorrection
  import opened GilbertElliott
  import opened Channels

  /** The image header copied to the output unsent. */
  const HeaderLength := 54
  const PacketSize := 64
  /** Attempts per packet. */
  const MaxRetries := 10
  /** Length of `retransmission_counts`. */
  const HistogramSlots := 12
  /** `ErrorCorrectionCode(30)` in `select_error_correction_code`. */
  const CorrectionSymbols := 30

  /*
   * Packets
   */

  /** `[pixel_data[i : i + 64] for i in range(0, len(pixel_data), 64)]` */
  function Packets(pixels: seq<byte>): (r: seq<seq<byte>>)
    ensures |pixels| == 0 <==> r == []
    ensures forall k :: 0 <= k < |r| ==> 1 <= |r[k]| <= PacketSize
    ensures forall k :: 0 <= k < |r| - 1 ==> |r[k]| == PacketSize
    decreases |pixels|
  {
    if |pixels| == 0 then []
    else if |pixels| <= PacketSize then [pixels]
    else [pixels[..PacketSize]] + Packets(pixels[PacketSize..])
  }

  /** The concatenation of a list of byte strings, as `bytearray.extend` builds it. */
  function Flatten(pieces: seq<seq<byte>>): seq<byte>
  {
    if pieces == [] then [] else Flatten(pieces[..|pieces| - 1]) + pieces[|pieces| - 1]
  }

  lemma {:induction false} FlattenCons(piece: seq<byte>, pieces: seq<seq<byte>>)
    ensures Flatten([piece] + pieces) == piece + Flatten(pieces)
    decreases |pieces|
  {
    if pieces != [] {
      var n := |pieces|;
      assert ([piece] + pieces)[..n] == [piece] + pieces[..n - 1];
      FlattenCons(piece, pieces[..n - 1]);
    } else {
      assert [piece] + pieces == [piece];
      assert [piece][..0] == [];
    }
  }

  /** The packets are consecutive slices: together they are the pixel data. */
  lemma {:induction false} PacketsConcat(pixels: seq<byte>)
    ensures Flatten(Packets(pixels)) == pixels
    decreases |pixels|
  {
    if |pixels| == 0 {
    } else if |pixels| <= PacketSize {
      assert Flatten([pixels]) == Flatten([pixels][..0]) + pixels;
      assert [pixels][..0] == [];
    } else {
      PacketsConcat(pixels[PacketSize..]);
      FlattenCons(pixels[..PacketSize], Packets(pixels[PacketSize..]));
      assert pixels[..PacketSize] + pixels[PacketSize..] == pixels;
    }
  }

  /** There are `ceil(len(pixel_data) / 64)` packets. */
  lemma {:induction false} PacketsCount(pixels: seq<byte>)
    ensures |Packets(pixels)| == (|pixels| + PacketSize - 1) / PacketSize
    decreases |pixels|
  {
    if |pixels| > PacketSize {
      PacketsCount(pixels[PacketSize..]);
    }
  }

  /** The bytes of each piece, added up over a prefix of the pieces. */
  lemma {:induction false} FlattenSnoc(pieces: seq<seq<byte>>, k: nat)
    requires k < |pieces|
    ensures Flatten(pieces[..k + 1]) == Flatten(pieces[..k]) + pieces[k]
  {
    assert pieces[..k + 1][..k] == pieces[..k];
  }

  /*
   * One attempt
   */

  /** What the receiver makes of one attempt. */
  datatype Verdict =
    | Direct(payload: seq<byte>)     // the detection decode accepted the received data
    | Corrected(payload: seq<byte>)  // Reed-Solomon correction, re-checked against the frame
    | Rejected

  /**
   * The receiver's decision for a packet whose detection encoding arrived as
   * `sent`. The Reed-Solomon decoder is given `sent` followed by the correction
   * symbols as the sender computed them: the copy that crossed the channel is
   * dropped (src/pipeline.py:129, 133).
   */
  function Judge(code: DetectionCode, cc: CorrectionCode, checksum: nat, packet: seq<byte>, sent: seq<byte>): (v: Verdict)
    requires cc.WellFormed()
    requires |packet| + cc.nsym <= BlockLength
    requires code.Width() <= |sent| && |sent| + cc.nsym <= BlockLength
    ensures v.Direct? || v.Corrected? ==> |v.payload| + code.Width() == |sent|
    ensures v.Direct? ==> v.payload == sent[..|sent| - code.Width()]
    ensures v.Corrected? ==> code.Checksum(v.payload) == checksum
  {
    match code.Decode(sent)
    case Some(p) => Direct(p)
    case None =>
      var combined := sent + cc.Encode(packet);
      match cc.Decode(combined)
      case None => Rejected
      case Some(decoded) =>
        match code.Decode(decoded)
        case None => Rejected
        case Some(final) => if checksum == code.Checksum(final) then Corrected(final) else Rejected
  }

  /**
   * A direct success is exactly a received detection codeword: the payload is
   * what the sender would have encoded to produce the received bytes.
   */
  lemma JudgeDirect(code: DetectionCode, cc: CorrectionCode, checksum: nat, packet: seq<byte>, sent: seq<byte>, p: seq<byte>)
    requires cc.WellFormed()
    requires |packet| + cc.nsym <= BlockLength
    requires code.Width() <= |sent| && |sent| + cc.nsym <= BlockLength
    ensures Judge(code, cc, checksum, packet, sent) == Direct(p) <==> sent == code.Encode(p)
  {
    DecodeAcceptsExactlyEncodings(code, sent, p);
  }

  /**
   * The correction path accepts only a payload that the Reed-Solomon output
   * carries as a valid detection codeword and whose checksum is the frame's,
   * and only after the direct decode rejected the received bytes.
   */
  lemma JudgeCorrected(code: DetectionCode, cc: CorrectionCode, checksum: nat, packet: seq<byte>, sent: seq<byte>, f: seq<byte>)
    requires cc.WellFormed()
    requires |packet| + cc.nsym <= BlockLength
    requires code.Width() <= |sent| && |sent| + cc.nsym <= BlockLength
    ensures Judge(code, cc, checksum, packet, sent) == Corrected(f) <==>
      && code.Decode(sent).None?
      && cc.Decode(sent + cc.Encode(packet)) == Some(code.Encode(f))
      && code.Checksum(f) == checksum
  {
    var combined := sent + cc.Encode(packet);
    if code.Decode(sent).None? && cc.Decode(combined).Some? {
      var decoded := cc.Decode(combined).value;
      DecodeAcceptsExactlyEncodings(code, decoded, f);
    }
    if cc.Decode(combined) == Some(code.Encode(f)) {
      DecodeEncode(code, f);
    }
  }

  /** An undisturbed transmission is delivered directly and unchanged. */
  lemma JudgeClean(code: DetectionCode, cc: CorrectionCode, checksum: nat, packet: seq<byte>)
    requires cc.WellFormed()
    requires |packet| + code.Width() + cc.nsym <= BlockLength
    ensures Judge(code, cc, checksum, packet, code.Encode(packet)) == Direct(packet)
  {
    DecodeEncode(code, packet);
  }

  /**
   * The receiver's decision on the attempt at `packet` whose detection encoding
   * arrived as `sent`, against the checksum `Frame.create_frame` froze.
   */
  ghost predicate Judged(code: DetectionCode, cc: CorrectionCode, packet: seq<byte>, sent: seq<byte>, v: Verdict)
  {
    && cc.WellFormed() && cc.nsym == CorrectionSymbols && |packet| <= PacketSize
    && |sent| == |packet| + code.Width()
    && v == Judge(code, cc, code.Checksum(packet), packet, sent)
  }

  /**
   * Whatever the receiver accepts either arrived as an exact detection
   * codeword or carries the checksum of the packet that was sent.
   */
  lemma JudgedAccepts(code: DetectionCode, cc: CorrectionCode, packet: seq<byte>, sent: seq<byte>, v: Verdict)
    requires Judged(code, cc, packet, sent, v)
    ensures v.Direct? ==> sent == code.Encode(v.payload)
    ensures v.Corrected? ==> code.Checksum(v.payload) == code.Checksum(packet) && code.Decode(sent).None?
  {
    if v.Direct? {
      JudgeDirect(code, cc, code.Checksum(packet), packet, sent, v.payload);
    }
    if v.Corrected? {
      JudgeCorrected(code, cc, code.Checksum(packet), packet, sent, v.payload);
    }
  }

  /** A codeword that arrived intact is accepted directly. */
  lemma JudgedIntact(code: DetectionCode, cc: CorrectionCode, packet: seq<byte>, v: Verdict)
    requires Judged(code, cc, packet, code.Encode(packet), v)
    ensures v == Direct(packet)
  {
    JudgeClean(code, cc, code.Checksum(packet), packet);
  }

  /*
   * Bookkeeping
   */

  /**
   * How one packet ended: accepted with `verdict` on attempt number `attempt`
   * after the detection encoding arrived as `sent`, or lost.
   */
  datatype PacketOutcome = Received(verdict: Verdict, attempt: nat, sent: seq<byte>) | Lost

  /**
   * The `retransmission_counts` index a success on attempt `retries` counts
   * in: the attempt number for a direct success, one more after correction.
   */
  function Slot(v: Verdict, retries: nat): (r: nat)
    ensures retries <= r <= retries + 1
    ensures r == retries + 1 <==> v.Corrected?
  {
    if v.Corrected? then retries + 1 else retries
  }

  /** No packet is accepted on an attempt outside the ten the loop makes. */
  predicate AttemptsInRange(outcomes: seq<PacketOutcome>)
  {
    forall k :: 0 <= k < |outcomes| && outcomes[k].Received? ==> 1 <= outcomes[k].attempt <= MaxRetries
  }

  function Total(counts: seq<nat>): nat
  {
    if counts == [] then 0 else Total(counts[..|counts| - 1]) + counts[|counts| - 1]
  }

  /** Incrementing one entry adds one to the total. */
  lemma {:induction false} TotalIncrement(counts: seq<nat>, k: nat)
    requires k < |counts|
    ensures Total(counts[k := counts[k] + 1]) == Total(counts) + 1
  {
    var n := |counts|;
    if k < n - 1 {
      TotalIncrement(counts[..n - 1], k);
      assert counts[k := counts[k] + 1][..n - 1] == counts[..n - 1][k := counts[k] + 1];
    } else {
      assert counts[k := counts[k] + 1][..n - 1] == counts[..n - 1];
    }
  }

  lemma {:induction false} TotalZeros(n: nat)
    ensures Total(seq(n, i => 0)) == 0
  {
    if n > 0 {
      assert seq(n, i => 0)[..n - 1] == seq(n - 1, i => 0);
      TotalZeros(n - 1);
    }
  }

  /** `retransmission_counts` after the given outcomes. */
  function Histogram(outcomes: seq<PacketOutcome>): (h: seq<nat>)
    requires AttemptsInRange(outcomes)
    ensures |h| == HistogramSlots && h[0] == 0
  {
    if outcomes == [] then seq(HistogramSlots, i => 0)
    else
      var h := Histogram(outcomes[..|outcomes| - 1]);
      match outcomes[|outcomes| - 1]
      case Received(v, a, _) => var s := Slot(v, a); h[s := h[s] + 1]
      case Lost => h
  }

  /** `errors_detected` after the given outcomes. */
  function LostCount(outcomes: seq<PacketOutcome>): (n: nat)
    ensures n <= |outcomes|
  {
    if outcomes == [] then 0
    else LostCount(outcomes[..|outcomes| - 1]) + (if outcomes[|outcomes| - 1].Lost? then 1 else 0)
  }

  /** Every packet is counted once: in the histogram or as lost. */
  lemma {:induction false} HistogramAccounts(outcomes: seq<PacketOutcome>)
    requires AttemptsInRange(outcomes)
    ensures Total(Histogram(outcomes)) + LostCount(outcomes) == |outcomes|
  {
    if outcomes == [] {
      TotalZeros(HistogramSlots);
    } else {
      var n := |outcomes|;
      HistogramAccounts(outcomes[..n - 1]);
      var o := outcomes[n - 1];
      if o.Received? {
        TotalIncrement(Histogram(outcomes[..n - 1]), Slot(o.verdict, o.attempt));
      }
    }
  }

  /** When every packet gets through on the first attempt, only slot 1 counts. */
  lemma {:induction false} HistogramFirstTry(outcomes: seq<PacketOutcome>)
    requires forall k :: 0 <= k < |outcomes| ==>
      outcomes[k].Received? && outcomes[k].attempt == 1 && !outcomes[k].verdict.Corrected?
    ensures Histogram(outcomes) == seq(HistogramSlots, i => if i == 1 then |outcomes| else 0)
  {
    if outcomes != [] {
      HistogramFirstTry(outcomes[..|outcomes| - 1]);
    }
  }

  /**
   * The output grows by the pixel data except that a lost last packet adds 64
   * bytes whatever its length.
   */
  lemma {:induction false} ReceivedLength(pixels: seq<byte>, outcomes: seq<PacketOutcome>, pieces: seq<seq<byte>>)
    requires |outcomes| == |pieces| == |Packets(pixels)|
    requires forall k :: 0 <= k < |pieces| ==>
      |pieces[k]| == if outcomes[k].Lost? then PacketSize else |Packets(pixels)[k]|
    ensures |Flatten(pieces)| ==
      |pixels| + if pieces != [] && outcomes[|pieces| - 1].Lost? then PacketSize - |Packets(pixels)[|pieces| - 1]| else 0
  {
    PiecesLength(Packets(pixels), outcomes, pieces);
    PacketsConcat(pixels);
  }

  /** `ReceivedLength` for any packet list whose packets before the last are full. */
  lemma {:induction false} PiecesLength(packets: seq<seq<byte>>, outcomes: seq<PacketOutcome>, pieces: seq<seq<byte>>)
    requires |outcomes| == |pieces| == |packets|
    requires forall k :: 0 <= k < |packets| - 1 ==> |packets[k]| == PacketSize
    requires forall k :: 0 <= k < |pieces| ==>
      |pieces[k]| == if outcomes[k].Lost? then PacketSize else |packets[k]|
    ensures |Flatten(pieces)| ==
      |Flatten(packets)| + if pieces != [] && outcomes[|pieces| - 1].Lost? then PacketSize - |packets[|pieces| - 1]| else 0
    decreases |pieces|
  {
    if pieces != [] {
      var n := |pieces|;
      PiecesLength(packets[..n - 1], outcomes[..n - 1], pieces[..n - 1]);
    }
  }

  /**
   * Each piece is the payload the receiver accepted for its packet, within
   * the ten attempts and judged on what arrived, or 64 filler bytes.
   */
  ghost predicate Delivered(code: DetectionCode, cc: CorrectionCode,
                            packets: seq<seq<byte>>, outcomes: seq<PacketOutcome>, pieces: seq<seq<byte>>)
    requires |outcomes| == |pieces| == |packets|
  {
    forall k :: 0 <= k < |outcomes| ==>
      match outcomes[k]
      case Received(verdict, attempt, sent) =>
        && 1 <= attempt <= MaxRetries && !verdict.Rejected?
        && pieces[k] == verdict.payload && |verdict.payload| == |packets[k]|
        && Judged(code, cc, packets[k], sent, verdict)
      case Lost => |pieces[k]| == PacketSize
  }

  /**
   * What `run_image_transmission` has built after the first `n` packets:
   * the histogram and the lost-packet count of their outcomes, and the header
   * followed by one piece per packet. Over a `clean` channel every packet so
   * far arrived intact on its first attempt.
   */
  ghost predicate Progress(code: DetectionCode, cc: CorrectionCode, clean: bool,
                           header: seq<byte>, packets: seq<seq<byte>>, n: nat,
                           outcomes: seq<PacketOutcome>, pieces: seq<seq<byte>>,
                           receivedData: seq<byte>, counts: seq<nat>, errors: nat)
  {
    && n <= |packets| && |outcomes| == |pieces| == n
    && AttemptsInRange(outcomes)
    && counts == Histogram(outcomes)
    && errors == LostCount(outcomes)
    && receivedData == header + Flatten(pieces)
    && Delivered(code, cc, packets[..n], outcomes, pieces)
    && (clean ==>
          && pieces == packets[..n] && errors == 0
          && forall k :: 0 <= k < n ==> outcomes[k] == Received(Direct(packets[k]), 1, code.Encode(packets[k])))
  }

  /** A delivered packet added at the end keeps every earlier one delivered. */
  lemma DeliveredSnoc(code: DetectionCode, cc: CorrectionCode,
                      packets: seq<seq<byte>>, outcomes: seq<PacketOutcome>, pieces: seq<seq<byte>>,
                      packet: seq<byte>, o: PacketOutcome, piece: seq<byte>)
    requires |outcomes| == |pieces| == |packets|
    requires Delivered(code, cc, packets, outcomes, pieces)
    requires Delivered(code, cc, [packet], [o], [piece])
    ensures Delivered(code, cc, packets + [packet], outcomes + [o], pieces + [piece])
  {
    var n := |outcomes|;
    forall k | 0 <= k < n + 1
      ensures match (outcomes + [o])[k]
        case Received(verdict, attempt, sent) =>
          && 1 <= attempt <= MaxRetries && !verdict.Rejected?
          && (pieces + [piece])[k] == verdict.payload && |verdict.payload| == |(packets + [packet])[k]|
          && Judged(code, cc, (packets + [packet])[k], sent, verdict)
        case Lost => |(pieces + [piece])[k]| == PacketSize
    {
      if k == n {
        assert (outcomes + [o])[k] == [o][0];
        assert (pieces + [piece])[k] == [piece][0];
        assert (packets + [packet])[k] == [packet][0];
      } else {
        assert (outcomes + [o])[k] == outcomes[k];
        assert (pieces + [piece])[k] == pieces[k];
        assert (packets + [packet])[k] == packets[k];
      }
    }
  }

  /** One more packet, as `TransmitPacket` reports it, keeps the accounts. */
  lemma ProgressStep(code: DetectionCode, cc: CorrectionCode, clean: bool,
                     header: seq<byte>, packets: seq<seq<byte>>, n: nat,
                     outcomes: seq<PacketOutcome>, pieces: seq<seq<byte>>,
                     receivedData: seq<byte>, counts: seq<nat>, errors: nat,
                     o: PacketOutcome, piece: seq<byte>,
                     receivedData': seq<byte>, counts': seq<nat>, errors': nat)
    requires Progress(code, cc, clean, header, packets, n, outcomes, pieces, receivedData, counts, errors)
    requires n < |packets|
    requires receivedData' == receivedData + piece
    requires o.Received? ==>
      && 1 <= o.attempt <= MaxRetries && !o.verdict.Rejected?
      && piece == o.verdict.payload && |piece| == |packets[n]|
      && Judged(code, cc, packets[n], o.sent, o.verdict)
      && counts' == counts[Slot(o.verdict, o.attempt) := counts[Slot(o.verdict, o.attempt)] + 1]
      && errors' == errors
    requires o.Lost? ==> |piece| == PacketSize && counts' == counts && errors' == errors + 1
    requires clean ==> o == Received(Direct(packets[n]), 1, code.Encode(packets[n]))
    ensures Progress(code, cc, clean, header, packets, n + 1, outcomes + [o], pieces + [piece], receivedData', counts', errors')
  {
    assert (outcomes + [o])[..n] == outcomes;
    assert (pieces + [piece])[..n] == pieces;
    assert packets[..n + 1] == packets[..n] + [packets[n]];
    assert Flatten(pieces + [piece]) == Flatten(pieces) + piece;
    DeliveredSnoc(code, cc, packets[..n], outcomes, pieces, packets[n], o, piece);
  }

  /** When every packet arrived as it was sent, the output is the input. */
  lemma CleanOutput(data: seq<byte>, pieces: seq<seq<byte>>, receivedData: seq<byte>)
    requires pieces == Packets(data[Min(HeaderLength, |data|)..])
    requires receivedData == data[..Min(HeaderLength, |data|)] + Flatten(pieces)
    ensures receivedData == data
  {
    var header := data[..Min(HeaderLength, |data|)];
    var pixelData := data[Min(HeaderLength, |data|)..];
    PacketsConcat(pixelData);
    assert header + pixelData == data;
  }

  /** When every packet arrived intact on its first attempt, slot 1 counts every packet. */
  lemma CleanCounts(code: DetectionCode, outcomes: seq<PacketOutcome>, counts: seq<nat>, packets: seq<seq<byte>>)
    requires |outcomes| == |packets|
    requires forall k :: 0 <= k < |outcomes| ==> outcomes[k] == Received(Direct(packets[k]), 1, code.Encode(packets[k]))
    requires AttemptsInRange(outcomes) && counts == Histogram(outcomes)
    ensures counts == seq(HistogramSlots, i => if i == 1 then |outcomes| else 0)
  {
    forall k | 0 <= k < |outcomes|
      ensures outcomes[k].Received? && outcomes[k].attempt == 1 && !outcomes[k].verdict.Corrected?
    {
    }
    HistogramFirstTry(outcomes);
  }

  /** `bytes` are `[random.randint(0, 255) for _ in range(len(bytes))]` answered from draw `start` on. */
  predicate Drawn(o: Oracle, start: nat, bytes: seq<byte>)
  {
    forall i :: 0 <= i < |bytes| ==> bytes[i] == IntAt(o, start + i, 0, 255)
  }

  /** One attempt at a packet: what arrived and the receiver's verdict on it. */
  datatype Trial = Trial(sent: seq<byte>, verdict: Verdict)

  /** The receiver rejected each of the first `n` attempts. */
  predicate RejectedBefore(trials: seq<Trial>, n: int)
  {
    forall k :: 0 <= k < n && k < |trials| ==> trials[k].verdict.Rejected?
  }

  /*
   * The pipeline
   */

  /** The three components `select_*` chose, and Python's `random` module. */
  class Pipeline {
    const channel: Channel
    const detection: DetectionCode
    const correction: CorrectionCode
    const random: RandomSource

    /**
     * The correction code is `ErrorCorrectionCode(30)`, and a Gilbert-Elliott
     * channel draws from the same `random` module as the filler bytes.
     */
    ghost predicate Valid()
    {
      && correction.WellFormed() && correction.nsym == CorrectionSymbols
      && (channel.medium.GilbertElliottMedium? ==> channel.medium.ge.rng == random)
    }

    ghost function Footprint(): set<object>
    {
      channel.Footprint() + {random}
    }

    constructor (channel: Channel, detection: DetectionCode, correction: CorrectionCode, random: RandomSource)
      ensures this.channel == channel && this.detection == detection
      ensures this.correction == correction && this.random == random
    {
      this.channel := channel;
      this.detection := detection;
      this.correction := correction;
      this.random := random;
    }

    /**
     * What one attempt does on the channel from condition `c`: the detection
     * encoding crosses it, and only when the receiver rejects what arrived do
     * the correction symbols cross it as well.
     */
    ghost function AttemptTransfer(c: Condition, packet: seq<byte>): (r: (seq<byte>, Condition))
      requires c.BscCondition? <==> channel.medium.Bsc?
      ensures |r.0| == |packet| + detection.Width()
      ensures r.1.BscCondition? <==> channel.medium.Bsc?
    {
      var first := channel.Transfer(c, detection.Encode(packet));
      if detection.Decode(first.0).None? then (first.0, channel.Transfer(first.1, correction.Encode(packet)).1)
      else first
    }

    /** Over a noiseless channel an attempt delivers the codeword and sends no correction symbols. */
    lemma AttemptTransferNoiseless(c: Condition, packet: seq<byte>)
      requires c.BscCondition? <==> channel.medium.Bsc?
      requires channel.Noiseless()
      ensures AttemptTransfer(c, packet) == channel.Transfer(c, detection.Encode(packet))
      ensures AttemptTransfer(c, packet).0 == detection.Encode(packet)
    {
      channel.TransferNoiseless(c, detection.Encode(packet));
      DecodeEncode(detection, packet);
    }

    /** `t` is an attempt at `packet` that took the channel from `before` to `after`. */
    ghost predicate Tried(packet: seq<byte>, before: Condition, t: Trial, after: Condition)
    {
      && Valid() && |packet| <= PacketSize
      && (before.BscCondition? <==> channel.medium.Bsc?)
      && t.sent == AttemptTransfer(before, packet).0
      && after == AttemptTransfer(before, packet).1
      && Judged(detection, correction, packet, t.sent, t.verdict)
    }

    /** Attempt number `k + 1` of `trials` took the channel from `conds[k]` to `conds[k + 1]`. */
    ghost predicate TriedAt(packet: seq<byte>, trials: seq<Trial>, conds: seq<Condition>, k: int)
    {
      && 0 <= k < |trials| && |conds| == |trials| + 1
      && Tried(packet, conds[k], trials[k], conds[k + 1])
    }

    /** `trials` were made one after another, through the conditions `conds`. */
    ghost predicate Tries(packet: seq<byte>, trials: seq<Trial>, conds: seq<Condition>)
    {
      && |conds| == |trials| + 1
      && forall k :: 0 <= k < |trials| ==> TriedAt(packet, trials, conds, k)
    }

    /** One more attempt, made from the condition the last one left, extends the record. */
    lemma TriesSnoc(packet: seq<byte>, trials: seq<Trial>, conds: seq<Condition>, t: Trial, after: Condition)
      requires Tries(packet, trials, conds)
      requires Tries(packet, [t], [conds[|trials|], after])
      ensures Tries(packet, trials + [t], conds + [after])
    {
      var n := |trials|;
      assert TriedAt(packet, [t], [conds[n], after], 0);
      forall k | 0 <= k < n + 1
        ensures TriedAt(packet, trials + [t], conds + [after], k)
      {
        if k < n {
          assert TriedAt(packet, trials, conds, k);
          assert (trials + [t])[k] == trials[k];
          assert (conds + [after])[k] == conds[k];
          assert (conds + [after])[k + 1] == conds[k + 1];
        } else {
          assert (conds + [after])[k] == conds[n];
        }
      }
    }

    /** The receiver judged the last recorded attempt on what arrived. */
    lemma LastTrialJudged(packet: seq<byte>, trials: seq<Trial>, conds: seq<Condition>)
      requires Tries(packet, trials, conds) && |trials| >= 1
      ensures Judged(detection, correction, packet, trials[|trials| - 1].sent, trials[|trials| - 1].verdict)
    {
      assert TriedAt(packet, trials, conds, |trials| - 1);
    }

    /** What the receiver accepts from an attempt is as long as the packet. */
    lemma TrialPayload(packet: seq<byte>, before: Condition, t: Trial, after: Condition)
      requires Tries(packet, [t], [before, after])
      ensures !t.verdict.Rejected? ==> |t.verdict.payload| == |packet|
    {
      assert TriedAt(packet, [t], [before, after], 0);
    }

    /** Over a noiseless channel what arrives is the detection codeword. */
    lemma TrialSentNoiseless(packet: seq<byte>, before: Condition, t: Trial, after: Condition)
      requires Tries(packet, [t], [before, after])
      requires channel.Noiseless()
      ensures t.sent == detection.Encode(packet)
    {
      assert TriedAt(packet, [t], [before, after], 0);
      AttemptTransferNoiseless(before, packet);
    }

    /** An attempt whose codeword arrived intact is accepted directly. */
    lemma TrialIntact(packet: seq<byte>, before: Condition, t: Trial, after: Condition)
      requires Tries(packet, [t], [before, after])
      requires t.sent == detection.Encode(packet)
      ensures t.verdict == Direct(packet)
    {
      LastTrialJudged(packet, [t], [before, after]);
      JudgedIntact(detection, correction, packet, t.verdict);
    }

    /** Over a noiseless channel an attempt delivers the packet directly. */
    lemma TrialNoiseless(packet: seq<byte>, before: Condition, t: Trial, after: Condition)
      requires Tries(packet, [t], [before, after])
      requires channel.Noiseless()
      ensures t == Trial(detection.Encode(packet), Direct(packet))
    {
      TrialSentNoiseless(packet, before, t, after);
      TrialIntact(packet, before, t, after);
    }

    /**
     * One pass of the retry loop up to the decision: `sent` is what the
     * channel delivered for the detection encoding of the packet.
     */
    method Attempt(packet: seq<byte>, frame: Frame) returns (verdict: Verdict, ghost sent: seq<byte>)
      requires Valid() && |packet| <= PacketSize
      requires frame.checksum == detection.Checksum(packet)
      modifies channel.Footprint()
      ensures Tries(packet, [Trial(sent, verdict)], [old(channel.Current()), channel.Current()])
    {
      ghost var before := channel.Current();
      var detectedData := detection.Encode(packet);
      var transmittedData := channel.ChannelTransmit(detectedData);
      sent := transmittedData;
      ghost var middle := channel.Current();
      var decodedData := detection.Decode(transmittedData);
      if decodedData.None? {
        var correctionData := correction.Encode(packet);
        var transmittedCorrection := channel.ChannelTransmit(correctionData);
        assert channel.Current() == channel.Transfer(middle, correctionData).1;
        var combinedData := transmittedData + correctionData;
        var corrected := correction.Decode(combinedData);
        if corrected.None? {
          verdict := Rejected;
        } else {
          var finalData := detection.Decode(corrected.value);
          if finalData.Some? && frame.checksum == detection.Checksum(finalData.value) {
            verdict := Corrected(finalData.value);
          } else {
            verdict := Rejected;
          }
        }
      } else {
        verdict := Direct(decodedData.value);
      }
      assert TriedAt(packet, [Trial(sent, verdict)], [before, channel.Current()], 0);
    }

    /** The channel's condition after the filler: its draws advance the generator a Gilbert-Elliott channel shares. */
    ghost function AfterFiller(c: Condition): (r: Condition)
      ensures r.BscCondition? <==> c.BscCondition?
    {
      match c
      case BscCondition(_) => c
      case GeCondition(s) => GeCondition(s.(cursor := s.cursor + PacketSize))
    }

    /** The 64 filler bytes of a lost packet: `[random.randint(0, 255) for _ in range(64)]`. */
    method Filler() returns (noise: seq<byte>)
      requires Valid()
      modifies random
      ensures |noise| == PacketSize && Drawn(random.oracle, old(random.cursor), noise)
      ensures random.cursor == old(random.cursor) + PacketSize
      ensures channel.Current() == AfterFiller(old(channel.Current()))
    {
      noise := [];
      while |noise| < PacketSize
        invariant |noise| <= PacketSize
        invariant Drawn(random.oracle, old(random.cursor), noise)
        invariant random.cursor == old(random.cursor) + |noise|
      {
        var r := random.RandInt(0, 255);
        noise := noise + [r];
      }
    }

    /**
     * The state of the retry loop after `retries` attempts at `packet`, which
     * started from `receivedData0` and `counts0`: every attempt is recorded,
     * every one before the last was rejected, and a success has been counted
     * once and its payload appended.
     */
    ghost predicate Retrying(packet: seq<byte>, receivedData0: seq<byte>, counts0: seq<nat>,
                             success: bool, retries: int, trials: seq<Trial>, conds: seq<Condition>,
                             accepted: Verdict, receivedData: seq<byte>, counts: seq<nat>)
    {
      && 0 <= retries <= MaxRetries && |trials| == retries && |counts0| == HistogramSlots
      && Tries(packet, trials, conds)
      && RejectedBefore(trials, if success then retries - 1 else retries)
      && (success ==>
            && retries >= 1 && trials[retries - 1].verdict == accepted && !accepted.Rejected?
            && receivedData == receivedData0 + accepted.payload && |accepted.payload| == |packet|
            && counts == counts0[Slot(accepted, retries) := counts0[Slot(accepted, retries)] + 1])
      && (!success ==> receivedData == receivedData0 && counts == counts0)
      && (channel.Noiseless() ==>
            retries == 0 || (success && trials == [Trial(detection.Encode(packet), Direct(packet))]))
    }

    /** One more attempt `t`, made from the condition the last one left, advances the loop. */
    lemma RetryStep(packet: seq<byte>, receivedData0: seq<byte>, counts0: seq<nat>,
                    retries: int, trials: seq<Trial>, conds: seq<Condition>,
                    accepted: Verdict, receivedData: seq<byte>, counts: seq<nat>,
                    t: Trial, after: Condition)
      requires Retrying(packet, receivedData0, counts0, false, retries, trials, conds, accepted, receivedData, counts)
      requires retries < MaxRetries
      requires Tries(packet, [t], [conds[retries], after])
      ensures var success := !t.verdict.Rejected?;
        Retrying(packet, receivedData0, counts0, success, retries + 1, trials + [t], conds + [after],
                 if success then t.verdict else accepted,
                 if success then receivedData + t.verdict.payload else receivedData,
                 if success then counts[Slot(t.verdict, retries + 1) := counts[Slot(t.verdict, retries + 1)] + 1]
                 else counts)
    {
      TriesSnoc(packet, trials, conds, t, after);
      TrialPayload(packet, conds[retries], t, after);
      if channel.Noiseless() {
        TrialNoiseless(packet, conds[retries], t, after);
      }
      assert (trials + [t])[retries] == t;
    }

    /**
     * The retry loop of lines 101-161: attempts until the receiver accepts one
     * or ten were made, counting a success in `retransmission_counts` and
     * appending its payload. `trials` are the attempts made and `conds` the
     * channel's conditions between them.
     */
    method RetryLoop(packet: seq<byte>, frame: Frame, receivedData: seq<byte>, retransmissionCounts: seq<nat>)
      returns (success: bool, receivedData': seq<byte>, retransmissionCounts': seq<nat>,
               ghost trials: seq<Trial>, ghost conds: seq<Condition>)
      requires Valid() && |packet| <= PacketSize && |retransmissionCounts| == HistogramSlots
      requires frame.checksum == detection.Checksum(packet)
      modifies channel.Footprint()
      ensures 1 <= |trials| <= MaxRetries
      ensures Tries(packet, trials, conds) && conds[0] == old(channel.Current())
      ensures channel.Current() == conds[|trials|]
      ensures RejectedBefore(trials, |trials| - 1)
      ensures success <==> !trials[|trials| - 1].verdict.Rejected?
      ensures success ==>
        var last := trials[|trials| - 1];
        && receivedData' == receivedData + last.verdict.payload && |last.verdict.payload| == |packet|
        && retransmissionCounts' == retransmissionCounts[Slot(last.verdict, |trials|) :=
                                                          retransmissionCounts[Slot(last.verdict, |trials|)] + 1]
      ensures !success ==>
        && |trials| == MaxRetries
        && receivedData' == receivedData && retransmissionCounts' == retransmissionCounts
      ensures channel.Noiseless() ==> success && trials == [Trial(detection.Encode(packet), Direct(packet))]
    {
      receivedData' := receivedData;
      retransmissionCounts' := retransmissionCounts;
      trials := [];
      conds := [channel.Current()];
      success := false;
      var retries := 0;
      ghost var accepted := Rejected;
      while !success && retries < MaxRetries
        invariant Retrying(packet, receivedData, retransmissionCounts, success, retries, trials, conds,
                           accepted, receivedData', retransmissionCounts')
        invariant conds[0] == old(channel.Current()) && channel.Current() == conds[retries]
      {
        var verdict;
        ghost var sent;
        verdict, sent := Attempt(packet, frame);
        RetryStep(packet, receivedData, retransmissionCounts, retries, trials, conds,
                  accepted, receivedData', retransmissionCounts', Trial(sent, verdict), channel.Current());
        trials := trials + [Trial(sent, verdict)];
        conds := conds + [channel.Current()];
        retries := retries + 1;
        if !verdict.Rejected? {
          success := true;
          accepted := verdict;
          var slot := Slot(verdict, retries);
          retransmissionCounts' := retransmissionCounts'[slot := retransmissionCounts'[slot] + 1];
          receivedData' := receivedData' + verdict.payload;
        }
      }
    }

    /**
     * One packet from channel condition `start` and generator cursor `draw`:
     * 1 to 10 attempts `trials` through the conditions `conds`, all but the
     * last rejected. A received packet's `piece` is the accepted payload, and
     * the channel is left where the last attempt left it. A lost packet made
     * 10 attempts, and its `piece` is the next 64 `randint(0, 255)` draws,
     * which leave the generator at `draw'` and the channel at `end`.
     */
    ghost predicate PacketRun(packet: seq<byte>, start: Condition, draw: nat,
                              trials: seq<Trial>, conds: seq<Condition>, outcome: PacketOutcome, piece: seq<byte>,
                              end: Condition, draw': nat)
    {
      && 1 <= |trials| <= MaxRetries
      && Tries(packet, trials, conds) && conds[0] == start
      && RejectedBefore(trials, |trials| - 1)
      && (outcome.Received? <==> !trials[|trials| - 1].verdict.Rejected?)
      && (outcome.Received? ==>
            && outcome == Received(trials[|trials| - 1].verdict, |trials|, trials[|trials| - 1].sent)
            && piece == outcome.verdict.payload && |piece| == |packet|
            && end == conds[|trials|])
      && (outcome.Lost? ==>
            && |trials| == MaxRetries
            && end == AfterFiller(conds[|trials|])
            && draw' >= PacketSize && |piece| == PacketSize
            && Drawn(random.oracle, draw' - PacketSize, piece))
      && (channel.medium.Bsc? ==> draw' == draw + if outcome.Lost? then PacketSize else 0)
      && (channel.medium.GilbertElliottMedium? ==> end.GeCondition? && draw' == end.snap.cursor)
    }

    /**
     * Lines 99-168 of `run_image_transmission` for one packet: the frame, the
     * retry loop, then 64 filler bytes and `errors_detected` for a packet that
     * never got through. `trials` are the attempts made, `conds` the channel's
     * conditions between them, `outcome` and `piece` what the packet came to
     * and what was appended.
     */
    method TransmitPacket(packetNum: nat, packet: seq<byte>,
                          receivedData: seq<byte>, retransmissionCounts: seq<nat>, errorsDetected: nat)
      returns (receivedData': seq<byte>, retransmissionCounts': seq<nat>, errorsDetected': nat,
               ghost trials: seq<Trial>, ghost conds: seq<Condition>,
               ghost outcome: PacketOutcome, ghost piece: seq<byte>)
      requires Valid() && |packet| <= PacketSize && |retransmissionCounts| == HistogramSlots
      modifies Footprint()
      ensures PacketRun(packet, old(channel.Current()), old(random.cursor), trials, conds, outcome, piece,
                        channel.Current(), random.cursor)
      ensures receivedData' == receivedData + piece
      ensures outcome.Received? ==>
        && retransmissionCounts' == retransmissionCounts[Slot(outcome.verdict, outcome.attempt) :=
                                                          retransmissionCounts[Slot(outcome.verdict, outcome.attempt)] + 1]
        && errorsDetected' == errorsDetected
      ensures outcome.Lost? ==> retransmissionCounts' == retransmissionCounts && errorsDetected' == errorsDetected + 1
      ensures channel.Noiseless() ==> outcome == Received(Direct(packet), 1, detection.Encode(packet))
    {
      var frame := CreateFrame(packetNum, packet, detection);
      var success;
      success, receivedData', retransmissionCounts', trials, conds :=
        RetryLoop(packet, frame, receivedData, retransmissionCounts);
      errorsDetected' := errorsDetected;
      if success {
        ghost var last := trials[|trials| - 1];
        outcome := Received(last.verdict, |trials|, last.sent);
        piece := last.verdict.payload;
      } else {
        outcome := Lost;
        var noise := Filler();
        piece := noise;
        receivedData' := receivedData' + noise;
        errorsDetected' := errorsDetected' + 1;
      }
    }

    /** Packet `k` ran from mark `k` to mark `k + 1`, as `PacketRun` states. */
    ghost predicate RunAt(packets: seq<seq<byte>>, marks: seq<Condition>, draws: seq<nat>,
                          trialsOf: seq<seq<Trial>>, condsOf: seq<seq<Condition>>,
                          outcomes: seq<PacketOutcome>, pieces: seq<seq<byte>>, k: int)
    {
      && 0 <= k < |outcomes| <= |packets|
      && |marks| == |draws| == |outcomes| + 1
      && |trialsOf| == |condsOf| == |pieces| == |outcomes|
      && PacketRun(packets[k], marks[k], draws[k], trialsOf[k], condsOf[k], outcomes[k], pieces[k],
                   marks[k + 1], draws[k + 1])
    }

    /**
     * The packets so far ran one after another: each starts from the channel
     * condition and generator cursor the previous one left.
     */
    ghost predicate Runs(packets: seq<seq<byte>>, marks: seq<Condition>, draws: seq<nat>,
                         trialsOf: seq<seq<Trial>>, condsOf: seq<seq<Condition>>,
                         outcomes: seq<PacketOutcome>, pieces: seq<seq<byte>>)
    {
      && |outcomes| <= |packets|
      && |marks| == |draws| == |outcomes| + 1
      && |trialsOf| == |condsOf| == |pieces| == |outcomes|
      && forall k :: 0 <= k < |outcomes| ==> RunAt(packets, marks, draws, trialsOf, condsOf, outcomes, pieces, k)
    }

    /** The next packet, run from the last mark, extends the chain. */
    lemma RunsSnoc(packets: seq<seq<byte>>, marks: seq<Condition>, draws: seq<nat>,
                   trialsOf: seq<seq<Trial>>, condsOf: seq<seq<Condition>>,
                   outcomes: seq<PacketOutcome>, pieces: seq<seq<byte>>,
                   trials: seq<Trial>, conds: seq<Condition>, o: PacketOutcome, piece: seq<byte>,
                   end: Condition, draw': nat)
      requires Runs(packets, marks, draws, trialsOf, condsOf, outcomes, pieces)
      requires |outcomes| < |packets|
      requires PacketRun(packets[|outcomes|], marks[|outcomes|], draws[|outcomes|], trials, conds, o, piece, end, draw')
      ensures Runs(packets, marks + [end], draws + [draw'], trialsOf + [trials], condsOf + [conds],
                   outcomes + [o], pieces + [piece])
    {
      var n := |outcomes|;
      forall k | 0 <= k < n + 1
        ensures RunAt(packets, marks + [end], draws + [draw'], trialsOf + [trials], condsOf + [conds],
                      outcomes + [o], pieces + [piece], k)
      {
        if k < n {
          assert RunAt(packets, marks, draws, trialsOf, condsOf, outcomes, pieces, k);
          assert (marks + [end])[k + 1] == marks[k + 1];
          assert (draws + [draw'])[k + 1] == draws[k + 1];
        }
      }
    }

    /**
     * The chain of packets already delivers each one: a received packet's
     * verdict is the receiver's judgement, within ten attempts, of what the
     * channel delivered, and a lost one is 64 bytes.
     */
    lemma RunsDelivered(packets: seq<seq<byte>>, marks: seq<Condition>, draws: seq<nat>,
                        trialsOf: seq<seq<Trial>>, condsOf: seq<seq<Condition>>,
                        outcomes: seq<PacketOutcome>, pieces: seq<seq<byte>>)
      requires Runs(packets, marks, draws, trialsOf, condsOf, outcomes, pieces)
      ensures Delivered(detection, correction, packets[..|outcomes|], outcomes, pieces)
    {
      var n := |outcomes|;
      forall k | 0 <= k < n
        ensures match outcomes[k]
          case Received(verdict, attempt, sent) =>
            && 1 <= attempt <= MaxRetries && !verdict.Rejected?
            && pieces[k] == verdict.payload && |verdict.payload| == |packets[..n][k]|
            && Judged(detection, correction, packets[..n][k], sent, verdict)
          case Lost => |pieces[k]| == PacketSize
      {
        assert RunAt(packets, marks, draws, trialsOf, condsOf, outcomes, pieces, k);
        assert packets[..n][k] == packets[k];
        LastTrialJudged(packets[k], trialsOf[k], condsOf[k]);
      }
    }

    /**
     * Over a binary symmetric channel only the filler draws from `random`: the
     * packets before number `k` have moved the cursor 64 places per lost packet.
     */
    lemma {:induction false} BscDrawsAt(packets: seq<seq<byte>>, marks: seq<Condition>, draws: seq<nat>,
                                        trialsOf: seq<seq<Trial>>, condsOf: seq<seq<Condition>>,
                                        outcomes: seq<PacketOutcome>, pieces: seq<seq<byte>>, k: nat)
      requires Runs(packets, marks, draws, trialsOf, condsOf, outcomes, pieces)
      requires channel.medium.Bsc? && k <= |outcomes|
      ensures draws[k] == draws[0] + PacketSize * LostCount(outcomes[..k])
    {
      if k > 0 {
        BscDrawsAt(packets, marks, draws, trialsOf, condsOf, outcomes, pieces, k - 1);
        assert RunAt(packets, marks, draws, trialsOf, condsOf, outcomes, pieces, k - 1);
        assert outcomes[..k][..k - 1] == outcomes[..k - 1];
      }
    }

    /**
     * Over a binary symmetric channel the filler of lost packet `k` is the 64
     * draws after those of the lost packets before it.
     */
    lemma BscFiller(packets: seq<seq<byte>>, marks: seq<Condition>, draws: seq<nat>,
                    trialsOf: seq<seq<Trial>>, condsOf: seq<seq<Condition>>,
                    outcomes: seq<PacketOutcome>, pieces: seq<seq<byte>>, k: nat)
      requires Runs(packets, marks, draws, trialsOf, condsOf, outcomes, pieces)
      requires channel.medium.Bsc? && k < |outcomes| && outcomes[k].Lost?
      ensures Drawn(random.oracle, draws[0] + PacketSize * LostCount(outcomes[..k]), pieces[k])
    {
      BscDrawsAt(packets, marks, draws, trialsOf, condsOf, outcomes, pieces, k);
      assert RunAt(packets, marks, draws, trialsOf, condsOf, outcomes, pieces, k);
    }

    /** A packet, as `TransmitPacket` reports it, keeps the accounts of `run_image_transmission`. */
    lemma PacketStep(clean: bool, header: seq<byte>, packets: seq<seq<byte>>, n: nat,
                     outcomes: seq<PacketOutcome>, pieces: seq<seq<byte>>,
                     receivedData: seq<byte>, counts: seq<nat>, errors: nat,
                     start: Condition, draw: nat, trials: seq<Trial>, conds: seq<Condition>,
                     o: PacketOutcome, piece: seq<byte>, end: Condition, draw': nat,
                     receivedData': seq<byte>, counts': seq<nat>, errors': nat)
      requires Progress(detection, correction, clean, header, packets, n, outcomes, pieces, receivedData, counts, errors)
      requires n < |packets|
      requires PacketRun(packets[n], start, draw, trials, conds, o, piece, end, draw')
      requires receivedData' == receivedData + piece
      requires o.Received? ==>
        && counts' == counts[Slot(o.verdict, o.attempt) := counts[Slot(o.verdict, o.attempt)] + 1]
        && errors' == errors
      requires o.Lost? ==> counts' == counts && errors' == errors + 1
      requires clean ==> o == Received(Direct(packets[n]), 1, detection.Encode(packets[n]))
      ensures Progress(detection, correction, clean, header, packets, n + 1, outcomes + [o], pieces + [piece],
                       receivedData', counts', errors')
    {
      LastTrialJudged(packets[n], trials, conds);
      ProgressStep(detection, correction, clean, header, packets, n, outcomes, pieces,
                   receivedData, counts, errors, o, piece, receivedData', counts', errors');
    }

    /**
     * What `run_image_transmission` has built and done after the first `n`
     * packets, which started from channel condition `start` and generator
     * cursor `draw0`: the accounts of `Progress`, and the packets run one
     * after another from there. Over a binary symmetric channel the generator
     * has made exactly the filler draws.
     */
    ghost predicate Running(header: seq<byte>, packets: seq<seq<byte>>, n: nat,
                            outcomes: seq<PacketOutcome>, pieces: seq<seq<byte>>,
                            receivedData: seq<byte>, counts: seq<nat>, errors: nat,
                            trialsOf: seq<seq<Trial>>, condsOf: seq<seq<Condition>>,
                            marks: seq<Condition>, draws: seq<nat>, start: Condition, draw0: nat)
    {
      && Progress(detection, correction, channel.Noiseless(), header, packets, n, outcomes, pieces,
                  receivedData, counts, errors)
      && Runs(packets, marks, draws, trialsOf, condsOf, outcomes, pieces)
      && marks[0] == start && draws[0] == draw0
      && (channel.medium.Bsc? ==> draws[n] == draw0 + PacketSize * errors)
    }

    /** One packet, as `TransmitPacket` reports it, advances `Running`. */
    lemma RunningStep(header: seq<byte>, packets: seq<seq<byte>>, n: nat,
                      outcomes: seq<PacketOutcome>, pieces: seq<seq<byte>>,
                      receivedData: seq<byte>, counts: seq<nat>, errors: nat,
                      trialsOf: seq<seq<Trial>>, condsOf: seq<seq<Condition>>,
                      marks: seq<Condition>, draws: seq<nat>, start: Condition, draw0: nat,
                      trials: seq<Trial>, conds: seq<Condition>, o: PacketOutcome, piece: seq<byte>,
                      end: Condition, draw': nat, receivedData': seq<byte>, counts': seq<nat>, errors': nat)
      requires Running(header, packets, n, outcomes, pieces, receivedData, counts, errors,
                       trialsOf, condsOf, marks, draws, start, draw0)
      requires n < |packets|
      requires PacketRun(packets[n], marks[n], draws[n], trials, conds, o, piece, end, draw')
      requires receivedData' == receivedData + piece
      requires o.Received? ==>
        && counts' == counts[Slot(o.verdict, o.attempt) := counts[Slot(o.verdict, o.attempt)] + 1]
        && errors' == errors
      requires o.Lost? ==> counts' == counts && errors' == errors + 1
      requires channel.Noiseless() ==> o == Received(Direct(packets[n]), 1, detection.Encode(packets[n]))
      ensures Running(header, packets, n + 1, outcomes + [o], pieces + [piece], receivedData', counts', errors',
                      trialsOf + [trials], condsOf + [conds], marks + [end], draws + [draw'], start, draw0)
    {
      PacketStep(channel.Noiseless(), header, packets, n, outcomes, pieces, receivedData, counts, errors,
                 marks[n], draws[n], trials, conds, o, piece, end, draw', receivedData', counts', errors');
      RunsSnoc(packets, marks, draws, trialsOf, condsOf, outcomes, pieces, trials, conds, o, piece, end, draw');
    }

    /**
     * `run_image_transmission` from loading the data to the last packet:
     * returns `received_data`, `retransmission_counts` and `errors_detected`.
     */
    method RunImageTransmission(data: seq<byte>)
      returns (receivedData: seq<byte>, retransmissionCounts: seq<nat>, errorsDetected: nat,
               ghost outcomes: seq<PacketOutcome>, ghost pieces: seq<seq<byte>>,
               ghost trialsOf: seq<seq<Trial>>, ghost condsOf: seq<seq<Condition>>,
               ghost marks: seq<Condition>, ghost draws: seq<nat>)
      requires Valid()
      modifies Footprint()
      ensures var packets := Packets(data[Min(HeaderLength, |data|)..]);
        && |outcomes| == |pieces| == |packets|
        && AttemptsInRange(outcomes)
        && retransmissionCounts == Histogram(outcomes)
        && errorsDetected == LostCount(outcomes)
        && receivedData == data[..Min(HeaderLength, |data|)] + Flatten(pieces)
        && Delivered(detection, correction, packets, outcomes, pieces)
        && Runs(packets, marks, draws, trialsOf, condsOf, outcomes, pieces)
      ensures marks[0] == old(channel.Current()) && draws[0] == old(random.cursor)
      ensures channel.Current() == marks[|outcomes|] && random.cursor == draws[|outcomes|]
      ensures channel.medium.Bsc? ==> random.cursor == old(random.cursor) + PacketSize * errorsDetected
      ensures channel.Noiseless() ==>
        && receivedData == data && errorsDetected == 0
        && retransmissionCounts == seq(HistogramSlots, i => if i == 1 then |outcomes| else 0)
        && forall k :: 0 <= k < |outcomes| ==>
             var packet := Packets(data[Min(HeaderLength, |data|)..])[k];
             outcomes[k] == Received(Direct(packet), 1, detection.Encode(packet))
    {
      var header := data[..Min(HeaderLength, |data|)];
      var pixelData := data[Min(HeaderLength, |data|)..];
      var packets := Packets(pixelData);
      retransmissionCounts := seq(HistogramSlots, i => 0);
      errorsDetected := 0;
      receivedData := header;
      outcomes := [];
      pieces := [];
      trialsOf, condsOf := [], [];
      marks, draws := [channel.Current()], [random.cursor];

      var n := 0;
      while n < |packets|
        invariant Running(header, packets, n, outcomes, pieces, receivedData, retransmissionCounts, errorsDetected,
                          trialsOf, condsOf, marks, draws, old(channel.Current()), old(random.cursor))
        invariant channel.Current() == marks[n] && random.cursor == draws[n]
      {
        var packet := packets[n];
        ghost var receivedData0, counts0, errors0 := receivedData, retransmissionCounts, errorsDetected;
        ghost var trials, conds, outcome, piece;
        receivedData, retransmissionCounts, errorsDetected, trials, conds, outcome, piece :=
          TransmitPacket(n + 1, packet, receivedData, retransmissionCounts, errorsDetected);
        RunningStep(header, packets, n, outcomes, pieces, receivedData0, counts0, errors0,
                    trialsOf, condsOf, marks, draws, old(channel.Current()), old(random.cursor),
                    trials, conds, outcome, piece, channel.Current(), random.cursor,
                    receivedData, retransmissionCounts, errorsDetected);
        outcomes := outcomes + [outcome];
        pieces := pieces + [piece];
        trialsOf := trialsOf + [trials];
        condsOf := condsOf + [conds];
        marks := marks + [channel.Current()];
        draws := draws + [random.cursor];
        n := n + 1;
      }
      assert packets[..n] == packets;
      if channel.Noiseless() {
        CleanOutput(data, pieces, receivedData);
        CleanCounts(detection, outcomes, retransmissionCounts, packets);
      }
    }
  }

  function Min(a: int, b: int): int
  {
    if a < b then a else b
  }
}
