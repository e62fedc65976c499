/**
 * The Reed-Solomon wrapper of `src/error_correction_code.py`, as an interface.
 * The GF(256) code belongs to the `reedsolo` library and is not part of this
 * model: `codec` stands for `RSCodec(nsym).encode` and `codecDecode` for the
 * message part of `RSCodec(nsym).decode`, `None` where it raises.
 */
module ErrorCorrection {
  import opened Bytes
  import opened Wrappers

  /** The longest codeword over GF(256). */
  const BlockLength := 255

  datatype CorrectionCode = CorrectionCode(
    nsym: nat,
    codec: seq<byte> -> seq<byte>,
    codecDecode: seq<byte> -> Option<seq<byte>>)
  {
    /**
     * The length laws of a systematic code with `nsym` parity symbols on one
     * block: encoding appends `nsym` symbols, and a successful decode strips
     * `nsym` symbols.
     */
    ghost predicate WellFormed()
    {
      && (forall d: seq<byte> :: |d| + nsym <= BlockLength ==> |codec(d)| == |d| + nsym)
      && (forall c: seq<byte> :: |c| <= BlockLength && codecDecode(c).Some? ==>
            |codecDecode(c).value| + nsym == |c|)
    }

    /** `encode(data)`: the codec output after its first `len(data)` bytes. */
    function Encode(data: seq<byte>): (parity: seq<byte>)
      ensures WellFormed() && |data| + nsym <= BlockLength ==> |parity| == nsym
    {
      var encoded := codec(data);
      if |data| <= |encoded| then encoded[|data|..] else []
    }

    /** `decode(data)`: the corrected message, or `None` if the codec raised. */
    function Decode(data: seq<byte>): (r: Option<seq<byte>>)
      ensures WellFormed() && |data| <= BlockLength && r.Some? ==> |r.value| + nsym == |data|
    {
      codecDecode(data)
    }
  }
}
