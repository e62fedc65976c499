/**
 * The four error-detection codes of `src/error_detection_code.py`, a closed
 * family dispatched by pattern matching. Each one appends a checksum to the
 * payload (`Encode`), strips and re-checks it (`Decode`), and computes the
 * checksum alone (`Checksum`). CRC8 and CRC16 are not separate polynomials:
 * they keep the low 8 and 16 bits of the zlib CRC-32.
 */
module ErrorDetection {
  import opened Bytes
  import opened Wrappers

  /** One round of the CRC-32 table construction of section 8 of RFC 1952. */
  function CrcShift(c: bv32, k: nat): bv32
    decreases k
  {
    if k == 0 then c
    else CrcShift(if c & 1 == 1 then 0xEDB8_8320 ^ (c >> 1) else c >> 1, k - 1)
  }

  /** `crc_table[n]` of RFC 1952, section 8. */
  function CrcTable(n: bv32): bv32
  {
    CrcShift(n, 8)
  }

  /** The inner loop of `update_crc` of RFC 1952, section 8, over a byte string. */
  function CrcUpdate(c: bv32, buf: seq<byte>): bv32
    decreases |buf|
  {
    if buf == [] then c
    else CrcUpdate(CrcTable((c ^ (buf[0] as bv32)) & 0xFF) ^ (c >> 8), buf[1..])
  }

  /** `zlib.crc32(data)`: the standard CRC-32 with initial value 0. */
  function Crc32(data: seq<byte>): (r: nat)
    ensures r < 0x1_0000_0000
  {
    (CrcUpdate(0xFFFF_FFFF, data) ^ 0xFFFF_FFFF) as int
  }

  lemma DivDiv256(x: nat)
    ensures x / 0x1_0000 == (x / 0x100) / 0x100
    ensures x / 0x100_0000 == (x / 0x1_0000) / 0x100
  {
    var q := x / 0x100;
    assert x == 0x100 * q + x % 0x100;
    var q2 := q / 0x100;
    assert q == 0x100 * q2 + q % 0x100;
    assert x == 0x1_0000 * q2 + 0x100 * (q % 0x100) + x % 0x100;
    var q3 := q2 / 0x100;
    assert q2 == 0x100 * q3 + q2 % 0x100;
    assert x == 0x100_0000 * q3 + 0x1_0000 * (q2 % 0x100) + 0x100 * (q % 0x100) + x % 0x100;
  }

  datatype DetectionCode = Parity | CRC8 | CRC16 | CRC32
  {
    /** `type(code).__name__`, the `encoding_info` a frame records. */
    function ClassName(): string
    {
      match this
      case Parity => "ParityCode"
      case CRC8 => "CRC8"
      case CRC16 => "CRC16"
      case CRC32 => "CRC32"
    }

    /** How many bytes `encode` appends. */
    function Width(): nat
    {
      match this
      case Parity => 1
      case CRC8 => 1
      case CRC16 => 2
      case CRC32 => 4
    }

    /** One more than the largest checksum value. */
    function Bound(): nat
    {
      match this
      case Parity => 2
      case CRC8 => 0x100
      case CRC16 => 0x1_0000
      case CRC32 => 0x1_0000_0000
    }

    /** `calculate_checksum(data)` */
    function Checksum(data: seq<byte>): (c: nat)
      ensures c < Bound()
    {
      match this
      case Parity => Sum(data) % 2
      case CRC8 => Crc32(data) % 0x100
      case CRC16 => Crc32(data) % 0x1_0000
      case CRC32 => Crc32(data)
    }

    /**
     * The bytes `encode` appends for checksum `c`: `bytes([c])` for Parity and
     * CRC8, then big-endian `[c >> 8, c & 0xFF]` and
     * `[c >> 24, (c >> 16) & 0xFF, (c >> 8) & 0xFF, c & 0xFF]`.
     */
    function ChecksumBytes(c: nat): (t: seq<byte>)
      requires c < Bound()
      ensures |t| == Width()
    {
      match this
      case Parity => [c]
      case CRC8 => [c]
      case CRC16 => [c / 0x100, c % 0x100]
      case CRC32 =>
        DivDiv256(c);
        [c / 0x100_0000, c / 0x1_0000 % 0x100, c / 0x100 % 0x100, c % 0x100]
    }

    /** `encode(data)`: the payload followed by its checksum bytes. */
    function Encode(data: seq<byte>): (e: seq<byte>)
      ensures |e| == |data| + Width()
      ensures e[..|data|] == data
    {
      data + ChecksumBytes(Checksum(data))
    }

    /** Inputs `decode` handles without raising: CRC decoding indexes the trailer. */
    predicate Decodable(data: seq<byte>)
    {
      Parity? || |data| >= Width()
    }

    /**
     * The checksum `decode` reads back from the trailing bytes: `data[-1]`,
     * `(high << 8) | low`, or the four bytes shifted by 24, 16, 8 and 0.
     */
    function Trailer(data: seq<byte>): (r: nat)
      requires |data| >= Width()
      ensures r < 0x1_0000_0000
      ensures !Parity? ==> r < Bound()
    {
      var n := |data|;
      match this
      case Parity => data[n - 1]
      case CRC8 => data[n - 1]
      case CRC16 => (data[n - 2] as int) * 0x100 + data[n - 1]
      case CRC32 =>
        (data[n - 4] as int) * 0x100_0000 + (data[n - 3] as int) * 0x1_0000 + (data[n - 2] as int) * 0x100 + data[n - 1]
    }

    /**
     * `decode(data)`: the payload if the checksum recomputed over it equals the
     * trailer, `None` otherwise (and for empty input to the parity code).
     */
    function Decode(data: seq<byte>): (r: Option<seq<byte>>)
      requires Decodable(data)
      ensures r.Some? ==> |r.value| + Width() == |data| && r.value == data[..|r.value|]
    {
      if |data| < Width() then None
      else
        var payload := data[..|data| - Width()];
        if Checksum(payload) == Trailer(data) then Some(payload) else None
    }
  }

  /** The class name a frame records tells the four codes apart. */
  lemma ClassNameIdentifies(a: DetectionCode, b: DetectionCode)
    ensures a.ClassName() == b.ClassName() <==> a == b
  {
  }

  /** The trailer of an encoding is the checksum that was appended. */
  lemma TrailerOfChecksumBytes(code: DetectionCode, data: seq<byte>, c: nat)
    requires c < code.Bound()
    ensures code.Trailer(data + code.ChecksumBytes(c)) == c
  {
    if code.CRC32? {
      DivDiv256(c);
    }
  }

  /** Checksum bytes are determined by the value they encode. */
  lemma ChecksumBytesOfTrailer(code: DetectionCode, data: seq<byte>)
    requires |data| >= code.Width()
    requires code.Trailer(data) < code.Bound()
    ensures code.ChecksumBytes(code.Trailer(data)) == data[|data| - code.Width()..]
  {
    var n := |data|;
    var c := code.Trailer(data);
    match code
    case CRC16 =>
      assert c / 0x100 == data[n - 2];
    case CRC32 =>
      DivDiv256(c);
      assert c / 0x100 == (data[n - 4] as int) * 0x1_0000 + (data[n - 3] as int) * 0x100 + data[n - 2];
      assert c / 0x1_0000 == (data[n - 4] as int) * 0x100 + data[n - 3];
    case _ =>
  }

  /** Round trip: decoding an encoding returns the payload, for every code. */
  lemma DecodeEncode(code: DetectionCode, data: seq<byte>)
    ensures code.Decodable(code.Encode(data))
    ensures code.Decode(code.Encode(data)) == Some(data)
  {
    var e := code.Encode(data);
    assert e[..|e| - code.Width()] == data;
    TrailerOfChecksumBytes(code, data, code.Checksum(data));
  }

  /** `decode` accepts exactly the encodings, and returns their payload. */
  lemma DecodeAcceptsExactlyEncodings(code: DetectionCode, data: seq<byte>, payload: seq<byte>)
    requires code.Decodable(data)
    ensures code.Decode(data) == Some(payload) <==> data == code.Encode(payload)
  {
    if data == code.Encode(payload) {
      DecodeEncode(code, payload);
    }
    if code.Decode(data) == Some(payload) {
      var n := |data|;
      ChecksumBytesOfTrailer(code, data);
      assert data == data[..n - code.Width()] + data[n - code.Width()..];
    }
  }

  /**
   * The parity code rejects empty input and any trailer other than 0 or 1, and
   * otherwise accepts exactly when `sum(payload) % 2` equals the trailer.
   */
  lemma ParityDecode(data: seq<byte>)
    ensures |data| == 0 ==> Parity.Decode(data) == None
    ensures |data| > 0 && data[|data| - 1] > 1 ==> Parity.Decode(data) == None
    ensures |data| > 0 ==>
      (Parity.Decode(data).Some? <==> Sum(data[..|data| - 1]) % 2 == data[|data| - 1])
  {
  }

  /** Swapping a term for one of the parity of `a + m` shifts the parity by `m`. */
  lemma OddShift(s: int, a: int, x: int, m: int)
    requires x % 2 == (a + m) % 2
    ensures ((s - a + x) % 2 == s % 2) <==> m % 2 == 0
  {
  }

  /**
   * What the parity code detects: corrupting one payload byte by exclusive or
   * with a non-zero mask `m` is caught exactly when `m` is odd (the code sums
   * byte values, so only the lowest bit of each byte counts), and corrupting
   * the parity byte itself is always caught.
   */
  lemma {:induction false} ParityDetectsOddMasks(payload: seq<byte>, k: nat, m: byte)
    requires k <= |payload| && m != 0
    ensures var e := Parity.Encode(payload);
      var corrupted := e[k := Xor(e[k], m)];
      (k < |payload| ==> (Parity.Decode(corrupted) == None <==> m % 2 == 1)) &&
      (k == |payload| ==> Parity.Decode(corrupted) == None)
  {
    var e := Parity.Encode(payload);
    var n := |payload|;
    var corrupted := e[k := Xor(e[k], m)];
    if k < n {
      assert corrupted[..n] == payload[k := Xor(payload[k], m)];
      SumUpdate(payload, k, Xor(payload[k], m));
      assert corrupted[n] == e[n] == Sum(payload) % 2;
      OddShift(Sum(payload), payload[k], Xor(payload[k], m), m);
      assert corrupted[..|corrupted| - 1] == corrupted[..n];
    } else {
      assert corrupted[..n] == payload;
    }
  }
}
