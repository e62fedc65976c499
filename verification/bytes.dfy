/**
 * Bytes and bits as the simulator handles them: Python `bytes` elements are
 * integers in 0..255, and the channel layer works on arrays of 0/1 integers.
 * Python's shift and mask operators on non-negative integers are written here
 * with halving and remainders: `x >> k` is `Shr(x, k)`, `x & 1` is `x % 2`,
 * and `(acc << 1) | bit` is `acc * 2 + bit` for a 0/1 `bit`.
 */
module Bytes {

  /** One element of a Python `bytes` or `bytearray`. */
  type byte = x: int | 0 <= x < 256

  /** One element of the 0/1 arrays built by the channel's bit conversion. */
  type bit = x: int | 0 <= x < 2

  function Pow2(n: nat): (r: nat)
    ensures r >= 1
  {
    if n == 0 then 1 else 2 * Pow2(n - 1)
  }

  lemma Pow2Byte()
    ensures Pow2(8) == 256
  {
  }

  /** `x >> k` for a non-negative integer `x`. */
  function Shr(x: nat, k: nat): nat
  {
    if k == 0 then x else Shr(x / 2, k - 1)
  }

  /** `(b >> (7 - i)) & 1`: the `i`-th bit of `b`, most significant first. */
  function BitOf(b: byte, i: nat): bit
    requires i < 8
  {
    Shr(b, 7 - i) % 2
  }

  /** The `n` low-order bits of `x`, most significant first. */
  function LowBits(x: nat, n: nat): (r: seq<bit>)
    ensures |r| == n
  {
    if n == 0 then [] else LowBits(x / 2, n - 1) + [x % 2]
  }

  /**
   * The value of a bit string read most significant bit first: what the loop
   * `byte = (byte << 1) | bit` accumulates.
   */
  function Horner(g: seq<bit>): (r: nat)
    ensures r < Pow2(|g|)
  {
    if g == [] then 0 else Horner(g[..|g| - 1]) * 2 + g[|g| - 1]
  }

  /** One more step of `byte = (byte << 1) | bit` over a slice. */
  lemma HornerPrefix(g: seq<bit>, j: nat)
    requires j < |g|
    ensures Horner(g[..j + 1]) == Horner(g[..j]) * 2 + g[j]
  {
    assert g[..j + 1][..j] == g[..j];
  }

  /** Eight bits make a byte. */
  lemma HornerByte(g: seq<bit>)
    requires |g| == 8
    ensures Horner(g) < 256
  {
    Pow2Byte();
  }

  /** Reading back the `n` low bits of a number below 2^n gives the number. */
  lemma {:induction false} HornerLowBits(x: nat, n: nat)
    requires x < Pow2(n)
    ensures Horner(LowBits(x, n)) == x
  {
    if n > 0 {
      HornerLowBits(x / 2, n - 1);
      assert LowBits(x, n)[..n - 1] == LowBits(x / 2, n - 1);
    }
  }

  /** Splitting the value of a bit string into bits gives the bit string back. */
  lemma {:induction false} LowBitsHorner(g: seq<bit>)
    ensures LowBits(Horner(g), |g|) == g
  {
    if g != [] {
      LowBitsHorner(g[..|g| - 1]);
      assert g == g[..|g| - 1] + [g[|g| - 1]];
    }
  }

  /** Position `i` of `LowBits(x, n)` is the bit that `x >> (n - 1 - i)` ends in. */
  lemma {:induction false} LowBitsAt(x: nat, n: nat, i: nat)
    requires i < n
    ensures LowBits(x, n)[i] == Shr(x, n - 1 - i) % 2
  {
    if i < n - 1 {
      LowBitsAt(x / 2, n - 1, i);
    }
  }

  /** The eight bits `BitOf` extracts are the eight low bits of the byte. */
  lemma ByteLowBits(b: byte)
    ensures forall i :: 0 <= i < 8 ==> LowBits(b, 8)[i] == BitOf(b, i)
  {
    forall i | 0 <= i < 8
      ensures LowBits(b, 8)[i] == BitOf(b, i)
    {
      LowBitsAt(b, 8, i);
    }
  }

  /** The exclusive or of the low `n` bits of `a` and `m`, least significant bit first. */
  function XorLow(a: nat, m: nat, n: nat): (r: nat)
    ensures r < Pow2(n)
  {
    if n == 0 then 0 else XorLow(a / 2, m / 2, n - 1) * 2 + (a % 2 + m % 2) % 2
  }

  /** Only the zero mask leaves the low `n` bits unchanged. */
  lemma {:induction false} XorLowSame(a: nat, m: nat, n: nat)
    requires a < Pow2(n) && m < Pow2(n)
    ensures XorLow(a, m, n) == a <==> m == 0
  {
    if n > 0 {
      XorLowSame(a / 2, m / 2, n - 1);
    }
  }

  /** The lowest bit of the exclusive or is the exclusive or of the lowest bits. */
  lemma XorLowParity(a: nat, m: nat, n: nat)
    requires n > 0
    ensures XorLow(a, m, n) % 2 == (a + m) % 2
  {
    var rest := XorLow(a / 2, m / 2, n - 1);
    assert XorLow(a, m, n) == rest * 2 + (a % 2 + m % 2) % 2;
  }

  /**
   * The bitwise exclusive or of two bytes, `a ^ m`: it changes the byte
   * exactly when the mask is non-zero, and its lowest bit is the exclusive or
   * of the lowest bits.
   */
  function Xor(a: byte, m: byte): (r: byte)
    ensures r == a <==> m == 0
    ensures r % 2 == (a + m) % 2
  {
    Pow2Byte();
    XorLowSame(a, m, 8);
    XorLowParity(a, m, 8);
    XorLow(a, m, 8)
  }

  /** Python's `sum(data)`: at most 255 per byte. */
  function Sum(data: seq<byte>): (r: nat)
    ensures r <= 255 * |data|
  {
    if data == [] then 0 else Sum(data[..|data| - 1]) + data[|data| - 1]
  }

  /** Replacing one byte changes the sum by the difference. */
  lemma {:induction false} SumUpdate(data: seq<byte>, k: nat, v: byte)
    requires k < |data|
    ensures Sum(data[k := v]) == Sum(data) - data[k] + v
  {
    var n := |data|;
    if k < n - 1 {
      SumUpdate(data[..n - 1], k, v);
      assert data[k := v][..n - 1] == data[..n - 1][k := v];
    } else {
      assert data[k := v][..n - 1] == data[..n - 1];
    }
  }
}
