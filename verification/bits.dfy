/**
 Machine-integer vocabulary shared by the whole model: bytes, the C `u32`
 wrap-around, the big-endian assemblies the driver performs on register reads
 and waveform headers, and the bitwise operators on bytes.
 */
module Bits {

  /** A `u8` value. */
  type Byte = x: int | 0 <= x < 256

  const U32_MOD: int := 0x1_0000_0000

  /** A `u32` value. */
  type Word32 = x: int | 0 <= x < 0x1_0000_0000

  /** C assignment to a `u32`: reduction modulo 2^32. */
  function Wrap32(x: int): (r: Word32)
    ensures 0 <= x < U32_MOD ==> r == x
    ensures (r - x) % U32_MOD == 0
  {
    x % U32_MOD
  }

  /** C assignment of an `int` to a `u8`: the low byte of the two's complement
      representation, which for every integer is its Euclidean residue mod 256. */
  function LowByte(x: int): (r: Byte)
    ensures 0 <= x < 256 ==> r == x
    ensures (r - x) % 256 == 0
  {
    x % 256
  }

  /** `(u32)hi << 8 | lo` for two bytes. */
  function Be16(hi: Byte, lo: Byte): (r: int)
    ensures 0 <= r < 0x1_0000
    ensures r / 256 == hi && r % 256 == lo
  {
    hi * 256 + lo
  }

  /** `(u32)b3 << 24 | b2 << 16 | b1 << 8 | b0` for four bytes. */
  function Be32(b3: Byte, b2: Byte, b1: Byte, b0: Byte): (r: Word32)
  {
    ((b3 * 256 + b2) * 256 + b1) * 256 + b0
  }

  /** The four bytes of a `u32`, most significant first. */
  function Be32Bytes(w: Word32): (r: seq<Byte>)
    ensures |r| == 4
  {
    var w1 := w / 256;
    var w2 := w1 / 256;
    [w2 / 256, w2 % 256, w1 % 256, w % 256]
  }

  lemma DivMod256(q: int, r: Byte)
    ensures (q * 256 + r) / 256 == q
    ensures (q * 256 + r) % 256 == r
  {
  }

  /** Big-endian assembly and splitting are inverse: the assembled word
      determines its four bytes. */
  lemma {:induction false} Be32RoundTrip(b3: Byte, b2: Byte, b1: Byte, b0: Byte)
    ensures Be32Bytes(Be32(b3, b2, b1, b0)) == [b3, b2, b1, b0]
  {
    var hi16 := b3 * 256 + b2;
    var hi24 := hi16 * 256 + b1;
    DivMod256(hi24, b0);
    DivMod256(hi16, b1);
    DivMod256(b3, b2);
  }

  /** Two big-endian words are equal exactly when their bytes are. */
  lemma Be32Injective(a3: Byte, a2: Byte, a1: Byte, a0: Byte, b3: Byte, b2: Byte, b1: Byte, b0: Byte)
    ensures Be32(a3, a2, a1, a0) == Be32(b3, b2, b1, b0) <==> [a3, a2, a1, a0] == [b3, b2, b1, b0]
  {
    Be32RoundTrip(a3, a2, a1, a0);
    Be32RoundTrip(b3, b2, b1, b0);
  }

  /** The error outcomes the driver distinguishes. */
  datatype Error =
    | NotReady          // the channel's identity read never succeeded (`i2c_status == 0`)
    | SizeExceeded      // a bulk write longer than the transport frame limit
    | WriteFailed       // a register write reported a negative status

  datatype Result<T> = Ok(value: T) | Err(error: Error)

  datatype Option<T> = None | Some(value: T)
}
