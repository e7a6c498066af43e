/** Octets and the 4-byte unsigned length field of the wire protocol.

    The host packs and unpacks the field with `struct` format "@I", the
    machine's native unsigned int. The model fixes one order,
    little-endian, for both the encoder and the decoder, which is all the
    round trip needs. */
module Bytes {

  type byte = x: int | 0 <= x < 256

  /** 2^32: one more than the largest value the length field can hold. */
  const U32_LIMIT: int := 0x1_0000_0000

  /** `struct.pack("@I", n)`, least significant byte first. */
  function EncodeU32(n: nat): (b: seq<byte>)
    requires n < U32_LIMIT
    ensures |b| == 4
  {
    [n % 0x100, (n / 0x100) % 0x100, (n / 0x1_0000) % 0x100, n / 0x100_0000]
  }

  /** `struct.unpack("@I", b)[0]` for exactly four bytes. */
  function DecodeU32(b: seq<byte>): (n: nat)
    requires |b| == 4
    ensures n < U32_LIMIT
  {
    b[0] as int + 0x100 * b[1] as int + 0x1_0000 * b[2] as int + 0x100_0000 * b[3] as int
  }

  /** Unpacking a packed length gives back the length. */
  lemma DecodeEncode(n: nat)
    requires n < U32_LIMIT
    ensures DecodeU32(EncodeU32(n)) == n
  {
    var q1 := n / 0x100;
    var q2 := q1 / 0x100;
    var q3 := q2 / 0x100;
    assert n == n % 0x100 + 0x100 * q1;
    assert q1 == q1 % 0x100 + 0x100 * q2;
    assert q2 == q2 % 0x100 + 0x100 * q3;
    assert q2 == n / 0x1_0000;
    assert q3 == n / 0x100_0000;
  }

  /** Packing an unpacked field gives back the same four bytes, so every
      4-byte header is the encoding of exactly one length. */
  lemma EncodeDecode(b: seq<byte>)
    requires |b| == 4
    ensures EncodeU32(DecodeU32(b)) == b
  {
    var n := DecodeU32(b);
    var q1: int := b[1] as int + 0x100 * b[2] as int + 0x1_0000 * b[3] as int;
    var q2: int := b[2] as int + 0x100 * b[3] as int;
    assert n == b[0] as int + 0x100 * q1;
    assert n % 0x100 == b[0] && n / 0x100 == q1;
    assert q1 == b[1] as int + 0x100 * q2;
    assert q1 % 0x100 == b[1] && q1 / 0x100 == q2;
    assert q2 % 0x100 == b[2] && q2 / 0x100 == b[3];
    assert n / 0x1_0000 == q2 by {
      assert n == b[0] as int + 0x100 * b[1] as int + 0x1_0000 * q2;
    }
    assert n / 0x100_0000 == b[3] by {
      assert n == b[0] as int + 0x100 * b[1] as int + 0x1_0000 * b[2] as int + 0x100_0000 * b[3] as int;
    }
  }
}
