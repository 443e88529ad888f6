/**
 Fixed-width integers and network byte order, as the reference-count table
 stores them: `htonl`/`ntohl` framing of 32-bit values, and the signed
 reinterpretation of the account ID.
 */
module ByteOrder {

  type Byte = x: int | 0 <= x < 0x100
  type UInt32 = x: int | 0 <= x < 0x1_0000_0000
  type Int32 = x: int | -0x8000_0000 <= x < 0x8000_0000

  /** The four bytes `htonl(v)` puts in memory: most significant byte first. */
  function EncodeU32(v: UInt32): (r: seq<Byte>)
    ensures |r| == 4
    ensures Weigh(r[0], r[1], r[2], r[3]) == v
  {
    var hi: int, lo: int := v / 0x1_0000, v % 0x1_0000;
    assert v == hi * 0x1_0000 + lo;
    assert hi == (hi / 0x100) * 0x100 + hi % 0x100;
    assert lo == (lo / 0x100) * 0x100 + lo % 0x100;
    [hi / 0x100, hi % 0x100, lo / 0x100, lo % 0x100]
  }

  /** The value of four bytes read most significant first. */
  function Weigh(b0: int, b1: int, b2: int, b3: int): int
  {
    b0 * 0x100_0000 + b1 * 0x1_0000 + b2 * 0x100 + b3
  }

  /** `ntohl` applied to four bytes read from the stream. */
  function DecodeU32(s: seq<Byte>): UInt32
    requires |s| == 4
  {
    Weigh(s[0], s[1], s[2], s[3])
  }

  lemma DecodeEncode(v: UInt32)
    ensures DecodeU32(EncodeU32(v)) == v
  {
  }

  /** Four stored bytes are exactly the encoding of what they decode to. */
  lemma EncodeDecode(s: seq<Byte>)
    requires |s| == 4
    ensures EncodeU32(DecodeU32(s)) == s
  {
    var v := DecodeU32(s);
    var hi: int, lo: int := s[0] as int * 0x100 + s[1], s[2] as int * 0x100 + s[3];
    assert v == hi * 0x1_0000 + lo && 0 <= lo < 0x1_0000;
    assert v / 0x1_0000 == hi && v % 0x1_0000 == lo;
    assert hi / 0x100 == s[0] && hi % 0x100 == s[1];
    assert lo / 0x100 == s[2] && lo % 0x100 == s[3];
  }

  /** The 32-bit pattern of a signed value, as `htonl` sees an `int32_t`. */
  function AsUnsigned(x: Int32): (r: UInt32)
    ensures r % 0x1_0000_0000 == x % 0x1_0000_0000
  {
    if x < 0 then x + 0x1_0000_0000 else x
  }

  /** The `(int32_t)` cast of a 32-bit pattern (two's complement). */
  function AsSigned(u: UInt32): (r: Int32)
    ensures r % 0x1_0000_0000 == u % 0x1_0000_0000
  {
    if u < 0x8000_0000 then u else u - 0x1_0000_0000
  }

  lemma SignedRoundTrip(x: Int32)
    ensures AsSigned(AsUnsigned(x)) == x
  {
  }

  lemma UnsignedRoundTrip(u: UInt32)
    ensures AsUnsigned(AsSigned(u)) == u
  {
  }
}
