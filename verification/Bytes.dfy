/** Byte buffers, unsigned words, and the path a word takes between a buffer and
    a host integer: memcpy in host order, then ntohl / ntohs (or the way back). */
module Bytes {
  type byte = i: int | 0 <= i < 0x100
  type u16 = i: int | 0 <= i < 0x1_0000
  type u32 = i: int | 0 <= i < 0x1_0000_0000

  /** The value of base-256 digits, most significant first. */
  function Pair(high: int, low: int): int { 0x100 * high + low }

  function Quad(d3: int, d2: int, d1: int, d0: int): int {
    0x100_0000 * d3 + 0x1_0000 * d2 + 0x100 * d1 + d0
  }

  // --- big-endian words: the wire format ---

  function U16Of(b: seq<byte>): u16
    requires |b| == 2
  {
    Pair(b[0], b[1])
  }

  function U32Of(b: seq<byte>): u32
    requires |b| == 4
  {
    Quad(b[0], b[1], b[2], b[3])
  }

  function U16Bytes(v: u16): (b: seq<byte>)
    ensures |b| == 2
  {
    [v / 0x100, v % 0x100]
  }

  function U32Bytes(v: u32): (b: seq<byte>)
    ensures |b| == 4
  {
    [v / 0x100_0000, v / 0x1_0000 % 0x100, v / 0x100 % 0x100, v % 0x100]
  }

  function U16At(data: seq<byte>, offset: nat): u16
    requires offset + 2 <= |data|
  {
    U16Of(data[offset..offset + 2])
  }

  function U32At(data: seq<byte>, offset: nat): u32
    requires offset + 4 <= |data|
  {
    U32Of(data[offset..offset + 4])
  }

  lemma U16RoundTrip(v: u16)
    ensures U16Of(U16Bytes(v)) == v
  {
  }

  lemma U32RoundTrip(v: u32)
    ensures U32Of(U32Bytes(v)) == v
  {
    var h := v / 0x1_0000;
    assert v == 0x1_0000 * h + v % 0x1_0000;
    assert v / 0x100_0000 == h / 0x100 && h == 0x100 * (h / 0x100) + h % 0x100;
    assert v % 0x1_0000 == 0x100 * (v / 0x100 % 0x100) + v % 0x100;
  }

  // --- host integers ---

  datatype Endianness = BigEndian | LittleEndian

  /** memcpy of two buffer bytes into a host uint16_t. */
  function Load16(host: Endianness, b: seq<byte>): u16
    requires |b| == 2
  {
    match host
    case BigEndian => Pair(b[0], b[1])
    case LittleEndian => Pair(b[1], b[0])
  }

  /** memcpy of four buffer bytes into a host uint32_t. */
  function Load32(host: Endianness, b: seq<byte>): u32
    requires |b| == 4
  {
    match host
    case BigEndian => Quad(b[0], b[1], b[2], b[3])
    case LittleEndian => Quad(b[3], b[2], b[1], b[0])
  }

  /** memcpy of a host uint16_t into a buffer. */
  function Store16(host: Endianness, v: u16): (b: seq<byte>)
    ensures |b| == 2
  {
    match host
    case BigEndian => [v / 0x100, v % 0x100]
    case LittleEndian => [v % 0x100, v / 0x100]
  }

  /** memcpy of a host uint32_t into a buffer. */
  function Store32(host: Endianness, v: u32): (b: seq<byte>)
    ensures |b| == 4
  {
    match host
    case BigEndian => [v / 0x100_0000, v / 0x1_0000 % 0x100, v / 0x100 % 0x100, v % 0x100]
    case LittleEndian => [v % 0x100, v / 0x100 % 0x100, v / 0x1_0000 % 0x100, v / 0x100_0000]
  }

  /** ntohs and htons: a byte swap on a little-endian host, nothing on a big-endian one. */
  function Ntohs(host: Endianness, v: u16): u16 {
    match host
    case BigEndian => v
    case LittleEndian => Pair(v % 0x100, v / 0x100)
  }

  /** ntohl and htonl. */
  function Ntohl(host: Endianness, v: u32): u32 {
    match host
    case BigEndian => v
    case LittleEndian => Quad(v % 0x100, v / 0x100 % 0x100, v / 0x1_0000 % 0x100, v / 0x100_0000)
  }

  lemma Digits2(high: byte, low: byte)
    ensures Pair(high, low) / 0x100 == high && Pair(high, low) % 0x100 == low
  {
  }

  /** The base-256 digits of a word are its bytes. */
  lemma Digits(b0: byte, b1: byte, b2: byte, b3: byte)
    ensures var v := Quad(b0, b1, b2, b3);
            && v / 0x100_0000 == b0 && v / 0x1_0000 % 0x100 == b1 && v / 0x100 % 0x100 == b2 && v % 0x100 == b3
  {
    var v := Quad(b0, b1, b2, b3);
    assert v / 0x100 == 0x1_0000 * b0 + 0x100 * b1 + b2;
    assert v / 0x1_0000 == 0x100 * b0 + b1;
  }

  /** Reading a network word gives the big-endian value whatever the host's byte order. */
  lemma NetworkRead32(host: Endianness, b: seq<byte>)
    requires |b| == 4
    ensures Ntohl(host, Load32(host, b)) == U32Of(b)
  {
    Digits(b[3], b[2], b[1], b[0]);
  }

  lemma NetworkRead16(host: Endianness, b: seq<byte>)
    requires |b| == 2
    ensures Ntohs(host, Load16(host, b)) == U16Of(b)
  {
    Digits2(b[1], b[0]);
  }

  /** Writing through htonl and memcpy lays the big-endian bytes down whatever the host's byte order. */
  lemma NetworkWrite32(host: Endianness, v: u32)
    ensures Store32(host, Ntohl(host, v)) == U32Bytes(v)
  {
    Digits(v % 0x100, v / 0x100 % 0x100, v / 0x1_0000 % 0x100, v / 0x100_0000);
  }

  lemma NetworkWrite16(host: Endianness, v: u16)
    ensures Store16(host, Ntohs(host, v)) == U16Bytes(v)
  {
    Digits2(v % 0x100, v / 0x100);
  }

  /** A word sits at the same place in a buffer behind a prefix, shifted by the prefix. */
  lemma ShiftedReads(prefix: seq<byte>, data: seq<byte>, offset: nat)
    ensures offset + 2 <= |data| ==> U16At(prefix + data, |prefix| + offset) == U16At(data, offset)
    ensures offset + 4 <= |data| ==> U32At(prefix + data, |prefix| + offset) == U32At(data, offset)
  {
    if offset + 2 <= |data| {
      assert (prefix + data)[|prefix| + offset..|prefix| + offset + 2] == data[offset..offset + 2];
    }
    if offset + 4 <= |data| {
      assert (prefix + data)[|prefix| + offset..|prefix| + offset + 4] == data[offset..offset + 4];
    }
  }
}
