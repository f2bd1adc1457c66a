/** The 28-byte ACK / NACK and the reason it carries. */
module Acks {
  import opened Bytes
  import opened Layout
  import opened Messages

  const ACK_MESSAGE_ID: u32 := 576879045
  const ACK_SIZE := 28
  const ACK_HEADER_SIZE := 16
  const ACCEPTED: u16 := 1
  const NOT_EXECUTED: u16 := 2

  /** The comparison with eof is not here: it compares codes of different categories and never holds. */
  function MapNackReason(sr: SendResult): u16 {
    if sr.success then 0
    else if sr.error in {InvalidArgument, BadDescriptor} || sr.category == "resolver" || sr.category == "engine" then 2
    else if sr.error in {AlreadyStarted, InProgress, OperationAborted} then 3
    else if sr.error in {TimedOut, TryAgain, WouldBlock, NotConnected} then 4
    else if sr.error in {ConnectionRefused, ConnectionReset, HostUnreachable} then 5
    else if sr.error in {NetworkUnreachable, NetworkDown, BrokenPipe} then 5
    else 0
  }

  function AckBytes(actionId: u32, sourceMessageId: u32, sr: SendResult): (b: seq<byte>)
    ensures |b| == ACK_SIZE
  {
    U32Bytes(ACK_MESSAGE_ID) + U32Bytes(ACK_SIZE - ACK_HEADER_SIZE) + U32Bytes(0) + U32Bytes(0)
    + U32Bytes(actionId) + U32Bytes(sourceMessageId)
    + U16Bytes(if sr.success then ACCEPTED else NOT_EXECUTED) + U16Bytes(MapNackReason(sr))
  }

  /** What a receiver of the ACK reads, field by field. */
  datatype Ack = Ack(messageId: u32, length: u32, actionId: u32, sourceMessageId: u32, ackNack: u16, nackReason: u16)

  function DecodeAck(b: seq<byte>): Ack
    requires |b| == ACK_SIZE
  {
    Ack(U32At(b, 0), U32At(b, 4), U32At(b, 16), U32At(b, 20), U16At(b, 24), U16At(b, 26))
  }

  lemma AckWords(actionId: u32, sourceMessageId: u32, sr: SendResult)
    ensures var b := AckBytes(actionId, sourceMessageId, sr);
            && U32At(b, 0) == 576879045 && U32At(b, 4) == 12 && U32At(b, 8) == U32At(b, 12) == 0
            && U32At(b, 16) == actionId && U32At(b, 20) == sourceMessageId
  {
    hide U32Bytes, U16Bytes, U32Of, MapNackReason;
    var b := AckBytes(actionId, sourceMessageId, sr);
    assert b[0..4] == U32Bytes(ACK_MESSAGE_ID) && b[4..8] == U32Bytes(12);
    assert b[8..12] == U32Bytes(0) && b[12..16] == U32Bytes(0);
    assert b[16..20] == U32Bytes(actionId) && b[20..24] == U32Bytes(sourceMessageId);
    U32RoundTrip(ACK_MESSAGE_ID);
    U32RoundTrip(12);
    U32RoundTrip(0);
    U32RoundTrip(actionId);
    U32RoundTrip(sourceMessageId);
  }

  lemma AckVerdict(actionId: u32, sourceMessageId: u32, sr: SendResult)
    ensures var b := AckBytes(actionId, sourceMessageId, sr);
            U16At(b, 24) == (if sr.success then 1 else 2) && U16At(b, 26) == MapNackReason(sr)
  {
    hide U32Bytes, U16Bytes, U16Of, MapNackReason;
    var b := AckBytes(actionId, sourceMessageId, sr);
    var ackNack: u16 := if sr.success then ACCEPTED else NOT_EXECUTED;
    assert b[24..26] == U16Bytes(ackNack) && b[26..28] == U16Bytes(MapNackReason(sr));
    U16RoundTrip(ackNack);
    U16RoundTrip(MapNackReason(sr));
  }

  /** The ACK decodes to exactly the values it was built from, and its time words are zero. */
  lemma AckRoundTrip(actionId: u32, sourceMessageId: u32, sr: SendResult)
    ensures DecodeAck(AckBytes(actionId, sourceMessageId, sr)) ==
            Ack(576879045, 12, actionId, sourceMessageId, if sr.success then 1 else 2, MapNackReason(sr))
    ensures var b := AckBytes(actionId, sourceMessageId, sr); |b| == 28 && U32At(b, 8) == U32At(b, 12) == 0
  {
    AckWords(actionId, sourceMessageId, sr);
    AckVerdict(actionId, sourceMessageId, sr);
    hide U32At, U16At, AckBytes, MapNackReason;
  }

  /** Writing a run right behind the part already written. */
  method Append(a: array<byte>, offset: nat, bytes: seq<byte>)
    requires offset + |bytes| <= a.Length
    modifies a
    ensures a[..offset + |bytes|] == old(a[..offset]) + bytes
  {
    PackInto(a, offset, bytes);
    assert a[..offset + |bytes|] == a[..][..offset + |bytes|];
  }

  /** memcpy of a host word that htonl made, on a host of either byte order. */
  method AppendU32(host: Endianness, a: array<byte>, offset: nat, v: u32)
    requires offset + 4 <= a.Length
    modifies a
    ensures a[..offset + 4] == old(a[..offset]) + U32Bytes(v)
  {
    NetworkWrite32(host, v);
    Append(a, offset, Store32(host, Ntohl(host, v)));
  }

  method AppendU16(host: Endianness, a: array<byte>, offset: nat, v: u16)
    requires offset + 2 <= a.Length
    modifies a
    ensures a[..offset + 2] == old(a[..offset]) + U16Bytes(v)
  {
    NetworkWrite16(host, v);
    Append(a, offset, Store16(host, Ntohs(host, v)));
  }

  method AppendHeader(host: Endianness, a: array<byte>)
    requires a.Length >= ACK_HEADER_SIZE
    modifies a
    ensures a[..16] == U32Bytes(ACK_MESSAGE_ID) + U32Bytes(ACK_SIZE - ACK_HEADER_SIZE) + U32Bytes(0) + U32Bytes(0)
  {
    AppendU32(host, a, 0, ACK_MESSAGE_ID);
    AppendU32(host, a, 4, ACK_SIZE - ACK_HEADER_SIZE);
    AppendU32(host, a, 8, 0);
    AppendU32(host, a, 12, 0);
  }

  method BuildAckPacket(host: Endianness, actionId: u32, sourceMessageId: u32, sr: SendResult)
    returns (packet: seq<byte>)
    ensures packet == AckBytes(actionId, sourceMessageId, sr)
  {
    var bytes := new byte[ACK_SIZE](_ => 0);
    var ackNack: u16 := if sr.success then ACCEPTED else NOT_EXECUTED;
    var nackReason: u16 := if sr.success then 0 else MapNackReason(sr);
    AppendHeader(host, bytes);
    AppendU32(host, bytes, 16, actionId);
    AppendU32(host, bytes, 20, sourceMessageId);
    AppendU16(host, bytes, 24, ackNack);
    AppendU16(host, bytes, 26, nackReason);
    packet := bytes[..28];
  }
}
