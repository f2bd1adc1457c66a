/** The encoder side: the packets scripts/send_test_packet.py builds, and the round trips through the
    converter. Packing a value that does not fit its field raises struct.error, which is None here. */
module TestPackets {
  import opened Wrappers
  import opened Bytes
  import opened Layout
  import opened Utf8
  import opened Messages
  import opened SystemStates
  import opened BinaryConverters
  import opened MessageContents

  predicate FitsU16(v: int) { 0 <= v < 0x1_0000 }
  predicate FitsU32(v: int) { 0 <= v < 0x1_0000_0000 }

  /** pack_into(">H", ...) and pack_into(">I", ...) of a masked value. */
  function Field16(offset: nat, v: int): Field { Field(offset, U16Bytes(Low16(v))) }
  function Field32(offset: nat, v: int): Field { Field(offset, U32Bytes(Low32(v))) }

  /** v & 0xFFFF and v & 0xFFFFFFFF, of a Python integer. */
  function Low16(v: int): u16 { v % 0x1_0000 }
  function Low32(v: int): u32 { v % 0x1_0000_0000 }

  lemma LowOfFitting()
    ensures forall v :: Low16(v) == v <==> FitsU16(v)
    ensures forall v :: Low32(v) == v <==> FitsU32(v)
  {
  }

  // --- header ---

  function BuildHeader(messageId: int, payloadLength: nat, sender: int, seconds: u32, micros: u32): Option<seq<byte>> {
    var word := sender * 0x1_0000 + payloadLength % 0x1_0000;
    if FitsU32(messageId) && FitsU32(word) then
      Some(U32Bytes(messageId) + U32Bytes(word) + U32Bytes(seconds) + U32Bytes(micros))
    else None
  }

  lemma HeaderRest(messageId: int, payloadLength: nat, sender: int, seconds: u32, micros: u32)
    requires BuildHeader(messageId, payloadLength, sender, seconds, micros).Some?
    ensures var header := BuildHeader(messageId, payloadLength, sender, seconds, micros).value;
            && |header| == HEADER_SIZE && U16At(header, 4) == sender
            && U32At(header, 8) == seconds && U32At(header, 12) == micros
  {
    hide U32Bytes;
    var header := BuildHeader(messageId, payloadLength, sender, seconds, micros).value;
    var word: u32 := sender * 0x1_0000 + payloadLength % 0x1_0000;
    assert header[4..8] == U32Bytes(word) && header[8..12] == U32Bytes(seconds) && header[12..16] == U32Bytes(micros);
    U32RoundTrip(seconds);
    U32RoundTrip(micros);
    assert header[4..6] == header[4..8][..2];
    HighHalf(sender, payloadLength % 0x1_0000);
  }

  lemma HighHalf(high: int, low: u16)
    requires FitsU32(high * 0x1_0000 + low)
    ensures FitsU16(high) && U16Of(U32Bytes(high * 0x1_0000 + low)[..2]) == high
  {
    var word := high * 0x1_0000 + low;
    assert word / 0x1_0000 == high;
    assert word / 0x100_0000 == high / 0x100 && word / 0x1_0000 % 0x100 == high % 0x100;
  }

  /** A header is built exactly for a 32-bit id and a 16-bit sender, and holds the sender and the time; the proxy then
      parses it back, and finds the payload's true length exactly when that is below 65536. */
  lemma HeaderRoundTrip(messageId: int, payload: seq<byte>, sender: int, seconds: u32, micros: u32)
    ensures BuildHeader(messageId, |payload|, sender, seconds, micros).Some? <==> FitsU32(messageId) && FitsU16(sender)
    ensures var header := BuildHeader(messageId, |payload|, sender, seconds, micros);
            header.Some? ==>
              && |header.value| == HEADER_SIZE && U16At(header.value, 4) == sender
              && U32At(header.value, 8) == seconds && U32At(header.value, 12) == micros
              && ParseHeader(header.value + payload).Some?
              && var parsed := ParseHeader(header.value + payload).value;
                 && parsed.messageId == messageId
                 && (parsed.messageLength == |payload| <==> |payload| < 0x1_0000)
  {
    hide U32Of, U32Bytes;
    var length := |payload| % 0x1_0000;
    var word := sender * 0x1_0000 + length;
    if FitsU32(messageId) && FitsU32(word) {
      var header := BuildHeader(messageId, |payload|, sender, seconds, micros).value;
      var data := header + payload;
      assert data[0..4] == U32Bytes(messageId) && data[4..8] == U32Bytes(word);
      U32RoundTrip(messageId);
      U32RoundTrip(word);
      assert word % 0x1_0000 == length;
      HeaderRest(messageId, |payload|, sender, seconds, micros);
    }
  }

  // --- change configuration ---

  function EncodeBlock(b: ConfigBlock): (bytes: seq<byte>)
    ensures |bytes| == BLOCK_SIZE
  {
    U32Bytes(b.actionId) + U16Bytes(b.lradId) + U16Bytes(b.configuration)
  }

  function EncodeBlocks(blocks: seq<ConfigBlock>): (bytes: seq<byte>)
    ensures |bytes| == BLOCK_SIZE * |blocks|
  {
    if blocks == [] then [] else EncodeBlock(blocks[0]) + EncodeBlocks(blocks[1..])
  }

  lemma {:induction false} BlockInPlace(blocks: seq<ConfigBlock>, i: nat)
    requires i < |blocks|
    ensures EncodeBlocks(blocks)[BLOCK_SIZE * i..BLOCK_SIZE * i + BLOCK_SIZE] == EncodeBlock(blocks[i])
  {
    if i > 0 {
      BlockInPlace(blocks[1..], i - 1);
      var rest := EncodeBlocks(blocks[1..]);
      assert EncodeBlocks(blocks)[BLOCK_SIZE * i..BLOCK_SIZE * i + BLOCK_SIZE] ==
             rest[BLOCK_SIZE * (i - 1)..BLOCK_SIZE * (i - 1) + BLOCK_SIZE];
    }
  }

  lemma BlockDecodes(data: seq<byte>, offset: nat, b: ConfigBlock)
    requires offset + BLOCK_SIZE <= |data| && data[offset..offset + BLOCK_SIZE] == EncodeBlock(b)
    ensures ConfigBlock(U32At(data, offset), U16At(data, offset + 4), U16At(data, offset + 6)) == b
  {
    hide U32Bytes, U16Bytes, U32Of, U16Of;
    var run := EncodeBlock(b);
    assert run[0..4] == U32Bytes(b.actionId);
    assert run[4..6] == U16Bytes(b.lradId);
    assert run[6..8] == U16Bytes(b.configuration);
    assert data[offset..offset + 4] == data[offset..offset + BLOCK_SIZE][0..4];
    assert data[offset + 4..offset + 6] == data[offset..offset + BLOCK_SIZE][4..6];
    assert data[offset + 6..offset + 8] == data[offset..offset + BLOCK_SIZE][6..8];
    U32RoundTrip(b.actionId);
    U16RoundTrip(b.lradId);
    U16RoundTrip(b.configuration);
  }

  lemma BlocksDecode(header: seq<byte>, blocks: seq<ConfigBlock>, stray: seq<byte>)
    requires |header| == HEADER_SIZE && |stray| < BLOCK_SIZE
    ensures Blocks(header + EncodeBlocks(blocks) + stray) == blocks
  {
    hide U32At, U16At, EncodeBlock;
    var data := header + EncodeBlocks(blocks) + stray;
    forall i | 0 <= i < |blocks|
      ensures BlockAt(data, i) == blocks[i]
    {
      var offset := HEADER_SIZE + BLOCK_SIZE * i;
      BlockInPlace(blocks, i);
      assert data[offset..offset + BLOCK_SIZE] == EncodeBlocks(blocks)[BLOCK_SIZE * i..BLOCK_SIZE * i + BLOCK_SIZE];
      BlockDecodes(data, offset, blocks[i]);
    }
  }

  /** Any list of blocks behind a header, with fewer than 8 stray bytes behind it, is decoded to that list: one
      message and one update per block, in order, releasing the LRAD exactly when the configuration is 0. */
  lemma BlockLoopRoundTrip(header: seq<byte>, blocks: seq<ConfigBlock>, stray: seq<byte>)
    requires |header| == HEADER_SIZE && |stray| < BLOCK_SIZE
    ensures var data := header + EncodeBlocks(blocks) + stray;
            Blocks(data) == blocks && |blocks| == (|data| - HEADER_SIZE) / BLOCK_SIZE
    ensures forall i :: 0 <= i < |blocks| ==>
              var packet, update, b := ConfigPackets(blocks)[i], ConfigUpdates(blocks)[i], blocks[i];
              && packet.destinationLradId == b.lradId && update.lradId == Some(b.lradId)
              && packet == ConfigPacket(b) && ConfigurationSays(packet, b.lradId, b.configuration)
              && (b.configuration == 0 <==> update.engaged == Some(false))
  {
    BlocksDecode(header, blocks, stray);
    forall i | 0 <= i < |blocks|
      ensures ConfigurationSays(ConfigPacket(blocks[i]), blocks[i].lradId, blocks[i].configuration)
    {
      ConfigurationRead(blocks[i]);
    }
  }

  /** pack(">IHH", 0, lrad_id, configuration) and pack(">IH", 0, lrad_id). */
  function PackConfiguration(lradId: int, configuration: int): Option<seq<byte>> {
    if FitsU16(lradId) && FitsU16(configuration)
    then Some(U32Bytes(0) + U16Bytes(lradId) + U16Bytes(configuration))
    else None
  }

  function PackCancellation(lradId: int): Option<seq<byte>> {
    if FitsU16(lradId) then Some(U32Bytes(0) + U16Bytes(lradId)) else None
  }

  lemma PackedConfiguration(lradId: u16, configuration: u16)
    ensures var payload := PackConfiguration(lradId, configuration).value;
            |payload| == 8 && U32At(payload, 0) == 0 && payload == EncodeBlocks([ConfigBlock(0, lradId, configuration)])
  {
    assert PackConfiguration(lradId, configuration).value[0..4] == U32Bytes(0);
    assert EncodeBlocks([ConfigBlock(0, lradId, configuration)][1..]) == [];
  }

  lemma OneBlockConverts(trig: Trig, data: seq<byte>, b: ConfigBlock)
    requires IsMessage(data, CHANGE_CONFIGURATION) && Blocks(data) == [b]
    ensures var c := ConvertDatagram(trig, data);
            && c.Converted? && !c.ackOnly && |c.packets| == 1
            && ConfigurationSays(c.packets[0], b.lradId, b.configuration)
            && c.stateUpdates == [EMPTY.(lradId := Some(b.lradId), engaged := Some(b.configuration != 0))]
  {
    ConfigurationRead(b);
    hide ConvertDatagram, Blocks, ConfigPacket, ConfigurationSays, IsMessage;
    ConfigOutcome(trig, data);
    assert ConfigPackets([b]) == [ConfigPacket(b)] && ConfigUpdates([b]) == [ConfigUpdate(b)];
  }

  /** The script's change-configuration packet, from arguments to what the message and the update say. */
  lemma ScriptConfigurationConverts(
    trig: Trig, lradId: u16, configuration: u16, sender: u16, seconds: u32, micros: u32)
    ensures var payload := PackConfiguration(lradId, configuration).value;
            |payload| == 8 && U32At(payload, 0) == 0 &&
            var header := BuildHeader(CHANGE_CONFIGURATION, |payload|, sender, seconds, micros);
            header.Some? &&
            var c := ConvertDatagram(trig, header.value + payload);
            && c.Converted? && !c.ackOnly && |c.packets| == 1
            && ConfigurationSays(c.packets[0], lradId, configuration)
            && c.stateUpdates == [EMPTY.(lradId := Some(lradId), engaged := Some(configuration != 0))]
  {
    hide EncodeBlocks, ConvertDatagram, Blocks, BuildHeader, ConfigurationSays, U32At, U16At, U32Bytes, U16Bytes;
    hide ParseHeader;
    var payload := PackConfiguration(lradId, configuration).value;
    var block := ConfigBlock(0, lradId, configuration);
    PackedConfiguration(lradId, configuration);
    HeaderRoundTrip(CHANGE_CONFIGURATION, payload, sender, seconds, micros);
    var header := BuildHeader(CHANGE_CONFIGURATION, |payload|, sender, seconds, micros).value;
    assert header + EncodeBlocks([block]) + [] == header + payload;
    BlocksDecode(header, [block], []);
    OneBlockConverts(trig, header + payload, block);
  }

  /** The script's cancellation packet, from arguments to the one message that is only ACKed. */
  lemma ScriptCancellationConverts(trig: Trig, lradId: u16, sender: u16, seconds: u32, micros: u32)
    ensures var payload := PackCancellation(lradId).value;
            |payload| == 6 && U32At(payload, 0) == 0 &&
            var header := BuildHeader(CUEING_CANCELLATION, |payload|, sender, seconds, micros);
            header.Some? &&
            var c := ConvertDatagram(trig, header.value + payload);
            c.Converted? && c.ackOnly && |c.packets| == 1 && CancellationSays(c.packets[0], lradId)
  {
    var payload := PackCancellation(lradId).value;
    assert payload[0..4] == U32Bytes(0);
    HeaderRoundTrip(CUEING_CANCELLATION, payload, sender, seconds, micros);
    var data := BuildHeader(CUEING_CANCELLATION, |payload|, sender, seconds, micros).value + payload;
    assert data[20..22] == U16Bytes(lradId);
    U16RoundTrip(lradId);
    HeaderOnTheWire(data);
    hide ConvertDatagram, BuildHeader, CancellationSays;
    CancellationOnTheWire(trig, data);
  }

  // --- packing in place ---

  /** One pack_into, as write i of a layout. */
  method PackField(a: array<byte>, f: Field, ghost base: seq<byte>, ghost fields: seq<Field>, ghost i: nat)
    requires AllFit(fields, |base|) && i < |fields| && f == fields[i] && a.Length == |base|
    requires a[..] == WriteAll(base, fields[..i])
    modifies a
    ensures a[..] == WriteAll(base, fields[..i + 1])
  {
    WriteAllSnoc(base, fields[..i], f);
    assert fields[..i + 1] == fields[..i] + [f];
    PackInto(a, f.offset, f.bytes);
  }

  /** A word of a laid-out payload, read at its place behind a prefix. */
  lemma Word16(prefix: seq<byte>, base: seq<byte>, fields: seq<Field>, i: nat, offset: nat, v: int)
    requires AllFit(fields, |base|) && Ascending(fields) && i < |fields| && fields[i] == Field16(offset, v)
    ensures |prefix| + offset + 2 <= |prefix + WriteAll(base, fields)|
    ensures U16At(prefix + WriteAll(base, fields), |prefix| + offset) == Low16(v)
  {
    AscendingIsDisjoint(fields);
    ReadBack(base, fields, i);
    ShiftedReads(prefix, WriteAll(base, fields), offset);
    U16RoundTrip(Low16(v));
  }

  lemma Word32(prefix: seq<byte>, base: seq<byte>, fields: seq<Field>, i: nat, offset: nat, v: int)
    requires AllFit(fields, |base|) && Ascending(fields) && i < |fields| && fields[i] == Field32(offset, v)
    ensures |prefix| + offset + 4 <= |prefix + WriteAll(base, fields)|
    ensures U32At(prefix + WriteAll(base, fields), |prefix| + offset) == Low32(v)
  {
    AscendingIsDisjoint(fields);
    ReadBack(base, fields, i);
    ShiftedReads(prefix, WriteAll(base, fields), offset);
    U32RoundTrip(Low32(v));
  }

  // --- cueing order ---

  /** The script's arguments; coordinates and velocities as the raw words of their floats. */
  datatype CueingArgs = CueingArgs(
    lradId: int, cueingType: int, cstn: int, kinematicsType: int, x: u32, y: u32, z: u32, vx: u32, vy: u32, vz: u32)

  predicate Packable(a: CueingArgs) {
    FitsU16(a.lradId) && FitsU16(a.cueingType) && FitsU32(a.cstn) && FitsU16(a.kinematicsType)
  }

  const CUEING_PAYLOAD_SIZE := 48

  function CueingBase(a: CueingArgs, seconds: u32, micros: u32): seq<Field> {
    [Field32(0, 0), Field16(4, a.lradId), Field16(6, a.cueingType), Field32(8, a.cstn),
     Field32(12, seconds), Field32(16, micros), Field16(20, a.kinematicsType), Field32(24, a.x), Field32(28, a.y)]
  }

  function CueingKinematics(a: CueingArgs): seq<Field> {
    if a.kinematicsType == 1 then [Field32(32, a.z), Field32(36, a.vx), Field32(40, a.vy), Field32(44, a.vz)]
    else if a.kinematicsType == 2 then [Field32(32, a.z)]
    else if a.kinematicsType == 3 then [Field32(32, a.vx), Field32(36, a.vy)]
    else []
  }

  function CueingFields(a: CueingArgs, seconds: u32, micros: u32): (fields: seq<Field>)
    ensures AllFit(fields, CUEING_PAYLOAD_SIZE) && Ascending(fields)
  {
    CueingFieldsFit(a, seconds, micros);
    CueingBase(a, seconds, micros) + CueingKinematics(a)
  }

  lemma CueingFieldsFit(a: CueingArgs, seconds: u32, micros: u32)
    ensures var fields := CueingBase(a, seconds, micros) + CueingKinematics(a);
            AllFit(fields, CUEING_PAYLOAD_SIZE) && Ascending(fields)
  {
    hide U16Bytes, U32Bytes, Low16, Low32;
  }

  function CueingPayload(a: CueingArgs, seconds: u32, micros: u32): seq<byte> {
    WriteAll(Zeros(CUEING_PAYLOAD_SIZE), CueingFields(a, seconds, micros))
  }

  method PackCueingBase(payload: array<byte>, a: CueingArgs, seconds: u32, micros: u32, ghost z: seq<byte>)
    requires payload.Length == |z| == CUEING_PAYLOAD_SIZE
    requires payload[..] == WriteAll(z, CueingFields(a, seconds, micros)[..0])
    modifies payload
    ensures payload[..] == WriteAll(z, CueingFields(a, seconds, micros)[..9])
  {
    hide WriteAll, Field16, Field32, AllFit, Ascending;
    ghost var f := CueingFields(a, seconds, micros);
    PackField(payload, Field32(0, 0), z, f, 0);
    PackField(payload, Field16(4, a.lradId), z, f, 1);
    PackField(payload, Field16(6, a.cueingType), z, f, 2);
    PackField(payload, Field32(8, a.cstn), z, f, 3);
    PackField(payload, Field32(12, seconds), z, f, 4);
    PackField(payload, Field32(16, micros), z, f, 5);
    PackField(payload, Field16(20, a.kinematicsType), z, f, 6);
    PackField(payload, Field32(24, a.x), z, f, 7);
    PackField(payload, Field32(28, a.y), z, f, 8);
  }

  /** build_cueing_order_payload: 48 bytes packed in place, or struct.error. */
  method BuildCueingOrderPayload(a: CueingArgs, seconds: u32, micros: u32) returns (result: Option<seq<byte>>)
    ensures result == if Packable(a) then Some(CueingPayload(a, seconds, micros)) else None
  {
    if !Packable(a) {
      return None;
    }
    hide WriteAll, Field16, Field32, Zeros, AllFit, Ascending;
    var payload := new byte[CUEING_PAYLOAD_SIZE](_ => 0);
    ghost var z, f := Zeros(CUEING_PAYLOAD_SIZE), CueingFields(a, seconds, micros);
    NothingPacked(payload[..], f);
    PackCueingBase(payload, a, seconds, micros, z);
    if a.kinematicsType == 1 || a.kinematicsType == 2 {
      PackField(payload, Field32(32, a.z), z, f, 9);
    }
    if a.kinematicsType == 1 {
      PackField(payload, Field32(36, a.vx), z, f, 10);
      PackField(payload, Field32(40, a.vy), z, f, 11);
      PackField(payload, Field32(44, a.vz), z, f, 12);
    } else if a.kinematicsType == 3 {
      PackField(payload, Field32(32, a.vx), z, f, 9);
      PackField(payload, Field32(36, a.vy), z, f, 10);
    }
    assert f[..|f|] == f;
    return Some(payload[..]);
  }

  lemma NothingPacked(a: seq<byte>, fields: seq<Field>)
    requires AllFit(fields, |a|) && forall i :: 0 <= i < |a| ==> a[i] == 0
    ensures a == WriteAll(Zeros(|a|), fields[..0])
  {
  }

  /** What the proxy should read back: never a velocity as a coordinate. */
  function ExpectedOrder(a: CueingArgs): CueingOrder
    requires Packable(a)
  {
    CueingOrder(0, a.lradId, a.cueingType, a.cstn, a.kinematicsType,
                if a.kinematicsType in {1, 2} then Some(Coordinates(a.x, a.y, a.z))
                else if a.kinematicsType in {3, 4} then Some(Coordinates(a.x, a.y, 0))
                else None)
  }

  lemma CueingWords(header: seq<byte>, a: CueingArgs, seconds: u32, micros: u32)
    requires |header| == HEADER_SIZE && Packable(a)
    ensures var data := header + CueingPayload(a, seconds, micros);
            && U32At(data, 16) == 0 && U16At(data, 20) == a.lradId && U16At(data, 22) == a.cueingType
            && U32At(data, 24) == a.cstn && U16At(data, 36) == a.kinematicsType
            && U32At(data, 40) == a.x && U32At(data, 44) == a.y
            && (a.kinematicsType in {1, 2} ==> U32At(data, 48) == a.z)
  {
    hide WriteAll, U16At, U32At, Field16, Field32, AllFit, Ascending;
    var z, f := Zeros(CUEING_PAYLOAD_SIZE), CueingFields(a, seconds, micros);
    Word32(header, z, f, 0, 0, 0);
    Word16(header, z, f, 1, 4, a.lradId);
    Word16(header, z, f, 2, 6, a.cueingType);
    Word32(header, z, f, 3, 8, a.cstn);
    Word16(header, z, f, 6, 20, a.kinematicsType);
    Word32(header, z, f, 7, 24, a.x);
    Word32(header, z, f, 8, 28, a.y);
    if a.kinematicsType in {1, 2} {
      Word32(header, z, f, 9, 32, a.z);
    }
  }

  /** The words no handler reads: the time of validity, and the velocities that the kinematics have. */
  lemma UnreadCueingWords(header: seq<byte>, a: CueingArgs, seconds: u32, micros: u32)
    requires |header| == HEADER_SIZE && Packable(a)
    ensures var data := header + CueingPayload(a, seconds, micros);
            && |data| == 64 && U32At(data, 28) == seconds && U32At(data, 32) == micros
            && (a.kinematicsType == 1 ==>
                  U32At(data, 52) == a.vx && U32At(data, 56) == a.vy && U32At(data, 60) == a.vz)
            && (a.kinematicsType == 3 ==> U32At(data, 48) == a.vx && U32At(data, 52) == a.vy)
  {
    hide WriteAll, U16At, U32At, Field16, Field32, AllFit, Ascending;
    var z, f := Zeros(CUEING_PAYLOAD_SIZE), CueingFields(a, seconds, micros);
    Word32(header, z, f, 4, 12, seconds);
    Word32(header, z, f, 5, 16, micros);
    LowOfFitting();
    if a.kinematicsType == 1 {
      Word32(header, z, f, 10, 36, a.vx);
      Word32(header, z, f, 11, 40, a.vy);
      Word32(header, z, f, 12, 44, a.vz);
    } else if a.kinematicsType == 3 {
      Word32(header, z, f, 9, 32, a.vx);
      Word32(header, z, f, 10, 36, a.vy);
    }
  }

  /** Where the kinematics end; the rest of the payload, and the two bytes behind the kinematics type, are zero. */
  function KinematicsEnd(a: CueingArgs): nat {
    match a.kinematicsType
    case 1 => 48
    case 2 => 36
    case 3 => 40
    case _ => 32
  }

  lemma UnusedCueingBytes(a: CueingArgs, seconds: u32, micros: u32, k: nat)
    requires Packable(a) && (k == 22 || k == 23 || KinematicsEnd(a) <= k < 48)
    ensures CueingPayload(a, seconds, micros)[k] == 0
  {
    hide U16Bytes, U32Bytes, Low16, Low32, WriteAll;
    Untouched(Zeros(CUEING_PAYLOAD_SIZE), CueingFields(a, seconds, micros), k);
  }

  /** The handler recovers the whole order from the script's packet, behind any header. */
  lemma CueingRoundTrip(header: seq<byte>, a: CueingArgs, seconds: u32, micros: u32)
    requires |header| == HEADER_SIZE && Packable(a)
    ensures DecodeCueing(header + CueingPayload(a, seconds, micros)) == ExpectedOrder(a)
  {
    CueingWords(header, a, seconds, micros);
  }

  /** From arguments to message: the script's cueing order becomes one message that says what it asked for. */
  lemma CueingConverts(trig: Trig, a: CueingArgs, sender: int, seconds: u32, micros: u32)
    requires Packable(a) && FitsU16(sender)
    ensures var header := BuildHeader(CUEING_ORDER, CUEING_PAYLOAD_SIZE, sender, seconds, micros);
            header.Some? &&
            var c := ConvertDatagram(trig, header.value + CueingPayload(a, seconds, micros));
            && c.Converted? && !c.ackOnly && c.stateUpdates == [] && |c.packets| == 1
            && CueingSays(trig, c.packets[0], ExpectedOrder(a))
  {
    hide WriteAll, DecodeCueing, CueingPacket, ConvertDatagram, CueingSays;
    HeaderRoundTrip(CUEING_ORDER, CueingPayload(a, seconds, micros), sender, seconds, micros);
    var header := BuildHeader(CUEING_ORDER, CUEING_PAYLOAD_SIZE, sender, seconds, micros).value;
    CueingRoundTrip(header, a, seconds, micros);
    CueingOutcome(trig, header + CueingPayload(a, seconds, micros));
    CueingRead(trig, ExpectedOrder(a));
  }

  // --- emission control ---

  const EMISSION_PAYLOAD_SIZE := 822

  function CutText(text: seq<byte>): seq<byte> {
    if |text| > TEXT_SIZE then text[..TEXT_SIZE] else text
  }

  function EmissionHead(e: Emission): seq<Field> {
    [Field32(0, e.actionId), Field16(4, e.lradId), Field16(6, e.audioModeValidity),
     Field16(8, e.volumeLevel), Field32(10, e.audioVolume), Field16(14, e.mute), Field16(16, e.audioMode),
     Field32(18, e.recordedMessageId), Field16(22, e.recordedLanguage), Field16(24, e.recordedLoop),
     Field16(26, e.languageIn), Field16(28, e.languageOut), Field(30, CutText(e.text))]
  }

  function EmissionTail(e: Emission): seq<Field> {
    [Field16(798, e.freeTextLoop), Field16(800, e.laserModeValidity), Field16(802, e.laserMode),
     Field16(804, e.lightModeValidity), Field16(806, e.lightPower), Field16(808, e.lightZoom),
     Field16(810, e.lrfModeValidity), Field16(812, e.lrfOnOff),
     Field16(814, e.cameraZoomValidity), Field16(816, e.cameraZoom),
     Field16(818, e.horizontalReferenceValidity), Field16(820, e.horizontalReference)]
  }

  function EmissionFields(e: Emission): (fields: seq<Field>)
    ensures AllFit(fields, EMISSION_PAYLOAD_SIZE) && Ascending(fields)
  {
    EmissionHeadFits(e);
    EmissionTailFits(e);
    EmissionHead(e) + EmissionTail(e)
  }

  lemma EmissionHeadFits(e: Emission)
    ensures Ascending(EmissionHead(e)) && AllFit(EmissionHead(e), 798)
  {
    hide U16Bytes, U32Bytes, Low16, Low32;
  }

  lemma EmissionTailFits(e: Emission)
    ensures Ascending(EmissionTail(e)) && AllFit(EmissionTail(e), EMISSION_PAYLOAD_SIZE)
  {
    hide U16Bytes, U32Bytes, Low16, Low32;
  }

  lemma LaserAndLightFields(e: Emission)
    ensures var f := EmissionFields(e);
            && |f| == 25 && f[13] == Field16(798, e.freeTextLoop) && f[14] == Field16(800, e.laserModeValidity)
            && f[15] == Field16(802, e.laserMode) && f[16] == Field16(804, e.lightModeValidity)
            && f[17] == Field16(806, e.lightPower) && f[18] == Field16(808, e.lightZoom)
  {
    hide Field16, Field32;
  }

  lemma VolumeFields(e: Emission)
    ensures var f := EmissionFields(e);
            && |f| == 25 && f[0] == Field32(0, e.actionId) && f[1] == Field16(4, e.lradId)
            && f[2] == Field16(6, e.audioModeValidity) && f[3] == Field16(8, e.volumeLevel)
            && f[4] == Field32(10, e.audioVolume) && f[5] == Field16(14, e.mute) && f[6] == Field16(16, e.audioMode)
  {
    hide Field16, Field32;
  }

  function EmissionPayload(e: Emission): seq<byte> {
    WriteAll(Zeros(EMISSION_PAYLOAD_SIZE), EmissionFields(e))
  }

  method PackVolume(payload: array<byte>, e: Emission, ghost z: seq<byte>)
    requires payload.Length == |z| == EMISSION_PAYLOAD_SIZE
    requires payload[..] == WriteAll(z, EmissionFields(e)[..0])
    modifies payload
    ensures payload[..] == WriteAll(z, EmissionFields(e)[..7])
  {
    hide WriteAll, Field16, Field32, AllFit, Ascending, EmissionFields;
    ghost var f := EmissionFields(e);
    VolumeFields(e);
    PackField(payload, Field32(0, e.actionId), z, f, 0);
    PackField(payload, Field16(4, e.lradId), z, f, 1);
    PackField(payload, Field16(6, e.audioModeValidity), z, f, 2);
    PackField(payload, Field16(8, e.volumeLevel), z, f, 3);
    PackField(payload, Field32(10, e.audioVolume), z, f, 4);
    PackField(payload, Field16(14, e.mute), z, f, 5);
    PackField(payload, Field16(16, e.audioMode), z, f, 6);
  }

  method PackRecordedAndText(payload: array<byte>, e: Emission, ghost z: seq<byte>)
    requires payload.Length == |z| == EMISSION_PAYLOAD_SIZE
    requires payload[..] == WriteAll(z, EmissionFields(e)[..7])
    modifies payload
    ensures payload[..] == WriteAll(z, EmissionFields(e)[..13])
  {
    hide WriteAll, Field16, Field32, AllFit, Ascending;
    ghost var f := EmissionFields(e);
    PackField(payload, Field32(18, e.recordedMessageId), z, f, 7);
    PackField(payload, Field16(22, e.recordedLanguage), z, f, 8);
    PackField(payload, Field16(24, e.recordedLoop), z, f, 9);
    PackField(payload, Field16(26, e.languageIn), z, f, 10);
    PackField(payload, Field16(28, e.languageOut), z, f, 11);
    PackField(payload, Field(30, CutText(e.text)), z, f, 12);
  }

  method PackLaserAndLight(payload: array<byte>, e: Emission, ghost z: seq<byte>)
    requires payload.Length == |z| == EMISSION_PAYLOAD_SIZE
    requires payload[..] == WriteAll(z, EmissionFields(e)[..13])
    modifies payload
    ensures payload[..] == WriteAll(z, EmissionFields(e)[..19])
  {
    hide WriteAll, Field16, Field32, AllFit, Ascending, EmissionFields;
    ghost var f := EmissionFields(e);
    LaserAndLightFields(e);
    PackField(payload, Field16(798, e.freeTextLoop), z, f, 13);
    PackField(payload, Field16(800, e.laserModeValidity), z, f, 14);
    PackField(payload, Field16(802, e.laserMode), z, f, 15);
    PackField(payload, Field16(804, e.lightModeValidity), z, f, 16);
    PackField(payload, Field16(806, e.lightPower), z, f, 17);
    PackField(payload, Field16(808, e.lightZoom), z, f, 18);
  }

  method PackLrfAndCamera(payload: array<byte>, e: Emission, ghost z: seq<byte>)
    requires payload.Length == |z| == EMISSION_PAYLOAD_SIZE
    requires payload[..] == WriteAll(z, EmissionFields(e)[..19])
    modifies payload
    ensures payload[..] == WriteAll(z, EmissionFields(e)[..25])
  {
    hide WriteAll, Field16, Field32, AllFit, Ascending;
    ghost var f := EmissionFields(e);
    PackField(payload, Field16(810, e.lrfModeValidity), z, f, 19);
    PackField(payload, Field16(812, e.lrfOnOff), z, f, 20);
    PackField(payload, Field16(814, e.cameraZoomValidity), z, f, 21);
    PackField(payload, Field16(816, e.cameraZoom), z, f, 22);
    PackField(payload, Field16(818, e.horizontalReferenceValidity), z, f, 23);
    PackField(payload, Field16(820, e.horizontalReference), z, f, 24);
  }

  /** build_emission_control_payload: 822 bytes packed in place; every integer is masked to its field. */
  method BuildEmissionControlPayload(e: Emission) returns (result: seq<byte>)
    ensures result == EmissionPayload(e)
  {
    hide WriteAll, Zeros, AllFit, Ascending;
    var payload := new byte[EMISSION_PAYLOAD_SIZE](_ => 0);
    ghost var z, f := Zeros(EMISSION_PAYLOAD_SIZE), EmissionFields(e);
    NothingPacked(payload[..], f);
    PackVolume(payload, e, z);
    PackRecordedAndText(payload, e, z);
    PackLaserAndLight(payload, e, z);
    PackLrfAndCamera(payload, e, z);
    assert f[..25] == f;
    return payload[..];
  }

  /** What the proxy should read back: each integer modulo its field, the text cut to its area and at a NUL. */
  function Masked(e: Emission): Emission {
    Emission(
      Low32(e.actionId), Low16(e.lradId), Low16(e.audioModeValidity),
      Low16(e.volumeLevel), e.audioVolume, Low16(e.mute), Low16(e.audioMode),
      Low32(e.recordedMessageId), Low16(e.recordedLanguage), Low16(e.recordedLoop),
      Low16(e.languageIn), Low16(e.languageOut), BeforeNul(CutText(e.text)), Low16(e.freeTextLoop),
      Low16(e.laserModeValidity), Low16(e.laserMode),
      Low16(e.lightModeValidity), Low16(e.lightPower), Low16(e.lightZoom),
      Low16(e.lrfModeValidity), Low16(e.lrfOnOff),
      Low16(e.cameraZoomValidity), Low16(e.cameraZoom),
      Low16(e.horizontalReferenceValidity), Low16(e.horizontalReference))
  }

  /** The text area after the packing: the cut text, then zeros up to its end. */
  lemma TextArea(header: seq<byte>, e: Emission)
    requires |header| == HEADER_SIZE
    ensures (header + EmissionPayload(e))[46..814] == CutText(e.text) + Zeros(TEXT_SIZE - |CutText(e.text)|)
  {
    hide Field16, Field32;
    var z, f, text := Zeros(EMISSION_PAYLOAD_SIZE), EmissionFields(e), CutText(e.text);
    assert f[12] == Field(30, text);
    AscendingIsDisjoint(f);
    ReadBack(z, f, 12);
    var payload := EmissionPayload(e);
    assert payload[30..30 + |text|] == text;
    forall k | 30 + |text| <= k < 798
      ensures payload[k] == 0
    {
      AscendingIsOrdered(f, 12, 13);
      forall i | 0 <= i < |f| ensures k < f[i].offset || f[i].End() <= k {
        if i < 12 { AscendingIsOrdered(f, i, 12); }
        if i > 13 { AscendingIsOrdered(f, 13, i); }
        assert f[13].offset == 798 by { FieldOffset(798, e.freeTextLoop); }
      }
      Untouched(z, f, k);
    }
    assert (header + payload)[46..814] == payload[30..798];
  }

  lemma FieldOffset(offset: nat, v: int)
    ensures Field16(offset, v).offset == offset
  {
  }

  lemma {:induction false} BeforeNulPadded(text: seq<byte>, n: nat)
    ensures BeforeNul(text + Zeros(n)) == BeforeNul(text)
  {
    if text == [] {
      assert text + Zeros(n) == Zeros(n);
    } else {
      BeforeNulPadded(text[1..], n);
      assert (text + Zeros(n))[1..] == text[1..] + Zeros(n);
    }
  }

  lemma VolumeWords(header: seq<byte>, e: Emission)
    requires |header| == HEADER_SIZE
    ensures var d := header + EmissionPayload(e);
            && U32At(d, 16) == Low32(e.actionId)
            && U16At(d, 20) == Low16(e.lradId)
            && U16At(d, 22) == Low16(e.audioModeValidity)
            && U16At(d, 24) == Low16(e.volumeLevel)
            && U32At(d, 26) == e.audioVolume
            && U16At(d, 30) == Low16(e.mute)
            && U16At(d, 32) == Low16(e.audioMode)
  {
    hide WriteAll, U16At, U32At, Field16, Field32, AllFit, Ascending, EmissionFields;
    var z, f := Zeros(EMISSION_PAYLOAD_SIZE), EmissionFields(e);
    VolumeFields(e);
    Word32(header, z, f, 0, 0, e.actionId);
    Word16(header, z, f, 1, 4, e.lradId);
    Word16(header, z, f, 2, 6, e.audioModeValidity);
    Word16(header, z, f, 3, 8, e.volumeLevel);
    Word32(header, z, f, 4, 10, e.audioVolume);
    Word16(header, z, f, 5, 14, e.mute);
    Word16(header, z, f, 6, 16, e.audioMode);
  }

  lemma RecordedAndTextWords(header: seq<byte>, e: Emission)
    requires |header| == HEADER_SIZE
    ensures var d := header + EmissionPayload(e);
            && U32At(d, 34) == Low32(e.recordedMessageId)
            && U16At(d, 38) == Low16(e.recordedLanguage)
            && U16At(d, 40) == Low16(e.recordedLoop)
            && U16At(d, 42) == Low16(e.languageIn)
            && U16At(d, 44) == Low16(e.languageOut)
  {
    hide WriteAll, U16At, U32At, Field16, Field32, AllFit, Ascending;
    var z, f := Zeros(EMISSION_PAYLOAD_SIZE), EmissionFields(e);
    Word32(header, z, f, 7, 18, e.recordedMessageId);
    Word16(header, z, f, 8, 22, e.recordedLanguage);
    Word16(header, z, f, 9, 24, e.recordedLoop);
    Word16(header, z, f, 10, 26, e.languageIn);
    Word16(header, z, f, 11, 28, e.languageOut);
  }

  lemma LaserAndLightWords(header: seq<byte>, e: Emission)
    requires |header| == HEADER_SIZE
    ensures var d := header + EmissionPayload(e);
            && U16At(d, 814) == Low16(e.freeTextLoop)
            && U16At(d, 816) == Low16(e.laserModeValidity)
            && U16At(d, 818) == Low16(e.laserMode)
            && U16At(d, 820) == Low16(e.lightModeValidity)
            && U16At(d, 822) == Low16(e.lightPower)
            && U16At(d, 824) == Low16(e.lightZoom)
  {
    hide WriteAll, U16At, U32At, Field16, Field32, AllFit, Ascending, EmissionFields;
    var z, f := Zeros(EMISSION_PAYLOAD_SIZE), EmissionFields(e);
    LaserAndLightFields(e);
    Word16(header, z, f, 13, 798, e.freeTextLoop);
    Word16(header, z, f, 14, 800, e.laserModeValidity);
    Word16(header, z, f, 15, 802, e.laserMode);
    Word16(header, z, f, 16, 804, e.lightModeValidity);
    Word16(header, z, f, 17, 806, e.lightPower);
    Word16(header, z, f, 18, 808, e.lightZoom);
  }

  lemma LrfAndCameraWords(header: seq<byte>, e: Emission)
    requires |header| == HEADER_SIZE
    ensures var d := header + EmissionPayload(e);
            && U16At(d, 826) == Low16(e.lrfModeValidity)
            && U16At(d, 828) == Low16(e.lrfOnOff)
            && U16At(d, 830) == Low16(e.cameraZoomValidity)
            && U16At(d, 832) == Low16(e.cameraZoom)
            && U16At(d, 834) == Low16(e.horizontalReferenceValidity)
            && U16At(d, 836) == Low16(e.horizontalReference)
  {
    hide WriteAll, U16At, U32At, Field16, Field32, AllFit, Ascending;
    var z, f := Zeros(EMISSION_PAYLOAD_SIZE), EmissionFields(e);
    Word16(header, z, f, 19, 810, e.lrfModeValidity);
    Word16(header, z, f, 20, 812, e.lrfOnOff);
    Word16(header, z, f, 21, 814, e.cameraZoomValidity);
    Word16(header, z, f, 22, 816, e.cameraZoom);
    Word16(header, z, f, 23, 818, e.horizontalReferenceValidity);
    Word16(header, z, f, 24, 820, e.horizontalReference);
  }

  /** The handler reads back every field of the script's packet, for every argument, behind any header. */
  lemma EmissionRoundTrip(header: seq<byte>, e: Emission)
    requires |header| == HEADER_SIZE
    ensures DecodeEmission(header + EmissionPayload(e)) == Masked(e)
  {
    hide EmissionPayload, U16At, U32At;
    VolumeWords(header, e);
    RecordedAndTextWords(header, e);
    LaserAndLightWords(header, e);
    LrfAndCameraWords(header, e);
    TextArea(header, e);
    BeforeNulPadded(CutText(e.text), TEXT_SIZE - |CutText(e.text)|);
  }

  predicate InRange(e: Emission) {
    && FitsU32(e.actionId) && FitsU16(e.lradId) && FitsU16(e.audioModeValidity) && FitsU16(e.volumeLevel)
    && FitsU16(e.mute) && FitsU16(e.audioMode) && FitsU32(e.recordedMessageId) && FitsU16(e.recordedLanguage)
    && FitsU16(e.recordedLoop) && FitsU16(e.languageIn) && FitsU16(e.languageOut) && FitsU16(e.freeTextLoop)
    && FitsU16(e.laserModeValidity) && FitsU16(e.laserMode) && FitsU16(e.lightModeValidity) && FitsU16(e.lightPower)
    && FitsU16(e.lightZoom) && FitsU16(e.lrfModeValidity) && FitsU16(e.lrfOnOff) && FitsU16(e.cameraZoomValidity)
    && FitsU16(e.cameraZoom) && FitsU16(e.horizontalReferenceValidity) && FitsU16(e.horizontalReference)
  }

  /** So the arguments themselves come back exactly when the integers fit their fields and the text is free of
      NULs and at most 768 bytes long. */
  lemma EmissionExactWhen(header: seq<byte>, e: Emission)
    requires |header| == HEADER_SIZE
    ensures DecodeEmission(header + EmissionPayload(e)) == e <==>
            InRange(e) && 0 !in e.text && |e.text| <= TEXT_SIZE
  {
    EmissionRoundTrip(header, e);
    LowOfFitting();
    hide EmissionPayload, DecodeEmission, Low16, Low32, FitsU16, FitsU32;
    var cut := CutText(e.text);
    if 0 !in e.text && |e.text| <= TEXT_SIZE {
      assert BeforeNul(cut) == cut;
    }
  }

  /** encode("utf-8", errors="ignore"): surrogates are dropped, the rest is encoded. */
  function EncodeText(text: seq<CodePoint>): seq<byte> {
    EncodeAll(Scalars(text))
  }

  function Scalars(text: seq<CodePoint>): seq<Scalar> {
    if text == [] then []
    else if IsSurrogate(text[0]) then Scalars(text[1..])
    else [text[0]] + Scalars(text[1..])
  }

  lemma {:induction false} ScalarsConcat(a: seq<CodePoint>, b: seq<CodePoint>)
    ensures Scalars(a + b) == Scalars(a) + Scalars(b)
  {
    if a == [] {
      assert a + b == b;
    } else {
      assert (a + b)[1..] == a[1..] + b;
      ScalarsConcat(a[1..], b);
    }
  }

  /** Wherever a code point stands it adds its own encoding, a surrogate nothing. */
  lemma TextCodePointwise(a: seq<CodePoint>, c: CodePoint, b: seq<CodePoint>)
    ensures EncodeText(a + [c] + b) == EncodeText(a) + (if IsSurrogate(c) then [] else Encode(c)) + EncodeText(b)
    ensures EncodeText([]) == []
  {
    hide Encode;
    assert [c][1..] == [] && (if IsSurrogate(c) then [] else [c as Scalar])[..] == Scalars([c]);
    ScalarsConcat(a + [c], b);
    ScalarsConcat(a, [c]);
    EncodeAllConcat(Scalars(a) + Scalars([c]), Scalars(b));
    EncodeAllConcat(Scalars(a), Scalars([c]));
  }

  /** From arguments to message: the script's emission order is converted to one message that says each argument,
      modulo its field, unless the cut at 768 bytes falls inside a character; then the conversion throws. */
  lemma EmissionConverts(
    trig: Trig, e: Emission, freeText: seq<CodePoint>, sender: int, seconds: u32, micros: u32)
    requires FitsU16(sender) && e.text == EncodeText(freeText)
    ensures var header := BuildHeader(EMISSION_CONTROL, EMISSION_PAYLOAD_SIZE, sender, seconds, micros);
            header.Some? &&
            var c := ConvertDatagram(trig, header.value + EmissionPayload(e));
            if |e.text| > TEXT_SIZE && 0 !in e.text[..TEXT_SIZE] && !IsBoundary(Scalars(freeText), TEXT_SIZE)
            then c == DumpThrows
            else
              && c.Converted? && !c.ackOnly && c.stateUpdates == [] && |c.packets| == 1
              && EmissionSays(c.packets[0], Masked(e))
  {
    hide WriteAll, DecodeEmission, EmissionPacket, ConvertDatagram, Masked, CutText, EmissionSays, ValidUtf8;
    HeaderRoundTrip(EMISSION_CONTROL, EmissionPayload(e), sender, seconds, micros);
    var header := BuildHeader(EMISSION_CONTROL, EMISSION_PAYLOAD_SIZE, sender, seconds, micros).value;
    EmissionRoundTrip(header, e);
    EmissionOutcome(trig, header + EmissionPayload(e));
    CutTextValid(Scalars(freeText));
    MaskedText(e);
    EmissionRead(Masked(e));
  }

  /** And so it says the arguments themselves exactly when the integers fit their fields and the text is free of NULs
      and at most 768 bytes long; in that case it is always sent. */
  lemma EmissionArrives(
    trig: Trig, e: Emission, freeText: seq<CodePoint>, sender: int, seconds: u32, micros: u32)
    requires FitsU16(sender) && e.text == EncodeText(freeText)
    ensures var header := BuildHeader(EMISSION_CONTROL, EMISSION_PAYLOAD_SIZE, sender, seconds, micros);
            header.Some? &&
            var c := ConvertDatagram(trig, header.value + EmissionPayload(e));
            c.Converted? && c.packets != [] && EmissionSays(c.packets[0], e) <==>
            InRange(e) && 0 !in e.text && |e.text| <= TEXT_SIZE
  {
    hide EmissionPayload, DecodeEmission, ConvertDatagram, Masked, EmissionSays, BuildHeader, InRange;
    EmissionConverts(trig, e, freeText, sender, seconds, micros);
    var c := ConvertDatagram(
      trig, BuildHeader(EMISSION_CONTROL, EMISSION_PAYLOAD_SIZE, sender, seconds, micros).value + EmissionPayload(e));
    EmissionRoundTrip(Zeros(HEADER_SIZE), e);
    EmissionExactWhen(Zeros(HEADER_SIZE), e);
    if c.Converted? && c.packets != [] && EmissionSays(c.packets[0], e) {
      EmissionSaysOne(c.packets[0], e, Masked(e));
    }
  }

  lemma MaskedText(e: Emission)
    ensures Masked(e).text == BeforeNul(CutText(e.text)) && FitsU16(Masked(e).lradId)
  {
  }

  lemma CutIsPrefix(text: seq<byte>)
    ensures var cut := BeforeNul(CutText(text));
            && |cut| <= |text| && cut == text[..|cut|]
            && (|cut| == |text| || text[|cut|] == 0 || (|cut| == TEXT_SIZE && 0 !in text[..TEXT_SIZE]))
            && (0 in text[..|CutText(text)|] ==> |cut| < |CutText(text)|)
  {
    var whole := CutText(text);
    var cut := BeforeNul(whole);
    assert cut == whole[..|cut|] == text[..|cut|];
    if |cut| == |whole| {
      assert cut == whole;
    }
  }

  /** Where the text is cut, at 768 bytes or at a NUL, it stays UTF-8 exactly when no character is split. */
  lemma CutTextValid(cs: seq<Scalar>)
    ensures var text := EncodeAll(cs);
            ValidUtf8(BeforeNul(CutText(text))) <==>
            !(|text| > TEXT_SIZE && 0 !in text[..TEXT_SIZE] && !IsBoundary(cs, TEXT_SIZE))
  {
    hide ValidUtf8, CharLength, BeforeNul, IsBoundary, EncodeAll;
    var text := EncodeAll(cs);
    var cut := BeforeNul(CutText(text));
    CutIsPrefix(text);
    CutBetweenCharacters(cs, |cut|);
    BoundaryByte(cs, |cut|);
  }

  lemma LetterEncodes(cs: seq<Scalar>)
    ensures EncodeAll([0x61] + cs) == [0x61] + EncodeAll(cs) && Scalars([0x61] + cs) == [0x61] + Scalars(cs)
  {
    assert ([0x61] + cs)[1..] == cs;
  }

  lemma {:induction false} LettersEncode(n: nat, cs: seq<Scalar>)
    ensures EncodeAll(seq(n, _ => 0x61) + cs) == seq(n, _ => 0x61) + EncodeAll(cs)
    ensures Scalars(seq(n, _ => 0x61) + cs) == seq(n, _ => 0x61) + Scalars(cs)
  {
    hide EncodeAll, Scalars;
    if n == 0 {
      assert seq(n, _ => 0x61) + cs == cs;
    } else {
      LettersEncode(n - 1, cs);
      assert seq(n, _ => 0x61) + cs == [0x61] + (seq(n - 1, _ => 0x61) + cs);
      LetterEncodes(seq(n - 1, _ => 0x61) + cs);
    }
  }

  /** 767 letters 'a', then U+00E9, which takes two bytes. */
  const SPLIT_TEXT: seq<CodePoint> := seq(767, _ => 0x61) + [0xE9]

  lemma SplitTextFacts()
    ensures var text := EncodeText(SPLIT_TEXT);
            && |text| == 769 && 0 !in text[..TEXT_SIZE] && !IsBoundary(Scalars(SPLIT_TEXT), TEXT_SIZE)
  {
    var last: seq<Scalar> := [0xE9];
    LettersEncode(767, last);
    assert EncodeAll(last) == [0xC3, 0xA9] && Scalars(last) == last;
    assert Scalars(SPLIT_TEXT) == seq(767, _ => 0x61) + last;
    hide IsBoundary;
    BoundaryByte(Scalars(SPLIT_TEXT), TEXT_SIZE);
  }

  /** A text that makes the proxy throw. */
  lemma SplitCharacterThrows(trig: Trig, e: Emission, sender: int, seconds: u32, micros: u32)
    requires FitsU16(sender) && e.text == EncodeText(SPLIT_TEXT)
    ensures var header := BuildHeader(EMISSION_CONTROL, EMISSION_PAYLOAD_SIZE, sender, seconds, micros);
            header.Some? && ConvertDatagram(trig, header.value + EmissionPayload(e)) == DumpThrows
  {
    hide ConvertDatagram, EmissionPayload, BuildHeader, SPLIT_TEXT, EncodeText, IsBoundary;
    SplitTextFacts();
    EmissionConverts(trig, e, SPLIT_TEXT, sender, seconds, micros);
  }
}
