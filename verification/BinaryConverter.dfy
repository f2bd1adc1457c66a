/** From datagrams to JSON messages: header, dispatch and the four handlers. The functions decode a
    datagram; the class computes the same on a host of either byte order, with the source's loops. */
module BinaryConverters {
  import opened Wrappers
  import opened Bytes
  import opened Messages
  import opened SystemStates
  import opened CueingMath
  import opened Utf8

  const HEADER_SIZE := 16
  const CHANGE_CONFIGURATION: u32 := 1679949825
  const CUEING_CANCELLATION: u32 := 1679949826
  const CUEING_ORDER: u32 := 1679949827
  const EMISSION_CONTROL: u32 := 1679949828

  // --- header ---

  datatype ParsedHeader = ParsedHeader(messageId: u32, messageLength: u16)

  function ParseHeader(data: seq<byte>): Option<ParsedHeader> {
    if |data| < HEADER_SIZE then None
    else
      var header := ParsedHeader(U32At(data, 0), U32At(data, 4) % 0x1_0000);
      if |data| >= HEADER_SIZE + header.messageLength then Some(header) else None
  }

  // --- change configuration: a run of 8-byte blocks ---

  datatype ConfigBlock = ConfigBlock(actionId: u32, lradId: u16, configuration: u16)

  const BLOCK_SIZE := 8

  function BlockCount(data: seq<byte>): nat {
    if |data| < HEADER_SIZE then 0 else (|data| - HEADER_SIZE) / BLOCK_SIZE
  }

  function BlockAt(data: seq<byte>, i: nat): ConfigBlock
    requires i < BlockCount(data)
  {
    var offset := HEADER_SIZE + BLOCK_SIZE * i;
    ConfigBlock(U32At(data, offset), U16At(data, offset + 4), U16At(data, offset + 6))
  }

  function Blocks(data: seq<byte>): (blocks: seq<ConfigBlock>)
    ensures |blocks| == BlockCount(data)
  {
    seq(BlockCount(data), i requires 0 <= i < BlockCount(data) => BlockAt(data, i))
  }

  function ConfigPacket(b: ConfigBlock): OutPacket {
    var mode := if b.configuration == 0 then "RELEASE" else "REQ";
    OutPacket(
      JObject(map["header" := JString("MASTER"), "type" := JString("CMD"), "sender" := JString("CMS"),
                  "param" := JObject(map["mode" := JString(mode)])]),
      b.lradId)
  }

  function ConfigUpdate(b: ConfigBlock): StateUpdate {
    EMPTY.(lradId := Some(b.lradId), engaged := Some(b.configuration != 0))
  }

  function ConfigPackets(blocks: seq<ConfigBlock>): (packets: seq<OutPacket>)
    ensures |packets| == |blocks|
  {
    seq(|blocks|, i requires 0 <= i < |blocks| => ConfigPacket(blocks[i]))
  }

  function ConfigUpdates(blocks: seq<ConfigBlock>): (updates: seq<StateUpdate>)
    ensures |updates| == |blocks|
  {
    seq(|blocks|, i requires 0 <= i < |blocks| => ConfigUpdate(blocks[i]))
  }

  // --- cueing cancellation ---

  function CancellationPackets(data: seq<byte>): seq<OutPacket> {
    if HEADER_SIZE + 6 > |data| then []
    else
      [OutPacket(
         JObject(map["header" := JString("TRCK"), "type" := JString("CMD"), "sender" := JString("CMS"),
                     "param" := JObject(map["mode" := JString("READY"), "target" := JArray([])])]),
         U16At(data, 20))]
  }

  // --- cueing order ---

  /** Raw words of the coordinates; a 2D target has z = 0. */
  datatype Coordinates = Coordinates(x: u32, y: u32, z: u32)

  datatype CueingOrder = CueingOrder(
    actionId: u32, lradId: u16, cueingType: u16, cstn: u32, kinematicsType: u16, coordinates: Option<Coordinates>)

  const CUEING_MIN_SIZE := HEADER_SIZE + 22

  function DecodeCoordinates(data: seq<byte>, kinematicsType: u16): Option<Coordinates> {
    if kinematicsType in {1, 2} && |data| >= 52 then
      Some(Coordinates(U32At(data, 40), U32At(data, 44), U32At(data, 48)))
    else if kinematicsType in {3, 4} && |data| >= 48 then Some(Coordinates(U32At(data, 40), U32At(data, 44), 0))
    else None
  }

  function DecodeCueing(data: seq<byte>): CueingOrder
    requires |data| >= CUEING_MIN_SIZE
  {
    var kinematicsType := U16At(data, 36);
    CueingOrder(U32At(data, 16), U16At(data, 20), U16At(data, 22), U32At(data, 24), kinematicsType,
                DecodeCoordinates(data, kinematicsType))
  }

  /** The angles atan2 gives, in degrees, for raw coordinate words. */
  datatype Trig = Trig(goniometric: (u32, u32) -> real, elevation: (u32, u32, u32) -> real)

  function CueingAzimuth(trig: Trig, c: Option<Coordinates>): real {
    if c.Some? then Norm360(90.0 - trig.goniometric(c.value.x, c.value.y)) else 0.0
  }

  function CueingElevation(trig: Trig, c: Option<Coordinates>): real {
    if c.Some? then trig.elevation(c.value.x, c.value.y, c.value.z) else 0.0
  }

  function CueingBody(trig: Trig, o: CueingOrder): map<string, Json> {
    var az, el := CueingAzimuth(trig, o.coordinates), CueingElevation(trig, o.coordinates);
    if o.cueingType == 1 then
      map["header" := JString("MOVE"), "type" := JString("CMD"), "sender" := JString("CC"),
          "param" := JObject(map["goTo" := JString(if o.coordinates.Some? then "ABS" else "HOME"),
                                 "az" := JReal(az), "el" := JReal(Norm360(el))])]
    else
      map["header" := JString("DELTA"), "type" := JString("CMD"), "sender" := JString("CC"),
          "param" := JObject(map["az" := JInt(EncodeDelta(az)), "el" := JInt(EncodeDelta(el))])]
  }

  function CueingPacket(trig: Trig, o: CueingOrder): OutPacket {
    var meta := map["action_id" := JInt(o.actionId), "lrad_id" := JInt(o.lradId), "cueing_type" := JInt(o.cueingType),
                    "cstn" := JInt(o.cstn), "kinematics_type" := JInt(o.kinematicsType)];
    OutPacket(JObject(CueingBody(trig, o)["meta" := JObject(meta)]), o.lradId)
  }

  // --- emission control ---

  /** The fields of an emission-control order. Fields are plain integers because the test script also
      takes them unmasked; `audioVolume` is the raw word of a float, `text` the free text's bytes. */
  datatype Emission = Emission(
    actionId: int, lradId: int, audioModeValidity: int,
    volumeLevel: int, audioVolume: u32, mute: int, audioMode: int,
    recordedMessageId: int, recordedLanguage: int, recordedLoop: int,
    languageIn: int, languageOut: int, text: seq<byte>, freeTextLoop: int,
    laserModeValidity: int, laserMode: int,
    lightModeValidity: int, lightPower: int, lightZoom: int,
    lrfModeValidity: int, lrfOnOff: int,
    cameraZoomValidity: int, cameraZoom: int,
    horizontalReferenceValidity: int, horizontalReference: int)

  const EMISSION_MIN_SIZE := 838
  const TEXT_SIZE := 768

  /** The bytes before the first NUL. */
  function BeforeNul(b: seq<byte>): (s: seq<byte>)
    ensures |s| <= |b| && s == b[..|s|] && 0 !in s
    ensures |s| < |b| ==> b[|s|] == 0
  {
    if b == [] || b[0] == 0 then [] else [b[0]] + BeforeNul(b[1..])
  }

  function DecodeEmission(data: seq<byte>): Emission
    requires |data| >= EMISSION_MIN_SIZE
  {
    Emission(
      U32At(data, 16), U16At(data, 20), U16At(data, 22),
      U16At(data, 24), U32At(data, 26), U16At(data, 30), U16At(data, 32),
      U32At(data, 34), U16At(data, 38), U16At(data, 40),
      U16At(data, 42), U16At(data, 44), BeforeNul(data[46..814]), U16At(data, 814),
      U16At(data, 816), U16At(data, 818),
      U16At(data, 820), U16At(data, 822), U16At(data, 824),
      U16At(data, 826), U16At(data, 828),
      U16At(data, 830), U16At(data, 832),
      U16At(data, 834), U16At(data, 836))
  }

  function FreeTextJson(e: Emission): Json {
    JObject(map[
      "text" := JObject(map[
        "language_in" := JInt(e.languageIn), "language_out" := JInt(e.languageOut), "message_text" := JUtf8(e.text)]),
      "loop" := JInt(e.freeTextLoop)])
  }

  function AudioModeJson(e: Emission): Json {
    JObject(map[
      "volume_mode" := JObject(map[
        "level" := JInt(e.volumeLevel), "audio_volume_db" := JFloat(e.audioVolume),
        "mute" := JInt(e.mute), "audio_mode" := JInt(e.audioMode)]),
      "recorded_message_tone" := JObject(map[
        "message_id" := JInt(e.recordedMessageId), "language" := JInt(e.recordedLanguage),
        "loop" := JInt(e.recordedLoop)]),
      "free_text" := FreeTextJson(e)])
  }

  function EmissionParam(e: Emission): Json {
    JObject(map[
      "action_id" := JInt(e.actionId), "lrad_id" := JInt(e.lradId),
      "audio_mode_validity" := JInt(e.audioModeValidity), "audio_mode" := AudioModeJson(e),
      "laser_mode_validity" := JInt(e.laserModeValidity), "laser_mode" := JInt(e.laserMode),
      "light_mode_validity" := JInt(e.lightModeValidity),
      "light_mode" := JObject(map["light_power" := JInt(e.lightPower), "light_zoom" := JInt(e.lightZoom)]),
      "lrf_mode_validity" := JInt(e.lrfModeValidity), "lrf_on_off" := JInt(e.lrfOnOff),
      "camera_zoom_validity" := JInt(e.cameraZoomValidity), "camera_zoom" := JInt(e.cameraZoom),
      "horizontal_reference_validity" := JInt(e.horizontalReferenceValidity),
      "horizontal_reference" := JInt(e.horizontalReference)])
  }

  function EmissionPacket(e: Emission): OutPacket
    requires 0 <= e.lradId < 0x1_0000
  {
    OutPacket(
      JObject(map["header" := JString("EMISS"), "type" := JString("CMD"), "sender" := JString("CMS"),
                  "message_name" := JString("CS_LRAS_emission_control_INS"), "message_id" := JInt(EMISSION_CONTROL),
                  "param" := EmissionParam(e)]),
      e.lradId)
  }

  // --- dispatch ---

  datatype Handler = ChangeConfiguration | CueingCancellation | CueingOrders | EmissionControl

  datatype MessageMapping = MessageMapping(handler: Handler, ackOnly: bool)

  const DISPATCH_TABLE: map<u32, MessageMapping> :=
    map[CHANGE_CONFIGURATION := MessageMapping(ChangeConfiguration, false),
        CUEING_CANCELLATION := MessageMapping(CueingCancellation, true),
        CUEING_ORDER := MessageMapping(CueingOrders, false),
        EMISSION_CONTROL := MessageMapping(EmissionControl, false)]

  function Handle(handler: Handler, trig: Trig, data: seq<byte>): (seq<OutPacket>, seq<StateUpdate>) {
    match handler
    case ChangeConfiguration => (ConfigPackets(Blocks(data)), ConfigUpdates(Blocks(data)))
    case CueingCancellation => (CancellationPackets(data), [])
    case CueingOrders => (if |data| < CUEING_MIN_SIZE then [] else [CueingPacket(trig, DecodeCueing(data))], [])
    case EmissionControl => (if |data| < EMISSION_MIN_SIZE then [] else [EmissionPacket(DecodeEmission(data))], [])
  }

  /** dump() throws on text that is not UTF-8, anywhere in the tree. */
  predicate Dumpable(j: Json) {
    match j
    case JUtf8(bytes) => ValidUtf8(bytes)
    case JArray(items) => forall i :: 0 <= i < |items| ==> Dumpable(items[i])
    case JObject(fields) => forall k :: k in fields ==> Dumpable(fields[k])
    case _ => true
  }

  predicate AllDumpable(packets: seq<OutPacket>) {
    forall i :: 0 <= i < |packets| ==> Dumpable(packets[i].payload)
  }

  function ConvertDatagram(trig: Trig, data: seq<byte>): Conversion {
    var header := ParseHeader(data);
    if header.None? || header.value.messageId !in DISPATCH_TABLE then NOTHING
    else
      var mapping := DISPATCH_TABLE[header.value.messageId];
      var (packets, updates) := Handle(mapping.handler, trig, data);
      if AllDumpable(packets) then Converted(packets, mapping.ackOnly, updates) else DumpThrows
  }

  // --- the class ---

  function ReadU32Be(host: Endianness, data: seq<byte>, offset: nat): (v: u32)
    requires offset + 4 <= |data|
    ensures v == U32At(data, offset)
  {
    NetworkRead32(host, data[offset..offset + 4]);
    Ntohl(host, Load32(host, data[offset..offset + 4]))
  }

  function ReadU16Be(host: Endianness, data: seq<byte>, offset: nat): (v: u16)
    requires offset + 2 <= |data|
    ensures v == U16At(data, offset)
  {
    NetworkRead16(host, data[offset..offset + 2]);
    Ntohs(host, Load16(host, data[offset..offset + 2]))
  }

  class BinaryConverter {
    const host: Endianness
    const trig: Trig
    var dispatchTable: map<u32, MessageMapping>

    constructor (host: Endianness, trig: Trig)
      ensures this.host == host && this.trig == trig && dispatchTable == DISPATCH_TABLE
    {
      this.host, this.trig, this.dispatchTable := host, trig, DISPATCH_TABLE;
    }

    method ReadHeader(input: seq<byte>) returns (header: Option<ParsedHeader>)
      ensures header == ParseHeader(input)
    {
      if |input| < HEADER_SIZE {
        return None;
      }
      var id := ReadU32Be(host, input, 0);
      var word := ReadU32Be(host, input, 4);
      var length := word % 0x1_0000;
      return if |input| >= HEADER_SIZE + length then Some(ParsedHeader(id, length)) else None;
    }

    method HandleChangeConfiguration(packet: seq<byte>) returns (results: seq<OutPacket>, updates: seq<StateUpdate>)
      ensures results == ConfigPackets(Blocks(packet)) && updates == ConfigUpdates(Blocks(packet))
    {
      results, updates := [], [];
      var offset := HEADER_SIZE;
      while offset + BLOCK_SIZE <= |packet|
        invariant offset == HEADER_SIZE + BLOCK_SIZE * |results|
        invariant |results| == |updates| && (|results| > 0 ==> offset <= |packet|)
        invariant |results| <= BlockCount(packet)
        invariant forall i :: 0 <= i < |results| ==> results[i] == ConfigPacket(BlockAt(packet, i))
        invariant forall i :: 0 <= i < |updates| ==> updates[i] == ConfigUpdate(BlockAt(packet, i))
        decreases |packet| - offset
      {
        assert |results| < BlockCount(packet);
        var actionId := ReadU32Be(host, packet, offset);
        var lradId := ReadU16Be(host, packet, offset + 4);
        var rawConfig := ReadU16Be(host, packet, offset + 6);
        assert BlockAt(packet, |results|) == ConfigBlock(actionId, lradId, rawConfig);
        var j := map["header" := JString("MASTER"), "type" := JString("CMD"), "sender" := JString("CMS")];
        j := j["param" := JObject(map["mode" := JString(if rawConfig == 0 then "RELEASE" else "REQ")])];
        results := results + [OutPacket(JObject(j), lradId)];
        var delta := EMPTY;
        delta := delta.(lradId := Some(lradId));
        delta := delta.(engaged := Some(rawConfig != 0));
        updates := updates + [delta];
        offset := offset + BLOCK_SIZE;
      }
    }

    method HandleCueingCancellation(packet: seq<byte>) returns (results: seq<OutPacket>)
      ensures results == CancellationPackets(packet)
    {
      if HEADER_SIZE + 6 > |packet| {
        return [];
      }
      var lradId := ReadU16Be(host, packet, 20);
      var j := map["header" := JString("TRCK"), "type" := JString("CMD"), "sender" := JString("CMS")];
      j := j["param" := JObject(map["mode" := JString("READY"), "target" := JArray([])])];
      results := [OutPacket(JObject(j), lradId)];
    }

    method ReadCueing(packet: seq<byte>) returns (order: CueingOrder)
      requires |packet| >= CUEING_MIN_SIZE
      ensures order == DecodeCueing(packet)
    {
      var actionId := ReadU32Be(host, packet, 16);
      var lradId := ReadU16Be(host, packet, 20);
      var cueingType := ReadU16Be(host, packet, 22);
      var cstn := ReadU32Be(host, packet, 24);
      var kinematicsType := ReadU16Be(host, packet, 36);
      var coordinates := None;
      if kinematicsType == 1 || kinematicsType == 2 {
        if |packet| >= 52 {
          var x, y, z := ReadU32Be(host, packet, 40), ReadU32Be(host, packet, 44), ReadU32Be(host, packet, 48);
          coordinates := Some(Coordinates(x, y, z));
        }
      } else if kinematicsType == 3 || kinematicsType == 4 {
        if |packet| >= 48 {
          var x, y := ReadU32Be(host, packet, 40), ReadU32Be(host, packet, 44);
          coordinates := Some(Coordinates(x, y, 0));
        }
      }
      order := CueingOrder(actionId, lradId, cueingType, cstn, kinematicsType, coordinates);
    }

    method CueingAngles(coordinates: Option<Coordinates>) returns (azimuthDeg: real, elevationDeg: real)
      ensures azimuthDeg == CueingAzimuth(trig, coordinates) && elevationDeg == CueingElevation(trig, coordinates)
    {
      azimuthDeg, elevationDeg := 0.0, 0.0;
      if coordinates.Some? {
        var Coordinates(x, y, z) := coordinates.value;
        var azAbs;
        ghost var below;
        azimuthDeg, elevationDeg, azAbs, below :=
          Cartesian2Target(trig.goniometric(x, y), trig.elevation(x, y, z), false, 0.0);
      }
    }

    method BuildCueingBody(o: CueingOrder) returns (j: map<string, Json>)
      ensures j == CueingBody(trig, o)
    {
      hide Norm360, EncodeDelta, CueingAzimuth, CueingElevation;
      var azimuthDeg, elevationDeg := CueingAngles(o.coordinates);
      // The azimuth is normalised a second time, to no effect.
      var azimuth360 := Mod360(azimuthDeg);
      AzimuthIsNormal(trig, o.coordinates);
      var elevation360 := Mod360(elevationDeg);
      if o.cueingType == 1 {
        j := map["header" := JString("MOVE"), "type" := JString("CMD"), "sender" := JString("CC"),
                 "param" := JObject(map["goTo" := JString(if o.coordinates.Some? then "ABS" else "HOME"),
                                        "az" := JReal(azimuth360), "el" := JReal(elevation360)])];
      } else {
        var az := EncodeDeltaU16(azimuthDeg);
        var el := EncodeDeltaU16(elevationDeg);
        j := map["header" := JString("DELTA"), "type" := JString("CMD"), "sender" := JString("CC"),
                 "param" := JObject(map["az" := JInt(az), "el" := JInt(el)])];
      }
    }

    method HandleCueingOrder(packet: seq<byte>) returns (results: seq<OutPacket>)
      ensures results == if |packet| < CUEING_MIN_SIZE then [] else [CueingPacket(trig, DecodeCueing(packet))]
    {
      hide CueingBody;
      if |packet| < CUEING_MIN_SIZE {
        return [];
      }
      var o := ReadCueing(packet);
      var j := BuildCueingBody(o);
      var meta := map["action_id" := JInt(o.actionId), "lrad_id" := JInt(o.lradId), "cueing_type" := JInt(o.cueingType),
                      "cstn" := JInt(o.cstn), "kinematics_type" := JInt(o.kinematicsType)];
      results := [OutPacket(JObject(j["meta" := JObject(meta)]), o.lradId)];
    }

    method ReadFreeText(packet: seq<byte>) returns (text: seq<byte>)
      requires |packet| >= EMISSION_MIN_SIZE
      ensures text == BeforeNul(packet[46..814])
    {
      hide BeforeNul;
      text := [];
      for i := 46 to 814
        invariant text + BeforeNul(packet[i..814]) == BeforeNul(packet[46..814])
      {
        var c := packet[i];
        BeforeNulStep(packet, i, 814);
        if c == 0 {
          return;
        }
        text := text + [c];
      }
    }

    method HandleEmissionControl(packet: seq<byte>) returns (results: seq<OutPacket>)
      ensures results == if |packet| < EMISSION_MIN_SIZE then [] else [EmissionPacket(DecodeEmission(packet))]
    {
      if |packet| < EMISSION_MIN_SIZE {
        return [];
      }
      var text := ReadFreeText(packet);
      var e := Emission(
        ReadU32Be(host, packet, 16), ReadU16Be(host, packet, 20), ReadU16Be(host, packet, 22),
        ReadU16Be(host, packet, 24), ReadU32Be(host, packet, 26),
        ReadU16Be(host, packet, 30), ReadU16Be(host, packet, 32),
        ReadU32Be(host, packet, 34), ReadU16Be(host, packet, 38), ReadU16Be(host, packet, 40),
        ReadU16Be(host, packet, 42), ReadU16Be(host, packet, 44), text, ReadU16Be(host, packet, 814),
        ReadU16Be(host, packet, 816), ReadU16Be(host, packet, 818),
        ReadU16Be(host, packet, 820), ReadU16Be(host, packet, 822), ReadU16Be(host, packet, 824),
        ReadU16Be(host, packet, 826), ReadU16Be(host, packet, 828),
        ReadU16Be(host, packet, 830), ReadU16Be(host, packet, 832),
        ReadU16Be(host, packet, 834), ReadU16Be(host, packet, 836));
      results := [EmissionPacket(e)];
    }

    method Dispatch(handler: Handler, input: seq<byte>) returns (messages: seq<OutPacket>, updates: seq<StateUpdate>)
      ensures (messages, updates) == Handle(handler, trig, input)
    {
      messages, updates := [], [];
      match handler {
        case ChangeConfiguration => messages, updates := HandleChangeConfiguration(input);
        case CueingCancellation => messages := HandleCueingCancellation(input);
        case CueingOrders => messages := HandleCueingOrder(input);
        case EmissionControl => messages := HandleEmissionControl(input);
      }
    }

    /** dump() of each message in turn; the first that throws ends it. */
    method Serialise(messages: seq<OutPacket>) returns (packets: Option<seq<OutPacket>>)
      ensures packets == if AllDumpable(messages) then Some(messages) else None
    {
      var done := [];
      for i := 0 to |messages|
        invariant done == messages[..i] && AllDumpable(done)
      {
        if !Dumpable(messages[i].payload) {
          return None;
        }
        done := done + [messages[i]];
      }
      assert messages[..|messages|] == messages;
      return Some(done);
    }

    method Convert(input: seq<byte>) returns (result: Conversion)
      requires dispatchTable == DISPATCH_TABLE
      ensures result == ConvertDatagram(trig, input)
    {
      var header := ReadHeader(input);
      if header.None? || header.value.messageId !in dispatchTable {
        return NOTHING;
      }
      var mapping := dispatchTable[header.value.messageId];
      var messages, updates := Dispatch(mapping.handler, input);
      var packets := Serialise(messages);
      return if packets.Some? then Converted(packets.value, mapping.ackOnly, updates) else DumpThrows;
    }
  }

  lemma BeforeNulStep(b: seq<byte>, i: nat, end: nat)
    requires i < end <= |b|
    ensures BeforeNul(b[i..end]) == if b[i] == 0 then [] else [b[i]] + BeforeNul(b[i + 1..end])
  {
    assert b[i..end][1..] == b[i + 1..end];
  }

  /** The azimuth is already in [0, 360), so normalising it again is the identity. */
  lemma AzimuthIsNormal(trig: Trig, c: Option<Coordinates>)
    ensures Norm360(CueingAzimuth(trig, c)) == CueingAzimuth(trig, c)
  {
    if c.Some? {
      NormAbsorbs(90.0 - trig.goniometric(c.value.x, c.value.y), 0.0);
    }
  }

  // --- which datagrams convert, and into how many messages ---

  /** The number of messages, by header and size alone. */
  function MessageCount(data: seq<byte>): nat {
    var header := ParseHeader(data);
    if header.None? then 0
    else
      var id := header.value.messageId;
      if id == CHANGE_CONFIGURATION then BlockCount(data)
      else if id == CUEING_CANCELLATION && |data| >= 22 then 1
      else if id == CUEING_ORDER && |data| >= 38 then 1
      else if id == EMISSION_CONTROL && |data| >= 838 then 1
      else 0
  }

  predicate IsMessage(data: seq<byte>, id: u32) {
    ParseHeader(data).Some? && ParseHeader(data).value.messageId == id
  }

  /** Serialising throws on exactly one kind of datagram. */
  predicate HasBadText(data: seq<byte>) {
    && IsMessage(data, EMISSION_CONTROL) && |data| >= EMISSION_MIN_SIZE
    && !ValidUtf8(BeforeNul(data[46..814]))
  }

  lemma ConfigDumpable(b: ConfigBlock)
    ensures Dumpable(ConfigPacket(b).payload)
  {
    var fields := ConfigPacket(b).payload.fields;
    assert forall k :: k in fields["param"].fields ==> Dumpable(fields["param"].fields[k]);
    assert forall k :: k in fields ==> Dumpable(fields[k]);
  }

  lemma CancellationDumpable(data: seq<byte>)
    ensures AllDumpable(CancellationPackets(data))
  {
    if |data| >= HEADER_SIZE + 6 {
      var fields := CancellationPackets(data)[0].payload.fields;
      assert forall k :: k in fields["param"].fields ==> Dumpable(fields["param"].fields[k]);
      assert forall k :: k in fields ==> Dumpable(fields[k]);
    }
  }

  lemma CueingDumpable(trig: Trig, o: CueingOrder)
    ensures Dumpable(CueingPacket(trig, o).payload)
  {
    var fields := CueingPacket(trig, o).payload.fields;
    assert forall k :: k in fields["param"].fields ==> Dumpable(fields["param"].fields[k]);
    assert forall k :: k in fields["meta"].fields ==> Dumpable(fields["meta"].fields[k]);
    assert forall k :: k in fields ==> Dumpable(fields[k]);
  }

  lemma FreeTextDumpable(e: Emission)
    ensures Dumpable(FreeTextJson(e)) <==> ValidUtf8(e.text)
  {
    var free := FreeTextJson(e).fields;
    var text := free["text"].fields;
    assert Dumpable(text["message_text"]) <==> ValidUtf8(e.text);
    assert Dumpable(free["text"]) <==> ValidUtf8(e.text);
  }

  lemma AudioModeDumpable(e: Emission)
    ensures Dumpable(AudioModeJson(e)) <==> ValidUtf8(e.text)
  {
    FreeTextDumpable(e);
    var fields := AudioModeJson(e).fields;
    FlatDumpable(fields["volume_mode"]);
    FlatDumpable(fields["recorded_message_tone"]);
    assert Dumpable(AudioModeJson(e)) <==> Dumpable(fields["free_text"]);
  }

  lemma FlatDumpable(j: Json)
    requires j.JObject? && forall k :: k in j.fields ==> j.fields[k].JInt? || j.fields[k].JFloat?
    ensures Dumpable(j)
  {
  }

  /** An object serialises when its one doubtful member does. */
  lemma ObjectDumpable(j: Json, key: string)
    requires j.JObject? && key in j.fields
    requires forall k :: k in j.fields && k != key ==> Dumpable(j.fields[k])
    ensures Dumpable(j) <==> Dumpable(j.fields[key])
  {
  }

  lemma EmissionParamDumpable(e: Emission)
    ensures Dumpable(EmissionParam(e)) <==> ValidUtf8(e.text)
  {
    AudioModeDumpable(e);
    var param := EmissionParam(e);
    FlatDumpable(param.fields["light_mode"]);
    assert forall k :: k in param.fields && k != "audio_mode" && k != "light_mode" ==> param.fields[k].JInt?;
    ObjectDumpable(param, "audio_mode");
    assert param.fields["audio_mode"] == AudioModeJson(e);
  }

  lemma EmissionDumpable(e: Emission)
    requires 0 <= e.lradId < 0x1_0000
    ensures Dumpable(EmissionPacket(e).payload) <==> ValidUtf8(e.text)
  {
    EmissionParamDumpable(e);
    var payload := EmissionPacket(e).payload;
    assert forall k :: k in payload.fields && k != "param" ==> payload.fields[k].JString? || payload.fields[k].JInt?;
    ObjectDumpable(payload, "param");
    assert payload.fields["param"] == EmissionParam(e);
  }

  lemma ConfigShape(data: seq<byte>)
    ensures AllDumpable(ConfigPackets(Blocks(data)))
  {
    forall i | 0 <= i < BlockCount(data) {
      ConfigDumpable(Blocks(data)[i]);
    }
  }

  lemma OneDumpable(packet: OutPacket)
    ensures AllDumpable([packet]) <==> Dumpable(packet.payload)
  {
    assert [packet][0] == packet;
  }

  lemma CancellationShape(data: seq<byte>)
    ensures AllDumpable(CancellationPackets(data)) && |CancellationPackets(data)| == if |data| >= 22 then 1 else 0
  {
    CancellationDumpable(data);
  }

  /** Each handler's messages: how many, and whether they serialise. */
  lemma HandlerShape(handler: Handler, trig: Trig, data: seq<byte>)
    ensures var (packets, updates) := Handle(handler, trig, data);
            && (!AllDumpable(packets) <==>
                  handler == EmissionControl && |data| >= EMISSION_MIN_SIZE && !ValidUtf8(BeforeNul(data[46..814])))
            && updates == (if handler == ChangeConfiguration then ConfigUpdates(Blocks(data)) else [])
            && |packets| == match handler
                              case ChangeConfiguration => BlockCount(data)
                              case CueingCancellation => if |data| >= 22 then 1 else 0
                              case CueingOrders => if |data| >= 38 then 1 else 0
                              case EmissionControl => if |data| >= 838 then 1 else 0
  {
    hide ConfigPackets, CancellationPackets, CueingPacket, EmissionPacket, Dumpable, AllDumpable, ValidUtf8;
    NoneDumpable();
    match handler {
      case ChangeConfiguration => ConfigShape(data);
      case CueingCancellation => CancellationShape(data);
      case CueingOrders =>
        if |data| >= CUEING_MIN_SIZE {
          OneDumpable(CueingPacket(trig, DecodeCueing(data)));
          CueingDumpable(trig, DecodeCueing(data));
        }
      case EmissionControl =>
        if |data| >= EMISSION_MIN_SIZE {
          OneDumpable(EmissionPacket(DecodeEmission(data)));
          EmissionDumpable(DecodeEmission(data));
        }
    }
  }

  lemma NoneDumpable()
    ensures AllDumpable([])
  {
  }

  /** Which datagrams throw, and what the others give. */
  lemma ConversionShape(trig: Trig, data: seq<byte>)
    ensures ConvertDatagram(trig, data).DumpThrows? <==> HasBadText(data)
    ensures var c := ConvertDatagram(trig, data);
            c.Converted? ==>
              && |c.packets| == MessageCount(data)
              && (c.packets != [] ==> (c.ackOnly <==> IsMessage(data, CUEING_CANCELLATION)))
              && c.stateUpdates == if IsMessage(data, CHANGE_CONFIGURATION) then ConfigUpdates(Blocks(data)) else []
  {
    hide AllDumpable, ConfigUpdates, Blocks, BlockCount, ValidUtf8, Handle;
    var header := ParseHeader(data);
    if header.Some? && header.value.messageId in DISPATCH_TABLE {
      HandlerShape(DISPATCH_TABLE[header.value.messageId].handler, trig, data);
    }
  }

  /** An emission order of full size becomes one message, or throws if its text is not UTF-8. */
  lemma EmissionOutcome(trig: Trig, data: seq<byte>)
    requires IsMessage(data, EMISSION_CONTROL) && |data| >= EMISSION_MIN_SIZE
    ensures ConvertDatagram(trig, data) ==
            if ValidUtf8(DecodeEmission(data).text) then Converted([EmissionPacket(DecodeEmission(data))], false, [])
            else DumpThrows
  {
    EmissionDumpable(DecodeEmission(data));
    OneDumpable(EmissionPacket(DecodeEmission(data)));
    hide EmissionPacket, DecodeEmission, ValidUtf8, AllDumpable, Dumpable, BeforeNul;
  }

  /** A change-configuration order becomes one message and one update per block. */
  lemma ConfigOutcome(trig: Trig, data: seq<byte>)
    requires IsMessage(data, CHANGE_CONFIGURATION)
    ensures ConvertDatagram(trig, data) == Converted(ConfigPackets(Blocks(data)), false, ConfigUpdates(Blocks(data)))
  {
    ConfigShape(data);
    hide ConfigPackets, ConfigUpdates, Blocks;
  }

  /** A cueing order of sufficient size becomes one message. */
  lemma CueingOutcome(trig: Trig, data: seq<byte>)
    requires IsMessage(data, CUEING_ORDER) && |data| >= CUEING_MIN_SIZE
    ensures ConvertDatagram(trig, data) == Converted([CueingPacket(trig, DecodeCueing(data))], false, [])
  {
    CueingDumpable(trig, DecodeCueing(data));
    hide CueingPacket, DecodeCueing;
  }
}
