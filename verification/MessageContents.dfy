/** What a receiver reads out of each message, member by member, and where in the datagram it comes from. Offsets,
    sizes and ids are written out here; nothing is stated through the functions that build the messages. */
module MessageContents {
  import opened Wrappers
  import opened Bytes
  import opened Messages
  import opened SystemStates
  import opened CueingMath
  import opened Utf8
  import opened BinaryConverters

  // --- reading JSON ---

  /** The member of that name, if there is one. */
  function At(j: Option<Json>, name: string): Option<Json> {
    if j.Some? && j.value.JObject? && name in j.value.fields then Some(j.value.fields[name]) else None
  }

  /** An object with exactly these members. */
  predicate HasOnly(j: Option<Json>, names: set<string>) {
    j.Some? && j.value.JObject? && j.value.fields.Keys == names
  }

  predicate SaysInt(j: Option<Json>, n: int) { j == Some(JInt(n)) }

  predicate SaysText(j: Option<Json>, text: string) { j == Some(JString(text)) }

  /** An angle in [0, 360) congruent to `angleDeg`: there is only one. */
  ghost predicate SaysAngle(j: Option<Json>, angleDeg: real) {
    j.Some? && j.value.JReal? && InCircle(j.value.r) && Congruent(j.value.r, angleDeg)
  }

  ghost predicate SaysDegrees(j: Option<Json>, angleDeg: real) {
    j.Some? && j.value.JInt? && WholeDegrees(j.value.n, angleDeg)
  }

  // --- the header ---

  /** A complete datagram of that id: a 16-byte header and at least as much payload as it announces. */
  predicate Announces(data: seq<byte>, id: u32) {
    |data| >= 16 && U32At(data, 0) == id && |data| >= 16 + U16At(data, 6)
  }

  lemma LengthWord(data: seq<byte>)
    requires |data| >= 16
    ensures U32At(data, 4) % 0x1_0000 == U16At(data, 6)
  {
    assert data[4..8][2..4] == data[6..8];
  }

  /** A header is found exactly in a datagram that is at least as long as it announces, and it is the first word and
      the low half of the second. */
  lemma HeaderOnTheWire(data: seq<byte>)
    ensures ParseHeader(data) ==
            if |data| >= 16 && |data| >= 16 + U16At(data, 6) then Some(ParsedHeader(U32At(data, 0), U16At(data, 6)))
            else None
    ensures forall id :: IsMessage(data, id) <==> Announces(data, id)
  {
    if |data| >= 16 {
      LengthWord(data);
    }
  }

  /** Anything but a complete datagram of the four ids is dropped. */
  lemma OthersAreDropped(trig: Trig, data: seq<byte>)
    requires !Announces(data, 1679949825) && !Announces(data, 1679949826)
    requires !Announces(data, 1679949827) && !Announces(data, 1679949828)
    ensures ConvertDatagram(trig, data) == Converted([], false, [])
  {
    HeaderOnTheWire(data);
  }

  // --- change configuration ---

  predicate ConfigurationSays(packet: OutPacket, lradId: u16, configuration: u16) {
    var payload := Some(packet.payload);
    && packet.destinationLradId == lradId
    && HasOnly(payload, {"header", "type", "sender", "param"}) && HasOnly(At(payload, "param"), {"mode"})
    && SaysText(At(payload, "header"), "MASTER") && SaysText(At(payload, "type"), "CMD")
    && SaysText(At(payload, "sender"), "CMS")
    && SaysText(At(At(payload, "param"), "mode"), if configuration == 0 then "RELEASE" else "REQ")
  }

  lemma ConfigurationRead(b: ConfigBlock)
    ensures ConfigurationSays(ConfigPacket(b), b.lradId, b.configuration)
  {
  }

  /** Every whole 8-byte block behind the header gives one message to the LRAD it names, and one update. */
  lemma ConfigurationOnTheWire(trig: Trig, data: seq<byte>)
    requires Announces(data, 1679949825)
    ensures var c := ConvertDatagram(trig, data);
            && c.Converted? && !c.ackOnly && |c.packets| == |c.stateUpdates| == (|data| - 16) / 8
            && forall i :: 0 <= i < |c.packets| ==> BlockSays(data, i, c.packets[i], c.stateUpdates[i])
  {
    HeaderOnTheWire(data);
    ConfigOutcome(trig, data);
    forall i | 0 <= i < (|data| - 16) / 8 {
      ConfigurationRead(BlockAt(data, i));
    }
  }

  predicate BlockSays(data: seq<byte>, i: nat, packet: OutPacket, update: StateUpdate) {
    var offset := 16 + 8 * i;
    && offset + 8 <= |data|
    && ConfigurationSays(packet, U16At(data, offset + 4), U16At(data, offset + 6))
    && update == EMPTY.(lradId := Some(U16At(data, offset + 4)), engaged := Some(U16At(data, offset + 6) != 0))
  }

  // --- cueing cancellation ---

  predicate CancellationSays(packet: OutPacket, lradId: u16) {
    var payload := Some(packet.payload);
    && packet.destinationLradId == lradId
    && HasOnly(payload, {"header", "type", "sender", "param"}) && HasOnly(At(payload, "param"), {"mode", "target"})
    && SaysText(At(payload, "header"), "TRCK") && SaysText(At(payload, "type"), "CMD")
    && SaysText(At(payload, "sender"), "CMS")
    && SaysText(At(At(payload, "param"), "mode"), "READY") && At(At(payload, "param"), "target") == Some(JArray([]))
  }

  lemma CancellationRead(data: seq<byte>)
    requires |data| >= 22
    ensures |CancellationPackets(data)| == 1 && CancellationSays(CancellationPackets(data)[0], U16At(data, 20))
  {
  }

  lemma CancellationOnTheWire(trig: Trig, data: seq<byte>)
    requires Announces(data, 1679949826)
    ensures var c := ConvertDatagram(trig, data);
            && c.Converted? && c.ackOnly && c.stateUpdates == []
            && if |data| >= 22 then |c.packets| == 1 && CancellationSays(c.packets[0], U16At(data, 20))
               else c.packets == []
  {
    HeaderOnTheWire(data);
    CancellationDumpable(data);
    if |data| >= 22 {
      CancellationRead(data);
    }
    hide CancellationPackets, CancellationSays;
  }

  // --- cueing order ---

  /** A message that points the LRAD of the order at its target, by position or by delta. Without coordinates both
      angles are 0. `trig` gives the angles of the raw words x, y and z. */
  ghost predicate CueingSays(trig: Trig, packet: OutPacket, o: CueingOrder) {
    var payload := Some(packet.payload);
    && packet.destinationLradId == o.lradId
    && HasOnly(payload, {"header", "type", "sender", "param", "meta"})
    && SaysText(At(payload, "type"), "CMD") && SaysText(At(payload, "sender"), "CC")
    && (if o.cueingType == 1 then PositionSays(trig, payload, o) else DeltaSays(trig, payload, o))
    && MetaSays(At(payload, "meta"), o)
  }

  function AzimuthOf(trig: Trig, o: CueingOrder): real {
    match o.coordinates
    case Some(c) => 90.0 - trig.goniometric(c.x, c.y)
    case None => 0.0
  }

  function ElevationOf(trig: Trig, o: CueingOrder): real {
    match o.coordinates
    case Some(c) => trig.elevation(c.x, c.y, c.z)
    case None => 0.0
  }

  ghost predicate PositionSays(trig: Trig, payload: Option<Json>, o: CueingOrder) {
    var param := At(payload, "param");
    && SaysText(At(payload, "header"), "MOVE") && HasOnly(param, {"goTo", "az", "el"})
    && SaysText(At(param, "goTo"), if o.coordinates.Some? then "ABS" else "HOME")
    && SaysAngle(At(param, "az"), AzimuthOf(trig, o)) && SaysAngle(At(param, "el"), ElevationOf(trig, o))
  }

  ghost predicate DeltaSays(trig: Trig, payload: Option<Json>, o: CueingOrder) {
    var param := At(payload, "param");
    && SaysText(At(payload, "header"), "DELTA") && HasOnly(param, {"az", "el"})
    && SaysDegrees(At(param, "az"), AzimuthOf(trig, o)) && SaysDegrees(At(param, "el"), ElevationOf(trig, o))
  }

  predicate MetaSays(meta: Option<Json>, o: CueingOrder) {
    && HasOnly(meta, {"action_id", "lrad_id", "cueing_type", "cstn", "kinematics_type"})
    && SaysInt(At(meta, "action_id"), o.actionId) && SaysInt(At(meta, "lrad_id"), o.lradId)
    && SaysInt(At(meta, "cueing_type"), o.cueingType) && SaysInt(At(meta, "cstn"), o.cstn)
    && SaysInt(At(meta, "kinematics_type"), o.kinematicsType)
  }

  /** What is congruent to a normalised angle is congruent to the angle. */
  lemma WholeDegreesOfNormal(d: int, a: real)
    requires WholeDegrees(d, Norm360(a))
    ensures WholeDegrees(d, a)
  {
    var r :| InCircle(r) && Congruent(r, Norm360(a)) && d as real - 0.5 <= r < d as real + 0.5;
    NormInCircle(a);
    CongruentTransitive(r, Norm360(a), a);
  }

  lemma CueingAngles(trig: Trig, o: CueingOrder)
    ensures var az, el := CueingAzimuth(trig, o.coordinates), CueingElevation(trig, o.coordinates);
            && InCircle(az) && Congruent(az, AzimuthOf(trig, o))
            && InCircle(Norm360(el)) && Congruent(Norm360(el), ElevationOf(trig, o))
            && WholeDegrees(EncodeDelta(az), AzimuthOf(trig, o)) && WholeDegrees(EncodeDelta(el), ElevationOf(trig, o))
  {
    var az, el := CueingAzimuth(trig, o.coordinates), CueingElevation(trig, o.coordinates);
    hide Norm360, EncodeDelta, WholeDegrees;
    NormInCircle(AzimuthOf(trig, o));
    NormInCircle(el);
    EncodeDeltaBound(az);
    EncodeDeltaBound(el);
    if o.coordinates.Some? {
      WholeDegreesOfNormal(EncodeDelta(az), AzimuthOf(trig, o));
    } else {
      CongruentBy(0.0, 0.0, 0);
    }
  }

  lemma MetaRead(trig: Trig, o: CueingOrder)
    ensures MetaSays(At(Some(CueingPacket(trig, o).payload), "meta"), o)
  {
    hide CueingBody;
  }

  lemma BodyKept(trig: Trig, o: CueingOrder)
    ensures CueingPacket(trig, o).destinationLradId == o.lradId
    ensures var payload := CueingPacket(trig, o).payload;
            && payload.JObject? && payload.fields.Keys == CueingBody(trig, o).Keys + {"meta"}
            && forall k :: k in CueingBody(trig, o) && k != "meta" ==> payload.fields[k] == CueingBody(trig, o)[k]
  {
    hide CueingBody;
  }

  lemma BodyRead(trig: Trig, o: CueingOrder)
    ensures var body := Some(JObject(CueingBody(trig, o)));
            && HasOnly(body, {"header", "type", "sender", "param"})
            && SaysText(At(body, "type"), "CMD") && SaysText(At(body, "sender"), "CC")
            && if o.cueingType == 1 then PositionSays(trig, body, o) else DeltaSays(trig, body, o)
  {
    hide CueingAzimuth, CueingElevation, Norm360, EncodeDelta, WholeDegrees, AzimuthOf, ElevationOf;
    CueingAngles(trig, o);
  }

  lemma CueingRead(trig: Trig, o: CueingOrder)
    ensures CueingSays(trig, CueingPacket(trig, o), o)
  {
    BodyKept(trig, o);
    BodyRead(trig, o);
    MetaRead(trig, o);
    hide CueingPacket, CueingBody, MetaSays, SaysAngle, SaysDegrees, AzimuthOf, ElevationOf;
    var payload, body := Some(CueingPacket(trig, o).payload), Some(JObject(CueingBody(trig, o)));
    assert At(payload, "header") == At(body, "header") && At(payload, "param") == At(body, "param");
  }

  /** A cueing order of at least 38 bytes gives one message to the LRAD it names; coordinates are read for the
      Cartesian kinematics, if the datagram is long enough to hold them, and a planar target has z = 0. */
  lemma CueingOnTheWire(trig: Trig, data: seq<byte>)
    requires Announces(data, 1679949827)
    ensures var c := ConvertDatagram(trig, data);
            && c.Converted? && !c.ackOnly && c.stateUpdates == []
            && if |data| < 38 then c.packets == []
               else
                 var kinematics := U16At(data, 36);
                 var coordinates :=
                   if 1 <= kinematics <= 2 && |data| >= 52 then
                     Some(Coordinates(U32At(data, 40), U32At(data, 44), U32At(data, 48)))
                   else if 3 <= kinematics <= 4 && |data| >= 48 then
                     Some(Coordinates(U32At(data, 40), U32At(data, 44), 0))
                   else None;
                 && |c.packets| == 1
                 && CueingSays(trig, c.packets[0],
                      CueingOrder(U32At(data, 16), U16At(data, 20), U16At(data, 22), U32At(data, 24), kinematics,
                                  coordinates))
  {
    hide CueingSays, CueingPacket;
    HeaderOnTheWire(data);
    if |data| >= 38 {
      CueingOutcome(trig, data);
      CueingRead(trig, DecodeCueing(data));
    }
  }

  // --- emission control ---

  /** A message that says what the order's fields say, and nothing else. */
  predicate EmissionSays(packet: OutPacket, e: Emission) {
    var payload := Some(packet.payload);
    && packet.destinationLradId == e.lradId
    && HasOnly(payload, {"header", "type", "sender", "message_name", "message_id", "param"})
    && SaysText(At(payload, "header"), "EMISS") && SaysText(At(payload, "type"), "CMD")
    && SaysText(At(payload, "sender"), "CMS") && SaysText(At(payload, "message_name"), "CS_LRAS_emission_control_INS")
    && SaysInt(At(payload, "message_id"), 1679949828)
    && ParamSays(At(payload, "param"), e)
  }

  predicate ParamSays(param: Option<Json>, e: Emission) {
    && HasOnly(param, {"action_id", "lrad_id", "audio_mode_validity", "audio_mode", "laser_mode_validity",
                       "laser_mode", "light_mode_validity", "light_mode", "lrf_mode_validity", "lrf_on_off",
                       "camera_zoom_validity", "camera_zoom", "horizontal_reference_validity",
                       "horizontal_reference"})
    && SaysInt(At(param, "action_id"), e.actionId) && SaysInt(At(param, "lrad_id"), e.lradId)
    && SaysInt(At(param, "audio_mode_validity"), e.audioModeValidity)
    && AudioSays(At(param, "audio_mode"), e)
    && SaysInt(At(param, "laser_mode_validity"), e.laserModeValidity)
    && SaysInt(At(param, "laser_mode"), e.laserMode)
    && SaysInt(At(param, "light_mode_validity"), e.lightModeValidity)
    && LightSays(At(param, "light_mode"), e)
    && SaysInt(At(param, "lrf_mode_validity"), e.lrfModeValidity)
    && SaysInt(At(param, "lrf_on_off"), e.lrfOnOff)
    && SaysInt(At(param, "camera_zoom_validity"), e.cameraZoomValidity)
    && SaysInt(At(param, "camera_zoom"), e.cameraZoom)
    && SaysInt(At(param, "horizontal_reference_validity"), e.horizontalReferenceValidity)
    && SaysInt(At(param, "horizontal_reference"), e.horizontalReference)
  }

  predicate AudioSays(audio: Option<Json>, e: Emission) {
    var volume, tone := At(audio, "volume_mode"), At(audio, "recorded_message_tone");
    && HasOnly(audio, {"volume_mode", "recorded_message_tone", "free_text"})
    && HasOnly(volume, {"level", "audio_volume_db", "mute", "audio_mode"})
    && SaysInt(At(volume, "level"), e.volumeLevel) && At(volume, "audio_volume_db") == Some(JFloat(e.audioVolume))
    && SaysInt(At(volume, "mute"), e.mute) && SaysInt(At(volume, "audio_mode"), e.audioMode)
    && HasOnly(tone, {"message_id", "language", "loop"})
    && SaysInt(At(tone, "message_id"), e.recordedMessageId) && SaysInt(At(tone, "language"), e.recordedLanguage)
    && SaysInt(At(tone, "loop"), e.recordedLoop)
    && FreeTextSays(At(audio, "free_text"), e)
  }

  predicate FreeTextSays(free: Option<Json>, e: Emission) {
    var text := At(free, "text");
    && HasOnly(free, {"text", "loop"}) && HasOnly(text, {"language_in", "language_out", "message_text"})
    && SaysInt(At(text, "language_in"), e.languageIn) && SaysInt(At(text, "language_out"), e.languageOut)
    && At(text, "message_text") == Some(JUtf8(e.text))
    && SaysInt(At(free, "loop"), e.freeTextLoop)
  }

  predicate LightSays(light: Option<Json>, e: Emission) {
    && HasOnly(light, {"light_power", "light_zoom"})
    && SaysInt(At(light, "light_power"), e.lightPower) && SaysInt(At(light, "light_zoom"), e.lightZoom)
  }

  lemma FreeTextRead(e: Emission)
    ensures FreeTextSays(Some(FreeTextJson(e)), e)
  {
  }

  lemma AudioRead(e: Emission)
    ensures AudioSays(Some(AudioModeJson(e)), e)
  {
    FreeTextRead(e);
    hide FreeTextJson, FreeTextSays;
  }

  lemma ParamRead(e: Emission)
    ensures ParamSays(Some(EmissionParam(e)), e)
  {
    AudioRead(e);
    hide AudioModeJson, AudioSays;
  }

  lemma EmissionRead(e: Emission)
    requires 0 <= e.lradId < 0x1_0000
    ensures EmissionSays(EmissionPacket(e), e)
  {
    ParamRead(e);
    hide EmissionParam, ParamSays;
  }

  /** What a message says determines the order. */
  lemma EmissionSaysOne(packet: OutPacket, e: Emission, f: Emission)
    requires EmissionSays(packet, e) && EmissionSays(packet, f)
    ensures e == f
  {
  }

  /** An emission-control order of at least 838 bytes gives one message to the LRAD it names, each member being the
      word at its offset and the text the bytes before the first NUL; or throws, if that text is not UTF-8. */
  lemma EmissionOnTheWire(trig: Trig, data: seq<byte>)
    requires Announces(data, 1679949828)
    ensures var c := ConvertDatagram(trig, data);
            if |data| < 838 then c == Converted([], false, [])
            else
              var text := BeforeNul(data[46..814]);
              if !ValidUtf8(text) then c == DumpThrows
              else
                && c.Converted? && !c.ackOnly && c.stateUpdates == [] && |c.packets| == 1
                && EmissionSays(c.packets[0], Emission(
                     U32At(data, 16), U16At(data, 20), U16At(data, 22),
                     U16At(data, 24), U32At(data, 26), U16At(data, 30), U16At(data, 32),
                     U32At(data, 34), U16At(data, 38), U16At(data, 40),
                     U16At(data, 42), U16At(data, 44), text, U16At(data, 814),
                     U16At(data, 816), U16At(data, 818),
                     U16At(data, 820), U16At(data, 822), U16At(data, 824),
                     U16At(data, 826), U16At(data, 828),
                     U16At(data, 830), U16At(data, 832),
                     U16At(data, 834), U16At(data, 836)))
  {
    hide EmissionSays, EmissionPacket, ValidUtf8;
    HeaderOnTheWire(data);
    if |data| >= 838 {
      EmissionOutcome(trig, data);
      EmissionRead(DecodeEmission(data));
    }
  }

  // --- destinations ---

  /** Whatever the kind of datagram, message i goes to the LRAD named 8 * i bytes behind offset 20. */
  lemma DestinationOnTheWire(trig: Trig, data: seq<byte>, i: nat)
    requires ConvertDatagram(trig, data).Converted? && i < |ConvertDatagram(trig, data).packets|
    ensures 22 + 8 * i <= |data|
    ensures ConvertDatagram(trig, data).packets[i].destinationLradId == U16At(data, 20 + 8 * i)
  {
    hide ConvertDatagram, U16At, U32At, ConfigurationSays, ValidUtf8;
    if Announces(data, 1679949825) {
      ConfigurationOnTheWire(trig, data);
      assert BlockSays(data, i, ConvertDatagram(trig, data).packets[i], ConvertDatagram(trig, data).stateUpdates[i]);
      ConfigurationDestination(data, i, ConvertDatagram(trig, data).packets[i]);
    } else if Announces(data, 1679949826) {
      CancellationOnTheWire(trig, data);
    } else if Announces(data, 1679949827) {
      CueingOnTheWire(trig, data);
    } else if Announces(data, 1679949828) {
      EmissionOnTheWire(trig, data);
    } else {
      OthersAreDropped(trig, data);
    }
  }

  lemma ConfigurationDestination(data: seq<byte>, i: nat, packet: OutPacket)
    requires 24 + 8 * i <= |data| && ConfigurationSays(packet, U16At(data, 20 + 8 * i), U16At(data, 22 + 8 * i))
    ensures packet.destinationLradId == U16At(data, 20 + 8 * i)
  {
  }
}
