# CMS_Proxy delivery pipeline: a Dafny model

CMS_Proxy receives binary datagrams over UDP, converts each to JSON messages, sends those over TCP to
LRAD devices, answers every message with a 28-byte ACK or NACK, and keeps a small shared state. This
project models that pipeline and proves what it guarantees over whole runs, for every datagram
sequence, every thread interleaving and every answer of the network.

| file | part |
|---|---|
| `Bytes.dfy`, `Layout.dfy` | words on the wire and on the host; writing and reading back fixed layouts |
| `Messages.dfy`, `Wrappers.dfy` | JSON trees, outgoing packets, send results |
| `Utf8.dfy` | which free texts the JSON library agrees to serialise: the encodings of scalar values |
| `CueingMath.dfy` | azimuth arithmetic over exact reals |
| `Binary32.dfy`, `NearestRounding.dfy` | `mod360` with every operation rounded, and when it ends; that roundings to nearest exist |
| `FloatAngles.dfy` | how exact `mod360` and the delta encoding are on binary32 angles |
| `BinaryConverter.dfy`, `Acks.dfy` | header, dispatch, the four handlers; the ACK |
| `MessageContents.dfy` | what a receiver reads out of each message, and where in the datagram it comes from |
| `TestPackets.dfy` | the encoder side, `scripts/send_test_packet.py`, and the round trips |
| `SystemState.dfy` | state updates, batches and snapshots |
| `SnapshotThreads.dfy`, `SnapshotTraces.dfy` | several threads on the mutex; what every schedule of their calls amounts to |
| `TcpSender.dfy` | the shared socket and the endpoint cache |
| `ProxyEngine.dfy` | `processPacket`, and the delivery loop |
| `Delivery.dfy` | guarantees over sequential histories |
| `Pipeline.dfy` | receive, delivery and stop steps interleaved; refinement of sequential processing |

Classes (`TcpSender`, `SystemState`, `BinaryConverter`, `ProxyEngine`) hold the source's fields and change
them in place with the source's loops and branches; each method equates its result or new state with a
specification function, and the lemmas are about those functions. `BinaryConverter` and the engine run on a
host of either byte order, and their specifications do not mention it.

The environment is a parameter everywhere: resolver, connect and write outcomes, whether a connected socket
still knows its peer, the clock, and the angles `atan2` gives. Datagrams posted to the delivery context are
taken in posting order by one thread. A process that an exception leaves is crashed and does nothing more.

## What the proofs found

- **Text cut at 768 bytes.** The script cuts the encoded text at 768 bytes. When the cut falls inside a
  multi-byte character the text is no longer UTF-8, serialising the message throws, nothing catches it, and
  the delivery thread ends the process. `EmissionConverts` gives the exact condition, and
  `SplitCharacterThrows` a text that meets it: 767 letters `a` and one two-byte character. Among all
  datagrams, only emission-control ones whose text is not UTF-8 throw (`ConversionShape`).
- **`mod360` on floats.** On binary32 inputs the loops stop exactly when the angle is at most 2^33 in size
  (`Binary32Termination`); 2^33 + 1024 is the first number on which they do not (`Binary32Diverges`). Up to
  2^27 + 360 they round once in all, and not at all from 0 up (`CorrectlyRounded`, `ExactWhen`); at the next
  number, 2^27 + 368, the result is 8 degrees off (`LimitIsSharp`). No caller in this program passes such
  angles: the converter's are about 270 degrees in size at most, and there both loops stop within two passes
  (`ConverterAngles`).
- **359.5 degrees and above encode as 360**, not 0 (`EncodeDeltaBound`).
- **Echoed action ids.** Only emission control has its action id echoed; the other orders are ACKed with 0
  (`EchoedActionId`).

Where the repository's README and its code differ, the model follows the code: four message ids are
dispatched, not three; a cueing order becomes a MOVE or DELTA message with its identifiers under `meta`, not
a TRCK message; the comparison of an error with `eof` is between codes of different categories, so it never
gives reason 5; and an error the operating system's resolver reports gets the reason its number has in the
system category, so reason 2 is certain only for an empty resolver answer or an LRAD without a route
(`NackReasons`).

## Model

| member | source | states |
|---|---|---|
| Bytes.NetworkRead32 | src/BinaryConverter.cpp:90-94 | memcpy then ntohl gives the big-endian value on little- and big-endian hosts |
| Bytes.NetworkRead16 | src/BinaryConverter.cpp:74-78 | the same for 16-bit words |
| Bytes.NetworkWrite32 | src/BinaryConverter.cpp:146-160 | htonl then memcpy lays down the big-endian bytes on either host |
| Layout.ReadBack | scripts/send_test_packet.py:87-130 | runs written at non-overlapping offsets are all read back, whatever the order of the writes |
| Layout.Untouched | scripts/send_test_packet.py:111-113 | bytes that no write covers keep their value, so the rest of the text area stays zero |
| Utf8.ValidExactlyWhenEncoded | src/BinaryConverter.cpp:207-213 | the texts that serialise are exactly the encodings of sequences of Unicode scalar values, by the bit layout of RFC 3629, section 3 |
| Utf8.EncodingIsInjective | scripts/send_test_packet.py:111-113 | no two sequences of scalar values have the same encoding |
| Utf8.CutIsValid | scripts/send_test_packet.py:111-113 | cutting UTF-8 leaves UTF-8 if and only if no continuation byte follows the cut |
| Utf8.CutBetweenCharacters | scripts/send_test_packet.py:111-113 | cutting an encoding leaves UTF-8 if and only if the bytes kept are whole characters |
| CueingMath.Mod360 | CueingMathCpp.cpp:7-15 | both loops end with the closed-form representative of the angle |
| CueingMath.NormUnique | CueingMathCpp.cpp:7-15 | that is the one and only angle in [0, 360) congruent to the input |
| CueingMath.NormAbsorbs | CueingMathCpp.cpp:57-69 | an inner normalisation is absorbed by an outer one; normalising twice changes nothing |
| CueingMath.Cartesian2Target | CueingMathCpp.cpp:49-72 | true-bearing mode gives a relative bearing in (-180, 180]; otherwise the absolute azimuth; the branches below -180 are never taken |
| CueingMath.Polar2D | CueingMathCpp.cpp:84-99 | the same for a bearing in radians that was not normalised |
| CueingMath.RelativeBearingUnique | CueingMathCpp.cpp:59-99 | two relative bearings agree if and only if their bearings are congruent, so both routines agree |
| CueingMath.HeadingInvariance | CueingMathCpp.cpp:59-69 | whole turns of heading change no relative bearing |
| CueingMath.EncodeDeltaU16 | src/BinaryConverter.cpp:84-88 | the 16-bit mask and cast lose nothing |
| CueingMath.Rad2DegTurns | CueingMathCpp.cpp:17-19 | PI is half a turn, and whole turns in radians are whole turns in degrees |
| CueingMath.LRoundUnique | src/BinaryConverter.cpp:84-88 | lround gives the nearest whole number and no other, halves away from zero |
| CueingMath.EncodeDeltaBound | src/BinaryConverter.cpp:84-88 | in exact arithmetic the result is in 0..360, the one whole degree nearest to the congruent angle of the circle with halves upwards, and 360 exactly from 359.5 up |
| Binary32.Mod360Rounded | CueingMathCpp.cpp:7-15 | with any monotone rounding that fixes 0 and errs by less than 360 both loops end in [0, 360), after a number of passes proportional to the angle, off a congruent angle by the accumulated error |
| Binary32.IterateError | CueingMathCpp.cpp:7-15 | after n passes the error is at most n roundings |
| Binary32.NearestRoundsWithin | CueingMathCpp.cpp:7-15 | rounding to nearest in binary32 is such a rounding on every range up to 2^(k+24), with error 2^(k-1) |
| Binary32.Binary32Termination | CueingMathCpp.cpp:7-15 | for binary32 inputs the loops stop if and only if the angle is at most 2^33 in size |
| Binary32.Binary32Diverges | CueingMathCpp.cpp:7-15 | the first binary32 angle above 2^33, on which they never stop |
| Binary32.Binary32Passes | CueingMathCpp.cpp:7-15 | for angles up to 2^(k+24) the loops end after exactly n passes, n at most the angle over 360 - 2^(k-1) and two more |
| NearestRounding.NearestRounds | CueingMathCpp.cpp:7-15 | a rounding to nearest in binary32 exists, so these results apply |
| FloatAngles.CorrectlyRounded | CueingMathCpp.cpp:7-15 | up to 2^27 + 360 in size the result is the exact representative, rounded once; 0 where that is a full turn |
| FloatAngles.ExactWhen | CueingMathCpp.cpp:7-15 | it is the exact representative if and only if that is a binary32 number, which it is for every angle from 0 up |
| FloatAngles.LimitIsSharp | CueingMathCpp.cpp:7-15 | the next binary32 number has the representative 16 and comes back as 8 or 24 |
| FloatAngles.NearLimit | CueingMathCpp.cpp:7-15 | beyond the limit every 352 degrees cost at most 8 more, up to half a turn, where any result would do |
| FloatAngles.EncodedDelta | src/BinaryConverter.cpp:84-88 | the encoded delta is within half a degree and one rounding of a congruent angle, and the exact one from 0 up |
| FloatAngles.EncodeDeltaU16Rounded | src/BinaryConverter.cpp:84-88 | mask and cast over the rounded loops; 0..360, and 360 exactly from 359.5 up |
| FloatAngles.ConverterAngles | src/BinaryConverter.cpp:366-402 | the azimuth and the elevation stop within two passes, normalising the azimuth again changes nothing, and both deltas are within half a degree and the roundings made |
| SystemStates.SystemState.ApplyUnlocked | src/SystemState.cpp:14-60 | one update in place; reports whether a recognised field was present, not whether a value changed |
| SystemStates.SystemState.Apply | src/SystemState.cpp:73-79 | a single update with its timestamp |
| SystemStates.SystemState.ApplyBatch | src/SystemState.cpp:81-92 | a batch in place, with one timestamp if any update carried a recognised field |
| SystemStates.LastWriterWins | src/SystemState.cpp:14-92 | the mode and each stored field of each LRAD hold the last value the batch writes, else the old one |
| SystemStates.EntriesAreNamed | src/SystemState.cpp:22-23 | an LRAD has an entry if and only if it had one or an update names it, even one that sets nothing |
| SystemStates.TimestampOnlyByTouch | src/SystemState.cpp:81-92 | the timestamp becomes the clock's reading if and only if some update writes a slot |
| SystemStates.UnstoredFieldsStayEmpty | src/SystemState.cpp:14-60 | cueingStatus and configuration are never stored |
| SystemStates.ApplyAllConcat | src/SystemState.cpp:81-92 | a concatenated batch is its parts in sequence |
| SystemStates.UpdatesCommute | src/SystemState.cpp:14-60 | updates of different LRADs that do not both set the mode commute |
| SnapshotTraces.CallsAreTheSchedules | src/SystemState.cpp:64-92 | in every schedule the calls returned and in progress are exactly the calls made: each record is of one invocation of its thread with the updates given there, of the steps that follow it, and of the clock's reading at its touch; each invocation has its record or is in progress; one thread's records come in the order of its calls |
| SnapshotTraces.BatchesConserved | src/SystemState.cpp:73-92 | the batches returned and the batches in progress are, as a multiset, the batches handed in |
| SnapshotTraces.SnapshotsAreAtomic | src/SystemState.cpp:64-92 | under any interleaving each snapshot is the state after exactly the calls that held the lock before it: every call that returned before it was asked for, and none made after it was returned; calls and times never go back; the lock excludes |
| SnapshotTraces.AnyCallReturns | src/SystemState.cpp:64-92 | in every reachable state a thread outside can make any call and be brought to return from it |
| SnapshotThreads.InvariantHolds | src/SystemState.cpp:64-92 | the invariant of every reachable state: shared data are the returned calls plus the holder's finished part |
| TcpSenders.CacheKeyInjective | src/TcpSender.cpp:65 | host:port is injective, colons in the host included |
| TcpSenders.DecimalReads | src/TcpSender.cpp:65 | the digits of a port are decimal and stand for it |
| TcpSenders.SendRefinesPairKeyed | src/TcpSender.cpp:63-100 | the string-keyed sender and one keyed by (host, port) stay in agreement and return the same results |
| TcpSenders.RunRefinesPairKeyed | src/TcpSender.cpp:63-176 | over any run they hold the same socket, writes and endpoints |
| TcpSenders.CacheHoldsFirstResolution | src/TcpSender.cpp:63-100 | over any run an entry is the first successful resolution; it is never overwritten, and failures are never stored |
| TcpSenders.WritesExactlyWhen | src/TcpSender.cpp:120-176 | over any run, from the requests and the network's answers alone: a request writes if and only if it has an endpoint and either its own connect succeeds, or its peer is known and the last request with an endpoint went to the same one and completed its write (or the start was connected to it); it writes its packet there |
| TcpSenders.FailedWriteReconnects | src/TcpSender.cpp:162-168 | after a failed write the next write is made by a request that connects afresh |
| TcpSenders.BootConnects | src/TcpSender.cpp:49-61 | the constructor leaves one cached endpoint, the first its host and port resolve to, and a connection to it if it could be made |
| TcpSenders.TcpSender.constructor | src/TcpSender.cpp:49-61 | the initial connection state |
| TcpSenders.TcpSender.ResolveTargetEndpoint | src/TcpSender.cpp:63-100 | the cached endpoint, or the fresh answer and the cache after it |
| TcpSenders.TcpSender.Send | src/TcpSender.cpp:120-176 | reconnecting, writing and closing in place, for every socket state and outcome |
| Acks.BuildAckPacket | src/BinaryConverter.cpp:141-167 | the 28 bytes filled in place, on a host of either byte order |
| Acks.AckRoundTrip | src/BinaryConverter.cpp:141-167 | the ACK decodes to exactly the values it was built from; its time words are zero |
| BinaryConverters.BinaryConverter.HandleChangeConfiguration | src/BinaryConverter.cpp:218-273 | the block loop gives the messages and updates of exactly the blocks the size allows |
| BinaryConverters.BinaryConverter.HandleCueingCancellation | src/BinaryConverter.cpp:275-313 | the cancellation message, or none if the datagram is short |
| BinaryConverters.BinaryConverter.HandleCueingOrder | src/BinaryConverter.cpp:315-421 | the MOVE or DELTA message of the decoded order |
| BinaryConverters.AzimuthIsNormal | src/BinaryConverter.cpp:381-382 | the second normalisation of the azimuth is the identity |
| BinaryConverters.BinaryConverter.HandleEmissionControl | src/BinaryConverter.cpp:423-530 | the EMISS message of the decoded fields, the text ending at the first NUL |
| BinaryConverters.BinaryConverter.Convert | src/BinaryConverter.cpp:191-216 | dispatch and serialisation; a message that cannot be serialised throws |
| BinaryConverters.ConversionShape | src/BinaryConverter.cpp:174-216 | which datagrams throw, how many messages and which updates the others give, and which are ACK-only |
| MessageContents.HeaderOnTheWire | src/BinaryConverter.cpp:61-72 | a header is found if and only if there are 16 bytes and as many more as it announces; id and length are the words at 0 and 6 |
| MessageContents.OthersAreDropped | src/BinaryConverter.cpp:191-196 | a datagram that is incomplete or of none of the four ids gives nothing |
| MessageContents.ConfigurationOnTheWire | src/BinaryConverter.cpp:218-273 | block i gives one MASTER message to the LRAD named at 20 + 8i, RELEASE if and only if the word at 22 + 8i is 0, and the matching update |
| MessageContents.CancellationOnTheWire | src/BinaryConverter.cpp:275-313 | one READY message with no target to the LRAD named at 20, only ACKed |
| MessageContents.CueingOnTheWire | src/BinaryConverter.cpp:315-421 | one message to the LRAD named at 20: MOVE or DELTA by the word at 22; ABS if and only if coordinates were read; the one angle in [0, 360) congruent to the azimuth of the words at 40 and 44, the elevation's, or their nearest whole degrees; each meta member its word |
| MessageContents.EmissionOnTheWire | src/BinaryConverter.cpp:423-530 | one message to the LRAD named at 20 in which every member is the word at its offset, the text the bytes before the first NUL, and there is nothing else; or a throw, if and only if that text is not UTF-8 |
| MessageContents.EmissionSaysOne | src/BinaryConverter.cpp:479-523 | what an emission message says determines the order |
| MessageContents.DestinationOnTheWire | src/BinaryConverter.cpp:218-530 | for every kind of datagram message i goes to the LRAD named at 20 + 8i |
| TestPackets.HeaderRoundTrip | scripts/send_test_packet.py:136-146 | a header exists if and only if id and sender fit; it holds the sender and the time, and parses back, with the true length if and only if that is below 65536 |
| TestPackets.BlockLoopRoundTrip | src/BinaryConverter.cpp:225-272 | any list of blocks with fewer than 8 stray bytes comes back as one message and one update per block, in order, RELEASE and not engaged if and only if the configuration is 0 |
| TestPackets.ScriptConfigurationConverts | scripts/send_test_packet.py:35-39 | the script's change-configuration packet, from arguments to what the message and the update say |
| TestPackets.ScriptCancellationConverts | scripts/send_test_packet.py:40-43 | the script's cancellation packet becomes one ACK-only message for that LRAD, and what it says |
| TestPackets.BuildCueingOrderPayload | scripts/send_test_packet.py:47-84 | 48 bytes packed in place, or struct.error if an argument does not fit |
| TestPackets.CueingRoundTrip | src/BinaryConverter.cpp:315-359 | the handler recovers the order, and never reads a velocity as a coordinate |
| TestPackets.UnreadCueingWords | scripts/send_test_packet.py:47-84 | the time of validity and the velocities stand at their places too |
| TestPackets.UnusedCueingBytes | scripts/send_test_packet.py:47-84 | every other byte of the payload is zero |
| TestPackets.CueingConverts | scripts/send_test_packet.py:47-84 | from arguments to the one message, which says what they ask for, to the LRAD they name |
| TestPackets.BuildEmissionControlPayload | scripts/send_test_packet.py:87-130 | 822 bytes packed in place, every integer masked |
| TestPackets.EmissionRoundTrip | src/BinaryConverter.cpp:431-476 | every field comes back modulo its width, the text cut at 768 bytes and at a NUL |
| TestPackets.EmissionExactWhen | src/BinaryConverter.cpp:431-476 | the arguments come back exactly if and only if they fit, with a NUL-free text of at most 768 bytes |
| TestPackets.SplitCharacterThrows | scripts/send_test_packet.py:111-113 | a UTF-8 text whose packet makes the conversion throw |
| TestPackets.TextCodePointwise | scripts/send_test_packet.py:111 | each code point of the text adds its own encoding, a surrogate nothing |
| TestPackets.EmissionConverts | src/BinaryConverter.cpp:207-213 | from arguments, the text a sequence of code points, to a message that says each of them modulo its field; throws if and only if the cut splits a character |
| TestPackets.EmissionArrives | src/BinaryConverter.cpp:431-530 | a message arrives that says the arguments themselves if and only if they fit, with a NUL-free text of at most 768 bytes |
| ProxyEngines.ProxyEngine.ProcessPacket | src/ProxyEngine.cpp:77-128 | one datagram: convert, send and ACK each message, commit if all were sent |
| ProxyEngines.ProxyEngine.OnDatagram | src/ProxyEngine.cpp:69-73 | the receive callback only posts |
| ProxyEngines.ProxyEngine.RunDelivery | src/main.cpp:26-28 | the delivery loop is sequential processing of the queue, up to the first datagram that throws |
| Delivery.NoMisdelivery | src/TcpSender.cpp:120-176 | in a whole history every write goes to the endpoint cached for its packet's route; packets without a route cause none |
| Delivery.WritesReachNamedLrad | src/ProxyEngine.cpp:100-115 | from bytes to peer: what output i of a datagram writes is its message, and goes to the endpoint cached for the route of the LRAD named at 20 + 8i of the datagram |
| Delivery.HistoryIsSends | src/ProxyEngine.cpp:100-115 | a history uses the sender exactly as its routed outputs in order would |
| Delivery.PeerIsFirstResolution | src/TcpSender.cpp:63-176 | the peer of every write is the first successful resolution of its route, or the entry the constructor cached |
| Delivery.AckSoundness | src/ProxyEngine.cpp:77-123 | each ACK says 1 if and only if its output's write completed, else 2 with the mapped reason (2 without a route), and echoes the id both header readers find |
| Delivery.NackReasons | src/BinaryConverter.cpp:127-139 | over a whole history, for each way an output fails (no route, resolver error, empty answer, connect error, write error) the reason its ACK carries, and when that is 2; the ACK reports success if and only if nothing failed |
| Delivery.AckOnlySoundness | src/ProxyEngine.cpp:90-97 | an ACK-only order is ACKed with action id 0, and sends and commits nothing |
| Delivery.EchoedActionId | src/ProxyEngine.cpp:29-39 | only emission control has its action id echoed |
| Delivery.AckConservation | src/ProxyEngine.cpp:84-123 | the number of ACKs is a sum over datagrams of a function of header, size and text |
| Delivery.AckLoopbackDiesOut | src/BinaryConverter.cpp:141-216 | feeding the whole ACK log back changes nothing |
| Delivery.CommitsWhenAllSent | src/ProxyEngine.cpp:99-127 | a datagram commits its updates if and only if all its writes completed |
| Delivery.OnlyEngagementChanges | src/ProxyEngine.cpp:125-127 | nothing but engagement ever changes in an entry |
| Delivery.EngagementSource | src/ProxyEngine.cpp:99-127 | each LRAD's engagement is that of the last block naming it in the latest committed change-configuration that names it |
| Pipeline.EveryInterleavingRefines | src/ProxyEngine.cpp:69-128 | in every schedule processed, in progress and queued make up received in order, and the world is sequential processing of the processed prefix plus the turns taken |
| Pipeline.ReachableGuarantees | src/ProxyEngine.cpp:69-128 | delivery, ACK count, engagement and crash conditions at every point of every schedule |
| Pipeline.ReachableAcks | src/ProxyEngine.cpp:100-123 | every ACK due is in its place and tells its output's outcome, in the middle of a run too |
| Pipeline.StopStartsNothing | src/main.cpp:70-75 | after a stop at most the datagram in progress completes |
| Pipeline.Drains | src/main.cpp:26-28 | left alone, delivery steps process everything received, unless stopped or crashed |
| Pipeline.EveryListIsProcessed | src/main.cpp:26-28 | every list of datagrams none of which throws has a schedule that processes it, and ends where sequential processing does |

## Left out

- JSON text: messages are value trees; printing and parsing are the identity on them, except that printing throws on text that is not UTF-8. `action_id` values that are not integers never arise.
- Sockets, resolver and UDP: arbitrary outcomes only. A partial write counts as not completed. Exceptions of `socket.close()` are not modelled. A connected socket's remote endpoint is taken to be the one it connected to.
- Error numbers: an enumeration of the codes the ACK tells apart, as the system category reads them; error messages and log output are not modelled.
- Rounding outside `mod360` and the subtraction it is called on: CueingMath uses exact reals, and rad2deg, atan2, sqrt, range and NaN or infinite coordinates are not modelled; coordinates, audio volume and the script's floats are raw 32-bit words.
- polar2catesian, mapMasterMode, payload_to_hex, getLastUpdatedMs, set_unicast_target: no caller or no more than a field access.
- Null engine components: the ACK sender and the system state are always present, as main.cpp sets them up.
- AppConfig loading, UdpAckSender and the receiver's buffer: ACKs are logged as handed over; routes are any table of LRAD ids.
- Timestamps of packets and 64-bit wrap-around of milliseconds.
