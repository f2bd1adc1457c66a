/** The values that travel between the components: JSON trees, outgoing packets, send results. */
module Messages {
  import opened Bytes
  import opened SystemStates

  /** A JSON value as the engine inspects it. Text that comes off the wire is kept as its UTF-8 bytes,
      a 32-bit float that is only passed on as its raw word. */
  datatype Json =
    | JString(text: string)
    | JUtf8(bytes: seq<byte>)
    | JInt(n: int)
    | JReal(r: real)
    | JFloat(bits: u32)
    | JArray(items: seq<Json>)
    | JObject(fields: map<string, Json>)

  datatype OutPacket = OutPacket(payload: Json, destinationLradId: u16)

  /** What the converter hands to the engine. `DumpThrows`: serialising a message threw, because its
      text is not UTF-8. */
  datatype Conversion =
    | Converted(packets: seq<OutPacket>, ackOnly: bool, stateUpdates: seq<StateUpdate>)
    | DumpThrows

  /** The `return {};` of the converter. */
  const NOTHING: Conversion := Converted([], false, [])

  /** Transport errors as the system category reads their number. A number from another category
      usually means something else there, so it is Unlisted. */
  datatype Errc =
    | InvalidArgument | BadDescriptor
    | AlreadyStarted | InProgress | OperationAborted
    | TimedOut | TryAgain | WouldBlock | NotConnected
    | ConnectionRefused | ConnectionReset | HostUnreachable | NetworkUnreachable | NetworkDown | BrokenPipe
    | Unlisted(value: int)

  datatype TransportError = TransportError(code: Errc, category: string)

  datatype SendResult = SendResult(success: bool, error: Errc, category: string)

  const SUCCESS: SendResult := SendResult(true, Unlisted(0), "")

  function FromError(e: TransportError): SendResult {
    SendResult(false, e.code, e.category)
  }
}
