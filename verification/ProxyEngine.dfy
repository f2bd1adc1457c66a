/** The delivery engine: one datagram in, JSON messages out over TCP, one ACK per message, and a
    state commit if every message went out. */
module ProxyEngines {
  import opened Bytes
  import opened Messages
  import opened SystemStates
  import opened TcpSenders
  import opened Acks
  import opened BinaryConverters

  datatype Destination = Destination(id: u16, ipAddress: string, port: u16)

  /** What an engine is configured with. */
  datatype Setup = Setup(routes: map<u16, Destination>, convert: seq<byte> -> Conversion)

  /** The network's and the clock's answers while one datagram is processed: `net(i)` serves output i. */
  datatype PacketEnv = PacketEnv(net: nat -> SendEnv, nowMs: nat)

  /** Everything processing can change or show. */
  datatype World = World(sender: SenderState, system: SystemData, acks: seq<seq<byte>>)

  function SourceMessageId(data: seq<byte>): u32 {
    if |data| < 4 then 0 else U32At(data, 0)
  }

  /** `param.action_id` of a message, 0 if it has none. */
  function ActionId(payload: Json): u32 {
    if payload.JObject? && "param" in payload.fields then
      var param := payload.fields["param"];
      if param.JObject? && "action_id" in param.fields && param.fields["action_id"].JInt? then
        param.fields["action_id"].n % 0x1_0000_0000
      else 0
    else 0
  }

  const UNROUTED := SendResult(false, InvalidArgument, "engine")

  function Deliver(setup: Setup, sender: SenderState, out: OutPacket, env: SendEnv): (SenderState, SendResult) {
    if out.destinationLradId in setup.routes then
      var d := setup.routes[out.destinationLradId];
      SendStep(sender, out, d.ipAddress, d.port, env)
    else (sender, UNROUTED)
  }

  /** One turn of the output loop: route, send, ACK. */
  function OutputStep(setup: Setup, w: World, out: OutPacket, sourceId: u32, env: SendEnv): (World, bool) {
    var (sender, result) := Deliver(setup, w.sender, out, env);
    (World(sender, w.system, w.acks + [AckBytes(ActionId(out.payload), sourceId, result)]), result.success)
  }

  /** The output loop over the messages of one datagram. */
  datatype Job = Job(setup: Setup, start: World, outs: seq<OutPacket>, sourceId: u32, env: PacketEnv) {
    /** The world after the first n turns. */
    function After(n: nat): World
      requires n <= |outs|
    {
      if n == 0 then start else OutputStep(setup, After(n - 1), outs[n - 1], sourceId, env.net(n - 1)).0
    }

    /** Whether they all succeeded. */
    function Ok(n: nat): bool
      requires n <= |outs|
    {
      n == 0 || (Ok(n - 1) && OutputStep(setup, After(n - 1), outs[n - 1], sourceId, env.net(n - 1)).1)
    }
  }

  function Commit(w: World, ok: bool, updates: seq<StateUpdate>, nowMs: nat): World {
    if ok && updates != [] then w.(system := ApplyBatchAt(w.system, updates, nowMs)) else w
  }

  /** processPacket. A conversion that throws changes nothing before it does. */
  function Process(setup: Setup, w: World, input: seq<byte>, env: PacketEnv): World {
    match setup.convert(input)
    case DumpThrows => w
    case Converted(outs, ackOnly, updates) =>
      if outs == [] then w
      else if ackOnly then w.(acks := w.acks + [AckBytes(0, SourceMessageId(input), SUCCESS)])
      else
        var job := Job(setup, w, outs, SourceMessageId(input), env);
        Commit(job.After(|outs|), job.Ok(|outs|), updates, env.nowMs)
  }

  /** Inputs in arrival order, with the answers the environment gives to each. */
  datatype History = History(setup: Setup, start: World, inputs: seq<seq<byte>>, envs: nat -> PacketEnv) {
    /** Sequential processing of the first n inputs. */
    function After(n: nat): World
      requires n <= |inputs|
    {
      if n == 0 then start else Process(setup, After(n - 1), inputs[n - 1], envs(n - 1))
    }

    /** The output loop of input k. */
    function JobOf(k: nat): Job
      requires k < |inputs| && setup.convert(inputs[k]).Converted?
    {
      Job(setup, After(k), setup.convert(inputs[k]).packets, SourceMessageId(inputs[k]), envs(k))
    }
  }

  class ProxyEngine {
    const converter: BinaryConverter
    const sender: TcpSender
    const systemState: SystemState
    const routes: map<u16, Destination>
    var queue: seq<seq<byte>>     // posted to the delivery context, oldest first
    var ackLog: seq<seq<byte>>    // handed to the ACK sender, oldest first

    constructor (converter: BinaryConverter, sender: TcpSender, systemState: SystemState, routes: map<u16, Destination>)
      ensures this.converter == converter && this.sender == sender && this.systemState == systemState
      ensures this.routes == routes && queue == [] && ackLog == []
    {
      this.converter, this.sender, this.systemState, this.routes := converter, sender, systemState, routes;
      queue, ackLog := [], [];
    }

    ghost function Config(): Setup {
      Setup(routes, data => ConvertDatagram(converter.trig, data))
    }

    ghost function State(): World
      reads this, sender, systemState
    {
      World(sender.State(), systemState.Data(), ackLog)
    }

    /** The receive callback: post and return. */
    method OnDatagram(input: seq<byte>)
      modifies this`queue
      ensures queue == old(queue) + [input]
    {
      queue := queue + [input];
    }

    /** The delivery thread's next piece of work. */
    method DeliverNext(env: PacketEnv) returns (threw: bool)
      requires queue != [] && converter.dispatchTable == DISPATCH_TABLE
      modifies this, sender, systemState
      ensures queue == old(queue)[1..]
      ensures State() == Process(Config(), old(State()), old(queue)[0], env)
      ensures threw <==> HasBadText(old(queue)[0])
    {
      var input := queue[0];
      queue := queue[1..];
      threw := ProcessPacket(input, env);
    }

    /** The delivery thread's loop: take what is queued until nothing is, or until an exception ends it. */
    method RunDelivery(envs: nat -> PacketEnv) returns (done: nat, threw: bool)
      requires converter.dispatchTable == DISPATCH_TABLE
      modifies this, sender, systemState
      ensures done <= |old(queue)| && State() == History(Config(), old(State()), old(queue), envs).After(done)
      ensures forall k :: 0 <= k < done ==> !HasBadText(old(queue)[k])
      ensures if threw then done < |old(queue)| && HasBadText(old(queue)[done]) && queue == old(queue)[done + 1..]
              else done == |old(queue)| && queue == []
    {
      hide Process, HasBadText;
      ghost var h := History(Config(), State(), queue, envs);
      done, threw := 0, false;
      while queue != []
        invariant done <= |h.inputs| && queue == h.inputs[done..] && State() == h.After(done)
        invariant forall k :: 0 <= k < done ==> !HasBadText(h.inputs[k])
        decreases |queue|
      {
        threw := DeliverNext(envs(done));
        if threw {
          ThrowingChangesNothing(h, done);
          return;
        }
        done := done + 1;
      }
    }

    lemma ThrowingChangesNothing(h: History, k: nat)
      requires h.setup == Config() && k < |h.inputs| && HasBadText(h.inputs[k])
      ensures Process(h.setup, h.After(k), h.inputs[k], h.envs(k)) == h.After(k)
    {
      ConversionShape(converter.trig, h.inputs[k]);
    }

    method SendOne(packet: OutPacket, env: SendEnv) returns (result: SendResult)
      modifies sender
      ensures (sender.State(), result) == Deliver(Config(), old(sender.State()), packet, env)
    {
      if packet.destinationLradId in routes {
        var destination := routes[packet.destinationLradId];
        result := sender.Send(packet, destination.ipAddress, destination.port, env);
      } else {
        result := SendResult(false, InvalidArgument, "engine");
      }
    }

    method SendAck(actionId: u32, sourceMessageId: u32, result: SendResult)
      modifies this`ackLog
      ensures ackLog == old(ackLog) + [AckBytes(actionId, sourceMessageId, result)]
    {
      var ack := BuildAckPacket(converter.host, actionId, sourceMessageId, result);
      ackLog := ackLog + [ack];
    }

    method SendAll(packets: seq<OutPacket>, sourceMessageId: u32, env: PacketEnv) returns (allSendsSucceeded: bool)
      modifies this`ackLog, sender
      ensures var job := Job(Config(), old(State()), packets, sourceMessageId, env);
              State() == job.After(|packets|) && allSendsSucceeded == job.Ok(|packets|)
    {
      hide Deliver, AckBytes, ActionId;
      ghost var job := Job(Config(), State(), packets, sourceMessageId, env);
      allSendsSucceeded := true;
      for i := 0 to |packets|
        invariant State() == job.After(i) && allSendsSucceeded == job.Ok(i)
      {
        var result := SendOne(packets[i], env.net(i));
        allSendsSucceeded := allSendsSucceeded && result.success;
        SendAck(ActionId(packets[i].payload), sourceMessageId, result);
      }
    }

    method Convert(input: seq<byte>) returns (result: Conversion)
      requires converter.dispatchTable == DISPATCH_TABLE
      ensures result == Config().convert(input)
      ensures result.DumpThrows? <==> HasBadText(input)
    {
      var snapshot := systemState.GetSnapshot();
      result := converter.Convert(input);
      ConversionShape(converter.trig, input);
    }

    method ProcessPacket(input: seq<byte>, env: PacketEnv) returns (threw: bool)
      requires converter.dispatchTable == DISPATCH_TABLE
      modifies this`ackLog, sender, systemState
      ensures State() == Process(Config(), old(State()), input, env)
      ensures threw <==> HasBadText(input)
    {
      var sourceMessageId := if |input| < 4 then 0 else ReadU32Be(converter.host, input, 0);
      var result := Convert(input);
      if result.DumpThrows? {
        return true;
      }
      threw := false;
      if result.packets == [] {
        return;
      }
      if result.ackOnly {
        SendAck(0, sourceMessageId, SUCCESS);
        return;
      }
      var allSendsSucceeded := SendAll(result.packets, sourceMessageId, env);
      if allSendsSucceeded && result.stateUpdates != [] {
        systemState.ApplyBatch(result.stateUpdates, env.nowMs);
      }
    }
  }
}
