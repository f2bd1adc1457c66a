/** What sequential processing guarantees over whole histories: where writes go, what ACKs say, how
    many there are, and what the committed state is. */
module Delivery {
  import opened Wrappers
  import opened Bytes
  import opened Messages
  import opened SystemStates
  import opened TcpSenders
  import opened Acks
  import opened BinaryConverters
  import opened MessageContents
  import opened ProxyEngines

  ghost predicate UsesConverter(setup: Setup, trig: Trig) {
    forall data :: setup.convert(data) == ConvertDatagram(trig, data)
  }

  // --- growth ---

  predicate CacheGrows(before: map<string, Endpoint>, after: map<string, Endpoint>) {
    forall k :: k in before ==> k in after && after[k] == before[k]
  }

  ghost predicate Extends(before: World, after: World) {
    && before.acks <= after.acks
    && before.sender.writes <= after.sender.writes
    && CacheGrows(before.sender.cache, after.sender.cache)
  }

  lemma DeliverGrows(setup: Setup, s: SenderState, out: OutPacket, env: SendEnv)
    ensures s.writes <= Deliver(setup, s, out, env).0.writes
    ensures CacheGrows(s.cache, Deliver(setup, s, out, env).0.cache)
  {
  }

  lemma OutputStepGrows(setup: Setup, w: World, out: OutPacket, sourceId: u32, env: SendEnv)
    ensures var after := OutputStep(setup, w, out, sourceId, env).0;
            Extends(w, after) && |after.acks| == |w.acks| + 1 && after.system == w.system
  {
    DeliverGrows(setup, w.sender, out, env);
  }

  lemma {:induction false} JobGrows(job: Job, i: nat, n: nat)
    requires i <= n <= |job.outs|
    ensures Extends(job.After(i), job.After(n))
    ensures |job.After(n).acks| == |job.start.acks| + n
    ensures job.After(n).system == job.start.system
    decreases n
  {
    hide OutputStep;
    if n > 0 {
      JobGrows(job, if i < n then i else n - 1, n - 1);
      OutputStepGrows(job.setup, job.After(n - 1), job.outs[n - 1], job.sourceId, job.env.net(n - 1));
    }
  }

  /** What one input leaves of its output loop. */
  lemma AfterInput(h: History, k: nat)
    requires k < |h.inputs|
    ensures var c, before, after := h.setup.convert(h.inputs[k]), h.After(k), h.After(k + 1);
            if c.Converted? && !c.ackOnly then
              var job := h.JobOf(k);
              var last := job.After(|job.outs|);
              after.sender == last.sender && after.acks == last.acks
            else
              after.sender == before.sender && after.system == before.system
              && (c.Converted? && c.packets != [] ==> |after.acks| == |before.acks| + 1)
              && (c.DumpThrows? || c.packets == [] ==> after.acks == before.acks)
  {
    hide OutputStep;
  }

  lemma StepGrows(h: History, k: nat)
    requires k < |h.inputs|
    ensures Extends(h.After(k), h.After(k + 1))
  {
    if h.setup.convert(h.inputs[k]).Converted? {
      JobGrows(h.JobOf(k), 0, |h.JobOf(k).outs|);
    }
  }

  lemma {:induction false} HistoryGrows(h: History, m: nat, n: nat)
    requires m <= n <= |h.inputs|
    ensures Extends(h.After(m), h.After(n))
    decreases n - m
  {
    if m < n {
      StepGrows(h, m);
      HistoryGrows(h, m + 1, n);
    }
  }

  // --- no misdelivery ---

  /** A write went to the endpoint cached for the route of its packet's destination. */
  predicate RoutedTo(setup: Setup, cache: map<string, Endpoint>, r: WriteRecord) {
    && r.packet.destinationLradId in setup.routes
    && var d := setup.routes[r.packet.destinationLradId];
       var key := CacheKey(d.ipAddress, d.port);
       key in cache && r.peer == cache[key]
  }

  ghost predicate WellDelivered(setup: Setup, s: SenderState) {
    forall i :: 0 <= i < |s.writes| ==> RoutedTo(setup, s.cache, s.writes[i])
  }

  lemma DeliverIsWellDelivered(setup: Setup, s: SenderState, out: OutPacket, env: SendEnv)
    requires WellDelivered(setup, s)
    ensures WellDelivered(setup, Deliver(setup, s, out, env).0)
  {
    var s' := Deliver(setup, s, out, env).0;
    DeliverGrows(setup, s, out, env);
    forall i | 0 <= i < |s'.writes|
      ensures RoutedTo(setup, s'.cache, s'.writes[i])
    {
      if i < |s.writes| {
        assert RoutedTo(setup, s.cache, s.writes[i]);
      }
    }
  }

  lemma {:induction false} JobWellDelivered(job: Job, n: nat)
    requires n <= |job.outs| && WellDelivered(job.setup, job.start.sender)
    ensures WellDelivered(job.setup, job.After(n).sender)
  {
    if n > 0 {
      JobWellDelivered(job, n - 1);
      DeliverIsWellDelivered(job.setup, job.After(n - 1).sender, job.outs[n - 1], job.env.net(n - 1));
    }
  }

  /** Whatever the network does, in a whole history every write goes over a socket connected to the endpoint
      cached for the route of its packet; so none goes for a packet without a route. */
  lemma {:induction false} NoMisdelivery(h: History, n: nat)
    requires n <= |h.inputs| && WellDelivered(h.setup, h.start.sender)
    ensures WellDelivered(h.setup, h.After(n).sender)
  {
    if n > 0 {
      NoMisdelivery(h, n - 1);
      if h.setup.convert(h.inputs[n - 1]).Converted? {
        JobWellDelivered(h.JobOf(n - 1), |h.JobOf(n - 1).outs|);
      }
    }
  }

  /** A send appends at most one record, of its own packet. */
  lemma DeliverWritesPacket(setup: Setup, s: SenderState, out: OutPacket, env: SendEnv)
    ensures var after := Deliver(setup, s, out, env).0;
            || after.writes == s.writes
            || (|after.writes| == |s.writes| + 1 && after.writes[|s.writes|].packet == out)
  {
  }

  /** From the bytes of a datagram to the peer of a write: what output i of input k writes is the message made of the
      datagram, and it goes to the endpoint cached for the route of the LRAD named 8 * i bytes behind offset 20. */
  lemma WritesReachNamedLrad(h: History, trig: Trig, n: nat, k: nat, i: nat)
    requires k < n <= |h.inputs| && UsesConverter(h.setup, trig) && WellDelivered(h.setup, h.start.sender)
    requires h.setup.convert(h.inputs[k]).Converted? && !h.setup.convert(h.inputs[k]).ackOnly
    requires i < |h.setup.convert(h.inputs[k]).packets|
    ensures var job, data, s := h.JobOf(k), h.inputs[k], h.After(n).sender;
            var j := |job.After(i).sender.writes|;
            |job.After(i + 1).sender.writes| > j ==>
              && j < |s.writes| && s.writes[j].packet == ConvertDatagram(trig, data).packets[i]
              && 22 + 8 * i <= |data|
              && var lrad := U16At(data, 20 + 8 * i);
                 && lrad in h.setup.routes
                 && var key := CacheKey(h.setup.routes[lrad].ipAddress, h.setup.routes[lrad].port);
                    key in s.cache && s.writes[j].peer == s.cache[key]
  {
    hide Process, OutputStep, Deliver, ConvertDatagram, CacheKey, WellDelivered;
    var job := h.JobOf(k);
    var j := |job.After(i).sender.writes|;
    DestinationOnTheWire(trig, h.inputs[k], i);
    NoMisdelivery(h, n);
    OutputWrites(job, i);
    JobGrows(job, i + 1, |job.outs|);
    AfterInput(h, k);
    HistoryGrows(h, k + 1, n);
    if |job.After(i + 1).sender.writes| > j {
      assert h.After(n).sender.writes[j] == job.After(i + 1).sender.writes[j];
      WellDeliveredAt(h.setup, h.After(n).sender, j);
    }
  }

  lemma OutputWrites(job: Job, i: nat)
    requires i < |job.outs|
    ensures var before, after := job.After(i).sender.writes, job.After(i + 1).sender.writes;
            after == before || (|after| == |before| + 1 && after[|before|].packet == job.outs[i])
  {
    DeliverWritesPacket(job.setup, job.After(i).sender, job.outs[i], job.env.net(i));
    hide Deliver;
  }

  lemma WellDeliveredAt(setup: Setup, s: SenderState, j: nat)
    requires WellDelivered(setup, s) && j < |s.writes|
    ensures RoutedTo(setup, s.cache, s.writes[j])
  {
  }

  // --- the sends of a history ---

  function RoutedRequest(setup: Setup, out: OutPacket, env: SendEnv): seq<Request> {
    if out.destinationLradId in setup.routes then
      var d := setup.routes[out.destinationLradId];
      [Request(out, d.ipAddress, d.port, env)]
    else []
  }

  function JobRequests(setup: Setup, outs: seq<OutPacket>, env: PacketEnv, n: nat): seq<Request>
    requires n <= |outs|
  {
    if n == 0 then []
    else JobRequests(setup, outs, env, n - 1) + RoutedRequest(setup, outs[n - 1], env.net(n - 1))
  }

  /** The routed outputs of the first n inputs, in order: a function of the inputs and outcomes alone. */
  function Requests(setup: Setup, inputs: seq<seq<byte>>, envs: nat -> PacketEnv, n: nat): seq<Request>
    requires n <= |inputs|
  {
    if n == 0 then [] else Requests(setup, inputs, envs, n - 1) + InputRequests(setup, inputs[n - 1], envs(n - 1))
  }

  function InputRequests(setup: Setup, input: seq<byte>, env: PacketEnv): seq<Request> {
    var c := setup.convert(input);
    if c.Converted? && !c.ackOnly then JobRequests(setup, c.packets, env, |c.packets|) else []
  }

  lemma {:induction false} RunSendsConcat(s: SenderState, xs: seq<Request>, ys: seq<Request>)
    ensures RunSends(s, xs + ys) == RunSends(RunSends(s, xs), ys)
  {
    if ys == [] {
      assert xs + ys == xs;
    } else {
      assert (xs + ys)[..|xs + ys| - 1] == xs + ys[..|ys| - 1];
      RunSendsConcat(s, xs, ys[..|ys| - 1]);
    }
  }

  lemma RunsNothing(s: SenderState)
    ensures RunSends(s, []) == s
  {
  }

  lemma DeliverIsSend(setup: Setup, s: SenderState, out: OutPacket, env: SendEnv)
    ensures Deliver(setup, s, out, env).0 == RunSends(s, RoutedRequest(setup, out, env))
  {
    if out.destinationLradId in setup.routes {
      var request := RoutedRequest(setup, out, env);
      assert RunSends(s, request[..0]) == s;
    }
  }

  lemma {:induction false} JobIsSends(job: Job, n: nat)
    requires n <= |job.outs|
    ensures job.After(n).sender == RunSends(job.start.sender, JobRequests(job.setup, job.outs, job.env, n))
  {
    hide Deliver, RunSends, RoutedRequest, AckBytes, ActionId;
    if n == 0 {
      RunsNothing(job.start.sender);
    } else {
      JobIsSends(job, n - 1);
      DeliverIsSend(job.setup, job.After(n - 1).sender, job.outs[n - 1], job.env.net(n - 1));
      RunSendsConcat(job.start.sender, JobRequests(job.setup, job.outs, job.env, n - 1),
                     RoutedRequest(job.setup, job.outs[n - 1], job.env.net(n - 1)));
    }
  }

  lemma InputIsSends(h: History, k: nat)
    requires k < |h.inputs|
    ensures h.After(k + 1).sender == RunSends(h.After(k).sender, InputRequests(h.setup, h.inputs[k], h.envs(k)))
  {
    AfterInput(h, k);
    hide Process;
    var c := h.setup.convert(h.inputs[k]);
    if c.Converted? && !c.ackOnly {
      JobIsSends(h.JobOf(k), |c.packets|);
    } else {
      assert InputRequests(h.setup, h.inputs[k], h.envs(k)) == [];
    }
  }

  /** A history uses the connection manager exactly as the sequence of its routed outputs would. */
  lemma {:induction false} HistoryIsSends(h: History, n: nat)
    requires n <= |h.inputs|
    ensures h.After(n).sender == RunSends(h.start.sender, Requests(h.setup, h.inputs, h.envs, n))
  {
    hide Process, SendStep, InputRequests;
    if n > 0 {
      HistoryIsSends(h, n - 1);
      InputIsSends(h, n - 1);
      RunSendsConcat(h.start.sender, Requests(h.setup, h.inputs, h.envs, n - 1),
                     InputRequests(h.setup, h.inputs[n - 1], h.envs(n - 1)));
    }
  }

  /** So every write of a history went to the endpoint its route was cached with at the start, or else to the one
      that the first successful resolution of the route answered, and there was one. */
  lemma PeerIsFirstResolution(h: History, n: nat, j: nat)
    requires n <= |h.inputs| && h.start.sender.writes == []
    requires j < |h.After(n).sender.writes|
    ensures var r, requests := h.After(n).sender.writes[j], Requests(h.setup, h.inputs, h.envs, n);
            && r.packet.destinationLradId in h.setup.routes
            && var d := h.setup.routes[r.packet.destinationLradId];
               var key := CacheKey(d.ipAddress, d.port);
               if key in h.start.sender.cache then r.peer == h.start.sender.cache[key]
               else
                 && !NeverResolves(requests, d.ipAddress, d.port)
                 && forall i :: FirstResolution(requests, d.ipAddress, d.port, i) ==>
                      r.peer == requests[i].env.resolve.endpoints[0]
  {
    NoMisdelivery(h, n);
    HistoryIsSends(h, n);
    var s := h.After(n).sender;
    assert RoutedTo(h.setup, s.cache, s.writes[j]);
    var d := h.setup.routes[s.writes[j].packet.destinationLradId];
    CacheHoldsFirstResolution(h.start.sender, Requests(h.setup, h.inputs, h.envs, n), d.ipAddress, d.port);
  }

  // --- what an ACK says ---

  ghost predicate Completed(before: SenderState, after: SenderState, out: OutPacket) {
    exists peer :: after.writes == before.writes + [WriteRecord(peer, out, true)]
  }

  ghost predicate NotCompleted(before: SenderState, after: SenderState, out: OutPacket) {
    || after.writes == before.writes
    || exists peer :: after.writes == before.writes + [WriteRecord(peer, out, false)]
  }

  lemma CompletedOrNot(before: SenderState, after: SenderState, out: OutPacket)
    ensures !(Completed(before, after, out) && NotCompleted(before, after, out))
  {
    if Completed(before, after, out) {
      assert after.writes[|before.writes|].completed;
    }
  }

  /** A send reports success exactly when its write completed. */
  lemma DeliverVerdict(setup: Setup, s: SenderState, out: OutPacket, env: SendEnv)
    ensures var (after, result) := Deliver(setup, s, out, env);
            && (result.success <==> Completed(s, after, out))
            && (!result.success <==> NotCompleted(s, after, out))
            && (out.destinationLradId !in setup.routes ==> after == s && result == UNROUTED)
  {
    var (after, result) := Deliver(setup, s, out, env);
    CompletedOrNot(s, after, out);
    if |after.writes| > |s.writes| {
      var r := after.writes[|s.writes|];
      assert after.writes == s.writes + [WriteRecord(r.peer, out, result.success)];
    }
  }

  /** What the ACK of one output says, given the sender before and after it and the result of the send. */
  ghost predicate AckTells(
    setup: Setup, before: SenderState, after: SenderState, out: OutPacket,
    result: SendResult, sourceId: u32, ack: seq<byte>)
  {
    && |ack| == ACK_SIZE
    && var a := DecodeAck(ack);
       && a.messageId == ACK_MESSAGE_ID && a.length == 12
       && a.actionId == ActionId(out.payload) && a.sourceMessageId == sourceId
       && (a.ackNack == 1 <==> Completed(before, after, out))
       && (a.ackNack == 2 <==> NotCompleted(before, after, out))
       && (a.ackNack == 1 ==> a.nackReason == 0) && (a.ackNack == 2 ==> a.nackReason == MapNackReason(result))
       && (out.destinationLradId !in setup.routes ==> a.ackNack == 2 && a.nackReason == 2 && after == before)
  }

  lemma OutputStepTells(setup: Setup, w: World, out: OutPacket, sourceId: u32, env: SendEnv)
    ensures var (after, ok) := OutputStep(setup, w, out, sourceId, env);
            && |after.acks| == |w.acks| + 1
            && AckTells(setup, w.sender, after.sender, out, Deliver(setup, w.sender, out, env).1, sourceId,
                        after.acks[|w.acks|])
            && (ok <==> Completed(w.sender, after.sender, out))
  {
    DeliverVerdict(setup, w.sender, out, env);
    hide Deliver;
    AckRoundTrip(ActionId(out.payload), sourceId, Deliver(setup, w.sender, out, env).1);
  }

  lemma JobTells(job: Job, i: nat, n: nat)
    requires i < n <= |job.outs|
    ensures var position := |job.start.acks| + i;
            && position < |job.After(n).acks|
            && AckTells(job.setup, job.After(i).sender, job.After(i + 1).sender, job.outs[i],
                        Deliver(job.setup, job.After(i).sender, job.outs[i], job.env.net(i)).1,
                        job.sourceId, job.After(n).acks[position])
  {
    hide OutputStep, AckTells;
    JobGrows(job, i, i);
    JobGrows(job, i + 1, n);
    OutputStepTells(job.setup, job.After(i), job.outs[i], job.sourceId, job.env.net(i));
    assert job.After(n).acks[|job.start.acks| + i] == job.After(i + 1).acks[|job.start.acks| + i];
  }

  /** Over a whole history, the i-th ACK of input k sits behind the ACKs of the inputs before it, tells the
      outcome of its i-th output, and echoes the message id, on which both header readers agree. */
  lemma AckSoundness(h: History, n: nat, k: nat, i: nat)
    requires k < n <= |h.inputs|
    requires h.setup.convert(h.inputs[k]).Converted? && !h.setup.convert(h.inputs[k]).ackOnly
    requires i < |h.setup.convert(h.inputs[k]).packets|
    ensures var position, job := |h.After(k).acks| + i, h.JobOf(k);
            && position < |h.After(n).acks|
            && AckTells(h.setup, job.After(i).sender, job.After(i + 1).sender, job.outs[i],
                        Deliver(h.setup, job.After(i).sender, job.outs[i], h.envs(k).net(i)).1,
                        SourceMessageId(h.inputs[k]), h.After(n).acks[position])
    ensures ParseHeader(h.inputs[k]).Some? ==> SourceMessageId(h.inputs[k]) == ParseHeader(h.inputs[k]).value.messageId
  {
    hide Process, OutputStep, AckTells;
    JobTells(h.JobOf(k), i, |h.JobOf(k).outs|);
    AfterInput(h, k);
    HistoryGrows(h, k + 1, n);
    assert h.After(n).acks[|h.After(k).acks| + i] == h.After(k + 1).acks[|h.After(k).acks| + i];
  }

  // --- why an output was refused ---

  /** The ways an output can fail, in the order they are met. */
  datatype Failure =
    | NoRoute
    | ResolverError(error: TransportError)
    | EmptyAnswer
    | ConnectError(error: TransportError)
    | WriteError(error: TransportError)

  /** Read off the routes, the sender's state and the network's answers, without running the send. */
  function FailureOf(setup: Setup, s: SenderState, out: OutPacket, env: SendEnv): Option<Failure> {
    if out.destinationLradId !in setup.routes then Some(NoRoute)
    else
      var d := setup.routes[out.destinationLradId];
      var key := CacheKey(d.ipAddress, d.port);
      if key !in s.cache && env.resolve.ResolveFailed? then Some(ResolverError(env.resolve.error))
      else if key !in s.cache && env.resolve.endpoints == [] then Some(EmptyAnswer)
      else
        var target := if key in s.cache then s.cache[key] else env.resolve.endpoints[0];
        if (s.socket == Connected(target) && env.peerKnown) || env.connect.ConnectOk? then
          if env.write.WriteOk? then None else Some(WriteError(env.write.error))
        else Some(ConnectError(env.connect.error))
  }

  /** The reason a transport error gives: its code's class, whichever call it came from, except that two category
      names give 2 whatever the code. */
  predicate ErrorReason(e: TransportError, reason: u16) {
    if e.category == "resolver" || e.category == "engine" then reason == 2
    else
      && (reason == 2 <==> e.code.InvalidArgument? || e.code.BadDescriptor?)
      && (reason == 3 <==> e.code.AlreadyStarted? || e.code.InProgress? || e.code.OperationAborted?)
      && (reason == 4 <==> e.code.TimedOut? || e.code.TryAgain? || e.code.WouldBlock? || e.code.NotConnected?)
      && (reason == 0 <==> e.code.Unlisted?)
      && reason in {0, 2, 3, 4, 5}
  }

  predicate FailureReason(f: Failure, reason: u16) {
    match f
    case NoRoute => reason == 2
    case EmptyAnswer => reason == 2
    case ResolverError(e) => ErrorReason(e, reason)
    case ConnectError(e) => ErrorReason(e, reason)
    case WriteError(e) => ErrorReason(e, reason)
  }

  lemma ErrorHasReason(e: TransportError)
    ensures ErrorReason(e, MapNackReason(FromError(e)))
  {
  }

  lemma DeliverFails(setup: Setup, s: SenderState, out: OutPacket, env: SendEnv)
    ensures var result, f := Deliver(setup, s, out, env).1, FailureOf(setup, s, out, env);
            && (result.success <==> f == None)
            && (f.Some? ==> FailureReason(f.value, MapNackReason(result)))
  {
    hide ErrorReason, MapNackReason;
    var f := FailureOf(setup, s, out, env);
    assert MapNackReason(UNROUTED) == MapNackReason(SendResult(false, Unlisted(-1), "resolver")) == 2 by {
      EngineAndResolverReasons();
    }
    if f.Some? && (f.value.ResolverError? || f.value.ConnectError? || f.value.WriteError?) {
      ErrorHasReason(f.value.error);
    }
  }

  lemma EngineAndResolverReasons()
    ensures MapNackReason(UNROUTED) == 2 && MapNackReason(SendResult(false, Unlisted(-1), "resolver")) == 2
  {
  }

  /** Over a whole history each ACK reports success exactly when nothing failed, and otherwise the reason of the
      way its output failed. Reason 2 is certain without a route or with an empty answer; an error, the
      resolver's included, gets it only by its code or by a category named "resolver" or "engine". */
  lemma NackReasons(h: History, n: nat, k: nat, i: nat)
    requires k < n <= |h.inputs|
    requires h.setup.convert(h.inputs[k]).Converted? && !h.setup.convert(h.inputs[k]).ackOnly
    requires i < |h.setup.convert(h.inputs[k]).packets|
    ensures var position, job := |h.After(k).acks| + i, h.JobOf(k);
            && position < |h.After(n).acks| && |h.After(n).acks[position]| == ACK_SIZE
            && var ack := DecodeAck(h.After(n).acks[position]);
               match FailureOf(h.setup, job.After(i).sender, job.outs[i], h.envs(k).net(i))
               case None => ack.ackNack == 1 && ack.nackReason == 0
               case Some(f) => ack.ackNack == 2 && FailureReason(f, ack.nackReason)
  {
    hide Process, OutputStep, Deliver, FailureOf, FailureReason, MapNackReason, DecodeAck, ActionId, SourceMessageId;
    AckSoundness(h, n, k, i);
    var job := h.JobOf(k);
    DeliverFails(h.setup, job.After(i).sender, job.outs[i], h.envs(k).net(i));
    AckOfVerdict(job, i, h.After(n).acks[|h.After(k).acks| + i]);
  }

  lemma AckOfVerdict(job: Job, i: nat, ack: seq<byte>)
    requires i < |job.outs|
    requires AckTells(job.setup, job.After(i).sender, job.After(i + 1).sender, job.outs[i],
                      Deliver(job.setup, job.After(i).sender, job.outs[i], job.env.net(i)).1, job.sourceId, ack)
    ensures |ack| == ACK_SIZE
    ensures var result, a := Deliver(job.setup, job.After(i).sender, job.outs[i], job.env.net(i)).1, DecodeAck(ack);
            if result.success then a.ackNack == 1 && a.nackReason == 0
            else a.ackNack == 2 && a.nackReason == MapNackReason(result)
  {
    hide Completed, NotCompleted, Deliver, MapNackReason, DecodeAck, ActionId;
    DeliverVerdict(job.setup, job.After(i).sender, job.outs[i], job.env.net(i));
  }

  lemma AckOnlyStep(h: History, k: nat)
    requires k < |h.inputs|
    requires h.setup.convert(h.inputs[k]).Converted? && h.setup.convert(h.inputs[k]).ackOnly
    requires h.setup.convert(h.inputs[k]).packets != []
    ensures var ack := AckBytes(0, SourceMessageId(h.inputs[k]), SUCCESS);
            h.After(k + 1) == h.After(k).(acks := h.After(k).acks + [ack])
  {
    hide OutputStep, AckBytes;
  }

  /** An ack-only order is ACKed as a success with action id 0, and sends and commits nothing. */
  lemma AckOnlySoundness(h: History, n: nat, k: nat)
    requires k < n <= |h.inputs|
    requires h.setup.convert(h.inputs[k]).Converted? && h.setup.convert(h.inputs[k]).ackOnly
    requires h.setup.convert(h.inputs[k]).packets != []
    ensures var position, acks := |h.After(k).acks|, h.After(n).acks;
            && position < |acks| && |acks[position]| == ACK_SIZE
            && DecodeAck(acks[position]) == Ack(ACK_MESSAGE_ID, 12, 0, SourceMessageId(h.inputs[k]), 1, 0)
    ensures h.After(k + 1).sender == h.After(k).sender && h.After(k + 1).system == h.After(k).system
  {
    hide AckBytes, DecodeAck, Process, SourceMessageId;
    var ack := AckBytes(0, SourceMessageId(h.inputs[k]), SUCCESS);
    AckRoundTrip(0, SourceMessageId(h.inputs[k]), SUCCESS);
    AckOnlyStep(h, k);
    HistoryGrows(h, k + 1, n);
    assert h.After(n).acks[|h.After(k).acks|] == ack;
  }

  lemma CueingCarriesNoActionId(trig: Trig, o: CueingOrder)
    ensures ActionId(CueingPacket(trig, o).payload) == 0
  {
    assert CueingPacket(trig, o).payload.fields["param"] == CueingBody(trig, o)["param"];
  }

  lemma EmissionCarriesActionId(e: Emission)
    requires 0 <= e.lradId < 0x1_0000
    ensures ActionId(EmissionPacket(e).payload) == e.actionId % 0x1_0000_0000
  {
    assert EmissionPacket(e).payload.fields["param"] == EmissionParam(e);
    assert EmissionParam(e).fields["action_id"] == JInt(e.actionId);
  }

  /** The action id an ACK echoes is the order's own only for emission control; the other orders, which carry
      one too, are ACKed with 0. */
  lemma EchoedActionId(handler: Handler, trig: Trig, data: seq<byte>, i: nat)
    requires i < |Handle(handler, trig, data).0|
    ensures handler == EmissionControl ==> |data| >= EMISSION_MIN_SIZE
    ensures ActionId(Handle(handler, trig, data).0[i].payload) ==
            if handler == EmissionControl then U32At(data, 16) else 0
  {
    hide EmissionPacket, CueingPacket;
    match handler {
      case CueingOrders => CueingCarriesNoActionId(trig, DecodeCueing(data));
      case EmissionControl => EmissionCarriesActionId(DecodeEmission(data));
      case _ =>
    }
  }

  // --- how many ACKs ---

  /** ACKs one datagram gives, by its header, size and text alone. */
  function AckCount(data: seq<byte>): nat {
    if HasBadText(data) then 0 else MessageCount(data)
  }

  function AckTotal(inputs: seq<seq<byte>>, n: nat): nat
    requires n <= |inputs|
  {
    if n == 0 then 0 else AckTotal(inputs, n - 1) + AckCount(inputs[n - 1])
  }

  lemma AcksOfInput(h: History, trig: Trig, k: nat)
    requires k < |h.inputs| && UsesConverter(h.setup, trig)
    ensures |h.After(k + 1).acks| == |h.After(k).acks| + AckCount(h.inputs[k])
  {
    ConversionShape(trig, h.inputs[k]);
    if h.setup.convert(h.inputs[k]).Converted? {
      JobGrows(h.JobOf(k), 0, |h.JobOf(k).outs|);
    }
  }

  lemma {:induction false} AckConservation(h: History, trig: Trig, n: nat)
    requires n <= |h.inputs| && UsesConverter(h.setup, trig)
    ensures |h.After(n).acks| == |h.start.acks| + AckTotal(h.inputs, n)
  {
    hide Process, MessageCount, HasBadText;
    if n > 0 {
      AckConservation(h, trig, n - 1);
      AcksOfInput(h, trig, n - 1);
    }
  }

  // --- ACKs fed back ---

  ghost predicate IsAck(data: seq<byte>) {
    exists actionId: u32, sourceId: u32, sr: SendResult :: data == AckBytes(actionId, sourceId, sr)
  }

  /** An ACK parses as a 12-byte message of an id that is not dispatched. */
  lemma AckIsIgnored(trig: Trig, data: seq<byte>)
    requires IsAck(data)
    ensures ParseHeader(data) == Some(ParsedHeader(ACK_MESSAGE_ID, 12))
    ensures ConvertDatagram(trig, data) == NOTHING
  {
    var actionId: u32, sourceId: u32, sr: SendResult :| data == AckBytes(actionId, sourceId, sr);
    AckWords(actionId, sourceId, sr);
    hide U32At, U32Of, U32Bytes, U16Bytes, Handle;
  }

  ghost predicate OnlyAcks(datagrams: seq<seq<byte>>) {
    forall i :: 0 <= i < |datagrams| ==> IsAck(datagrams[i])
  }

  lemma {:induction false} JobOnlyAcks(job: Job, n: nat)
    requires n <= |job.outs| && OnlyAcks(job.start.acks)
    ensures OnlyAcks(job.After(n).acks)
  {
    if n > 0 {
      JobOnlyAcks(job, n - 1);
      var result := Deliver(job.setup, job.After(n - 1).sender, job.outs[n - 1], job.env.net(n - 1)).1;
      assert IsAck(AckBytes(ActionId(job.outs[n - 1].payload), job.sourceId, result));
    }
  }

  lemma {:induction false} HistoryOnlyAcks(h: History, n: nat)
    requires n <= |h.inputs| && OnlyAcks(h.start.acks)
    ensures OnlyAcks(h.After(n).acks)
  {
    if n > 0 {
      HistoryOnlyAcks(h, n - 1);
      if h.setup.convert(h.inputs[n - 1]).Converted? {
        JobOnlyAcks(h.JobOf(n - 1), |h.JobOf(n - 1).outs|);
        assert IsAck(AckBytes(0, SourceMessageId(h.inputs[n - 1]), SUCCESS));
      }
    }
  }

  lemma AckIsNoStep(setup: Setup, trig: Trig, w: World, data: seq<byte>, env: PacketEnv)
    requires UsesConverter(setup, trig) && IsAck(data)
    ensures Process(setup, w, data, env) == w
  {
    hide IsAck, ConvertDatagram;
    AckIsIgnored(trig, data);
  }

  lemma {:induction false} AcksAreQuiet(h: History, trig: Trig, n: nat)
    requires n <= |h.inputs| && UsesConverter(h.setup, trig) && OnlyAcks(h.inputs)
    ensures h.After(n) == h.start
  {
    hide Process, IsAck;
    if n > 0 {
      AcksAreQuiet(h, trig, n - 1);
      AckIsNoStep(h.setup, trig, h.After(n - 1), h.inputs[n - 1], h.envs(n - 1));
    }
  }

  /** Feeding a history's whole ACK log back as input changes nothing: no ACK, no write, no state change. */
  lemma AckLoopbackDiesOut(h: History, trig: Trig, n: nat, envs: nat -> PacketEnv)
    requires n <= |h.inputs| && UsesConverter(h.setup, trig) && OnlyAcks(h.start.acks)
    ensures var feedback := h.After(n).acks;
            History(h.setup, h.After(n), feedback, envs).After(|feedback|) == h.After(n)
  {
    HistoryOnlyAcks(h, n);
    AcksAreQuiet(History(h.setup, h.After(n), h.After(n).acks, envs), trig, |h.After(n).acks|);
  }

  // --- what gets committed ---

  /** Input k asked for sends and every one of them completed its write. */
  ghost predicate AllSent(h: History, k: nat)
    requires k < |h.inputs|
  {
    var c := h.setup.convert(h.inputs[k]);
    && c.Converted? && !c.ackOnly && c.packets != []
    && forall i :: 0 <= i < |c.packets| ==> SentAt(h.JobOf(k), i)
  }

  ghost predicate SentAt(job: Job, i: nat)
    requires i < |job.outs|
  {
    Completed(job.After(i).sender, job.After(i + 1).sender, job.outs[i])
  }

  lemma {:induction false} JobVerdict(job: Job, n: nat)
    requires n <= |job.outs|
    ensures job.Ok(n) <==> forall i :: 0 <= i < n ==> SentAt(job, i)
  {
    hide OutputStep, AckTells;
    if n > 0 {
      JobVerdict(job, n - 1);
      OutputStepTells(job.setup, job.After(n - 1), job.outs[n - 1], job.sourceId, job.env.net(n - 1));
      var last := OutputStep(job.setup, job.After(n - 1), job.outs[n - 1], job.sourceId, job.env.net(n - 1));
      assert SentAt(job, n - 1) <==> last.1;
    }
  }

  /** An input commits its updates exactly when all its writes completed, and otherwise leaves the state alone. */
  lemma CommitsWhenAllSent(h: History, k: nat)
    requires k < |h.inputs|
    ensures h.After(k + 1).system ==
            if AllSent(h, k)
            then ApplyBatchAt(h.After(k).system, h.setup.convert(h.inputs[k]).stateUpdates, h.envs(k).nowMs)
            else h.After(k).system
  {
    if h.setup.convert(h.inputs[k]).Converted? {
      var job := h.JobOf(k);
      JobGrows(job, 0, |job.outs|);
      JobVerdict(job, |job.outs|);
    }
  }

  ghost predicate CommittedConfig(h: History, k: nat)
    requires k < |h.inputs|
  {
    IsMessage(h.inputs[k], CHANGE_CONFIGURATION) && AllSent(h, k)
  }

  predicate LastNaming(blocks: seq<ConfigBlock>, lrad: u16, i: int) {
    0 <= i < |blocks| && blocks[i].lradId == lrad && forall j :: i < j < |blocks| ==> blocks[j].lradId != lrad
  }

  predicate NoNaming(blocks: seq<ConfigBlock>, lrad: u16) {
    forall j :: 0 <= j < |blocks| ==> blocks[j].lradId != lrad
  }

  /** A batch of change-configuration updates, seen from one LRAD. */
  lemma {:induction false} ConfigBatch(s: SystemData, blocks: seq<ConfigBlock>, lrad: u16)
    ensures var s' := ApplyAll(s, ConfigUpdates(blocks));
            && s'.systemMode == s.systemMode
            && Entry(s', lrad).(engaged := None) == Entry(s, lrad).(engaged := None)
            && (NoNaming(blocks, lrad) ==> Entry(s', lrad) == Entry(s, lrad))
            && (forall i :: LastNaming(blocks, lrad, i) ==>
                  Entry(s', lrad).engaged == Some(blocks[i].configuration != 0))
            && (NoNaming(blocks, lrad) || exists i :: LastNaming(blocks, lrad, i))
  {
    if blocks != [] {
      var front, last := blocks[..|blocks| - 1], blocks[|blocks| - 1];
      ConfigBatch(s, front, lrad);
      assert ConfigUpdates(blocks)[..|blocks| - 1] == ConfigUpdates(front);
      if last.lradId == lrad {
        assert LastNaming(blocks, lrad, |blocks| - 1);
      } else {
        forall i ensures LastNaming(blocks, lrad, i) <==> LastNaming(front, lrad, i) {
        }
      }
    }
  }

  /** Block i of input k is where an LRAD's engagement comes from: the last block naming it in the latest
      committed change-configuration that names it. */
  ghost predicate EngagedBy(h: History, n: nat, lrad: u16, k: int, i: int)
    requires n <= |h.inputs|
  {
    && 0 <= k < n && CommittedConfig(h, k) && LastNaming(Blocks(h.inputs[k]), lrad, i)
    && forall k' :: k < k' < n && CommittedConfig(h, k') ==> NoNaming(Blocks(h.inputs[k']), lrad)
  }

  ghost predicate NeverNamed(h: History, n: nat, lrad: u16)
    requires n <= |h.inputs|
  {
    forall k :: 0 <= k < n && CommittedConfig(h, k) ==> NoNaming(Blocks(h.inputs[k]), lrad)
  }

  /** What one input does to the state. */
  lemma ConfigStep(h: History, trig: Trig, k: nat)
    requires k < |h.inputs| && UsesConverter(h.setup, trig)
    ensures var before, after := h.After(k).system, h.After(k + 1).system;
            var batch := ApplyAll(before, ConfigUpdates(Blocks(h.inputs[k])));
            if CommittedConfig(h, k) then after.lradStates == batch.lradStates && after.systemMode == batch.systemMode
            else after == before
  {
    CommitsWhenAllSent(h, k);
    ConversionShape(trig, h.inputs[k]);
  }

  predicate NamesLrad(h: History, k: nat, lrad: u16)
    requires k < |h.inputs|
  {
    !NoNaming(Blocks(h.inputs[k]), lrad)
  }

  /** What one input does to one LRAD's entry. */
  lemma EntryStep(h: History, trig: Trig, k: nat, lrad: u16)
    requires k < |h.inputs| && UsesConverter(h.setup, trig)
    ensures var before, after := h.After(k).system, h.After(k + 1).system;
            && after.systemMode == before.systemMode
            && Entry(after, lrad).(engaged := None) == Entry(before, lrad).(engaged := None)
            && if CommittedConfig(h, k) && NamesLrad(h, k, lrad) then
                 forall i :: LastNaming(Blocks(h.inputs[k]), lrad, i) ==>
                   Entry(after, lrad).engaged == Some(Blocks(h.inputs[k])[i].configuration != 0)
               else Entry(after, lrad) == Entry(before, lrad)
  {
    hide Process, CommittedConfig, Blocks, ApplyAll;
    ConfigStep(h, trig, k);
    ConfigBatch(h.After(k).system, Blocks(h.inputs[k]), lrad);
  }

  /** An input that commits no block naming the LRAD does not move the source of its engagement. */
  lemma EngagedByEarlier(h: History, m: nat, lrad: u16)
    requires m < |h.inputs| && !(CommittedConfig(h, m) && NamesLrad(h, m, lrad))
    ensures NeverNamed(h, m + 1, lrad) <==> NeverNamed(h, m, lrad)
    ensures forall k, i :: EngagedBy(h, m + 1, lrad, k, i) <==> EngagedBy(h, m, lrad, k, i)
  {
    hide AllSent, Blocks;
  }

  /** A committed input that names the LRAD is the source of its engagement. */
  lemma EngagedByLatest(h: History, m: nat, n: nat, lrad: u16)
    requires m < |h.inputs| && n == m + 1 && CommittedConfig(h, m) && NamesLrad(h, m, lrad)
    ensures !NeverNamed(h, n, lrad)
    ensures forall k, i :: EngagedBy(h, n, lrad, k, i) <==> k == m && LastNaming(Blocks(h.inputs[m]), lrad, i)
    ensures exists k, i :: EngagedBy(h, n, lrad, k, i)
  {
    hide AllSent, Blocks;
    var blocks := Blocks(h.inputs[m]);
    ConfigBatch(h.start.system, blocks, lrad);
    var i :| LastNaming(blocks, lrad, i);
    assert EngagedBy(h, n, lrad, m, i);
  }

  /** Nothing but engagement ever changes in an entry, and the mode never does. */
  lemma {:induction false} OnlyEngagementChanges(h: History, trig: Trig, n: nat, lrad: u16)
    requires n <= |h.inputs| && UsesConverter(h.setup, trig)
    ensures h.After(n).system.systemMode == h.start.system.systemMode
    ensures Entry(h.After(n).system, lrad).(engaged := None) == Entry(h.start.system, lrad).(engaged := None)
  {
    if n > 0 {
      hide Process, CommittedConfig, Blocks, NamesLrad, Entry;
      OnlyEngagementChanges(h, trig, n - 1, lrad);
      EntryStep(h, trig, n - 1, lrad);
    }
  }

  /** Each LRAD's engagement is that of the block EngagedBy finds, or as at the start if no committed
      change-configuration named it. */
  ghost predicate EngagementTraced(h: History, n: nat, lrad: u16)
    requires n <= |h.inputs|
  {
    var e := Entry(h.After(n).system, lrad);
    && (NeverNamed(h, n, lrad) ==> e == Entry(h.start.system, lrad))
    && (forall k, i :: EngagedBy(h, n, lrad, k, i) ==> e.engaged == Some(Blocks(h.inputs[k])[i].configuration != 0))
    && (NeverNamed(h, n, lrad) || exists k, i :: EngagedBy(h, n, lrad, k, i))
  }

  lemma EngagementStep(h: History, m: nat, lrad: u16)
    requires m < |h.inputs| && EngagementTraced(h, m, lrad)
    requires var before, after := Entry(h.After(m).system, lrad), Entry(h.After(m + 1).system, lrad);
             if CommittedConfig(h, m) && NamesLrad(h, m, lrad) then
               forall i :: LastNaming(Blocks(h.inputs[m]), lrad, i) ==>
                 after.engaged == Some(Blocks(h.inputs[m])[i].configuration != 0)
             else after == before
    ensures EngagementTraced(h, m + 1, lrad)
  {
    hide Process, CommittedConfig, Blocks, LastNaming, Entry, NeverNamed, EngagedBy;
    if CommittedConfig(h, m) && NamesLrad(h, m, lrad) {
      EngagedByLatest(h, m, m + 1, lrad);
    } else {
      EngagedByEarlier(h, m, lrad);
    }
  }

  /** So it is after every history. */
  lemma {:induction false} EngagementSource(h: History, trig: Trig, n: nat, lrad: u16)
    requires n <= |h.inputs| && UsesConverter(h.setup, trig)
    ensures EngagementTraced(h, n, lrad)
  {
    if n > 0 {
      hide EngagementTraced, Process, CommittedConfig, Blocks, NamesLrad;
      EngagementSource(h, trig, n - 1, lrad);
      EntryStep(h, trig, n - 1, lrad);
      EngagementStep(h, n - 1, lrad);
    }
  }
}
