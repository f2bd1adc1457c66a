/** The two threads. The receive thread posts datagrams at any time; the delivery thread takes them one
    by one and works through each in separate steps; the main thread may stop delivery at any time.
    Every interleaving of these steps refines sequential processing. */
module Pipeline {
  import opened Wrappers
  import opened Bytes
  import opened Messages
  import opened SystemStates
  import opened TcpSenders
  import opened Acks
  import opened BinaryConverters
  import opened ProxyEngines
  import opened Delivery

  /** The engine, the world it starts in, and the environment's answers for the k-th datagram processed. */
  datatype Proxy = Proxy(setup: Setup, start: World, envs: nat -> PacketEnv) {
    ghost function Sequential(inputs: seq<seq<byte>>): History {
      History(setup, start, inputs, envs)
    }
  }

  /** Where the delivery thread is. `Crashed`: an exception left it, which ends the process. */
  datatype Phase =
    | Idle
    | Sending(input: seq<byte>, outs: seq<OutPacket>, updates: seq<StateUpdate>, next: nat, allOk: bool)
    | Crashed

  datatype Machine = Machine(
    received: seq<seq<byte>>, queue: seq<seq<byte>>, done: nat, phase: Phase, world: World, stopped: bool)

  datatype Event = Receive(data: seq<byte>) | Begin | SendNext | Finish | Stop

  function Init(p: Proxy): Machine {
    Machine([], [], 0, Idle, p.start, false)
  }

  /** Stopping the delivery context lets the handler that is running finish but starts no other. */
  predicate Enabled(m: Machine, e: Event) {
    match e
    case Receive(_) => !m.phase.Crashed?
    case Begin => m.phase.Idle? && !m.stopped && m.queue != []
    case SendNext => m.phase.Sending? && m.phase.next < |m.phase.outs|
    case Finish => m.phase.Sending? && m.phase.next == |m.phase.outs|
    case Stop => !m.phase.Crashed?
  }

  function Apply(p: Proxy, m: Machine, e: Event): Machine
    requires Enabled(m, e)
  {
    match e
    case Receive(data) => m.(received := m.received + [data], queue := m.queue + [data])
    case Begin => BeginNext(p, m.(queue := m.queue[1..]), m.queue[0])
    case SendNext =>
      var s := m.phase;
      var (world, ok) :=
        OutputStep(p.setup, m.world, s.outs[s.next], SourceMessageId(s.input), p.envs(m.done).net(s.next));
      m.(world := world, phase := s.(next := s.next + 1, allOk := s.allOk && ok))
    case Finish =>
      var world := Commit(m.world, m.phase.allOk, m.phase.updates, p.envs(m.done).nowMs);
      m.(world := world, phase := Idle, done := m.done + 1)
    case Stop => m.(stopped := true)
  }

  function BeginNext(p: Proxy, m: Machine, input: seq<byte>): Machine {
    match p.setup.convert(input)
    case DumpThrows => m.(phase := Crashed)
    case Converted(outs, ackOnly, updates) =>
      if outs == [] then m.(done := m.done + 1)
      else if ackOnly then
        var ack := AckBytes(0, SourceMessageId(input), SUCCESS);
        m.(world := m.world.(acks := m.world.acks + [ack]), done := m.done + 1)
      else m.(phase := Sending(input, outs, updates, 0, true))
  }

  /** The machine after a schedule, if every event of it was enabled. */
  function Replay(p: Proxy, m: Machine, events: seq<Event>): Option<Machine> {
    if events == [] then Some(m)
    else
      var before := Replay(p, m, events[..|events| - 1]);
      if before.Some? && Enabled(before.value, events[|events| - 1])
      then Some(Apply(p, before.value, events[|events| - 1]))
      else None
  }

  /** The datagrams of a schedule, in arrival order. */
  function Received(events: seq<Event>): seq<seq<byte>> {
    if events == [] then []
    else
      var last := events[|events| - 1];
      Received(events[..|events| - 1]) + if last.Receive? then [last.data] else []
  }

  // --- refinement ---

  /** Processed, in progress and queued make up received, in order; and the world is the one sequential
      processing of the processed prefix reaches, plus the turns the datagram in progress has taken. */
  ghost predicate Refines(p: Proxy, m: Machine) {
    var h := p.Sequential(m.received);
    && m.done <= |m.received|
    && (forall k :: 0 <= k < m.done ==> p.setup.convert(m.received[k]).Converted?)
    && match m.phase
       case Idle => m.queue == m.received[m.done..] && m.world == h.After(m.done)
       case Crashed =>
         m.done < |m.received| && m.queue == m.received[m.done + 1..] && m.world == h.After(m.done)
         && p.setup.convert(m.received[m.done]).DumpThrows?
       case Sending(input, outs, updates, next, allOk) =>
         m.done < |m.received| && m.queue == m.received[m.done + 1..] && input == m.received[m.done]
         && p.setup.convert(input) == Converted(outs, false, updates) && outs != [] && next <= |outs|
         && m.world == h.JobOf(m.done).After(next) && allOk == h.JobOf(m.done).Ok(next)
  }

  /** What arrives later does not change what was processed before. */
  lemma {:induction false} EarlierUnchanged(p: Proxy, inputs: seq<seq<byte>>, data: seq<byte>, n: nat)
    requires n <= |inputs|
    ensures p.Sequential(inputs + [data]).After(n) == p.Sequential(inputs).After(n)
  {
    hide Process;
    if n > 0 {
      EarlierUnchanged(p, inputs, data, n - 1);
    }
  }

  lemma ReceiveRefines(p: Proxy, m: Machine, data: seq<byte>)
    requires Refines(p, m) && Enabled(m, Receive(data))
    ensures Refines(p, Apply(p, m, Receive(data)))
  {
    hide Process, OutputStep;
    EarlierUnchanged(p, m.received, data, m.done);
    assert forall k :: 0 <= k < |m.received| ==> (m.received + [data])[k] == m.received[k];
    if m.phase.Sending? {
      assert p.Sequential(m.received + [data]).JobOf(m.done) == p.Sequential(m.received).JobOf(m.done);
    }
  }

  lemma BeginRefines(p: Proxy, m: Machine)
    requires Refines(p, m) && Enabled(m, Begin)
    ensures Refines(p, Apply(p, m, Begin))
  {
    hide OutputStep, AckBytes, SourceMessageId, Commit;
    assert m.queue[0] == m.received[m.done] && m.queue[1..] == m.received[m.done + 1..];
  }

  lemma SendNextRefines(p: Proxy, m: Machine)
    requires Refines(p, m) && Enabled(m, SendNext)
    ensures Refines(p, Apply(p, m, SendNext))
  {
    hide OutputStep, Process;
  }

  lemma FinishRefines(p: Proxy, m: Machine)
    requires Refines(p, m) && Enabled(m, Finish)
    ensures Refines(p, Apply(p, m, Finish))
  {
    hide OutputStep;
    assert p.Sequential(m.received).After(m.done + 1) ==
           Process(p.setup, p.Sequential(m.received).After(m.done), m.received[m.done], p.envs(m.done));
  }

  /** Every schedule of receives, delivery steps and stops refines sequential processing. */
  lemma {:induction false} EveryInterleavingRefines(p: Proxy, events: seq<Event>)
    requires Replay(p, Init(p), events).Some?
    ensures var m := Replay(p, Init(p), events).value;
            Refines(p, m) && m.received == Received(events)
  {
    hide Refines, Apply;
    if events == [] {
      InitRefines(p);
    } else {
      var front, e := events[..|events| - 1], events[|events| - 1];
      EveryInterleavingRefines(p, front);
      StepRefines(p, Replay(p, Init(p), front).value, e);
    }
  }

  lemma InitRefines(p: Proxy)
    ensures Refines(p, Init(p))
  {
  }

  lemma StepRefines(p: Proxy, m: Machine, e: Event)
    requires Refines(p, m) && Enabled(m, e)
    ensures Refines(p, Apply(p, m, e))
    ensures Apply(p, m, e).received == m.received + if e.Receive? then [e.data] else []
  {
    ReceivedStep(p, m, e);
    hide Refines, Apply;
    match e {
      case Receive(data) => ReceiveRefines(p, m, data);
      case Begin => BeginRefines(p, m);
      case SendNext => SendNextRefines(p, m);
      case Finish => FinishRefines(p, m);
      case Stop => StopRefines(p, m);
    }
  }

  lemma ReceivedStep(p: Proxy, m: Machine, e: Event)
    requires Enabled(m, e)
    ensures Apply(p, m, e).received == m.received + if e.Receive? then [e.data] else []
  {
    hide OutputStep, Commit, AckBytes, SourceMessageId;
  }

  lemma StopRefines(p: Proxy, m: Machine)
    requires Refines(p, m) && Enabled(m, Stop)
    ensures Refines(p, Apply(p, m, Stop))
  {
    hide OutputStep, Process;
  }

  // --- what every reachable world guarantees ---

  /** The world a proxy starts in: the sender's constructor has run, nothing else has happened. */
  ghost predicate Booted(w: World) {
    exists host: string, port: u16, env: SendEnv :: w == World(Boot(host, port, env), INITIAL, [])
  }

  /** ACKs of the datagram in progress. */
  function PendingAcks(m: Machine): nat {
    if m.phase.Sending? then m.phase.next else 0
  }

  /** At every point of every schedule, in the middle of a datagram too: no write has gone astray, the ACK log
      is as long as the datagrams account for, each LRAD's engagement is traced to its source, nothing else
      in the state has changed, and every ACK would be dropped if fed back. */
  lemma ReachableGuarantees(p: Proxy, trig: Trig, events: seq<Event>, lrad: u16)
    requires Replay(p, Init(p), events).Some? && Booted(p.start) && UsesConverter(p.setup, trig)
    ensures var m := Replay(p, Init(p), events).value;
            var h := p.Sequential(Received(events));
            && m.done <= |h.inputs|
            && WellDelivered(p.setup, m.world.sender)
            && |m.world.acks| == AckTotal(h.inputs, m.done) + PendingAcks(m)
            && OnlyAcks(m.world.acks)
            && m.world.system == h.After(m.done).system
            && EngagementTraced(h, m.done, lrad)
            && Entry(m.world.system, lrad).(engaged := None) == EMPTY
            && (forall k :: 0 <= k < m.done ==> !HasBadText(h.inputs[k]))
            && (!m.phase.Idle? ==> m.done < |h.inputs| && (m.phase.Crashed? <==> HasBadText(h.inputs[m.done])))
  {
    EveryInterleavingRefines(p, events);
    var m := Replay(p, Init(p), events).value;
    var h := p.Sequential(Received(events));
    NoMisdelivery(h, m.done);
    AckConservation(h, trig, m.done);
    HistoryOnlyAcks(h, m.done);
    EngagementSource(h, trig, m.done, lrad);
    OnlyEngagementChanges(h, trig, m.done, lrad);
    forall k | 0 <= k < |h.inputs|
      ensures HasBadText(h.inputs[k]) <==> p.setup.convert(h.inputs[k]).DumpThrows?
    {
      ConversionShape(trig, h.inputs[k]);
    }
    if m.phase.Sending? {
      var job := h.JobOf(m.done);
      JobWellDelivered(job, m.phase.next);
      JobGrows(job, 0, m.phase.next);
      JobOnlyAcks(job, m.phase.next);
    }
  }

  /** Output i of datagram k is one whose ACK is due. */
  ghost predicate AckDue(p: Proxy, m: Machine, k: nat, i: nat) {
    && k < |m.received|
    && var c := p.setup.convert(m.received[k]);
       && c.Converted? && !c.ackOnly && i < |c.packets|
       && (k < m.done || (k == m.done && m.phase.Sending? && i < m.phase.next))
  }

  ghost predicate AckInPlace(p: Proxy, m: Machine, k: nat, i: nat)
    requires AckDue(p, m, k, i) && m.done <= |m.received|
  {
    var job, position := p.Sequential(m.received).JobOf(k), AckTotal(m.received, k) + i;
    && position < |m.world.acks|
    && AckTells(p.setup, job.After(i).sender, job.After(i + 1).sender, job.outs[i],
                Deliver(p.setup, job.After(i).sender, job.outs[i], p.envs(k).net(i)).1,
                SourceMessageId(m.received[k]), m.world.acks[position])
  }

  /** While datagrams are in progress or queued, the ACK of every output taken so far is at the place the datagrams
      before it account for, and tells that output's outcome. */
  lemma ReachableAcks(p: Proxy, trig: Trig, events: seq<Event>)
    requires Replay(p, Init(p), events).Some? && p.start.acks == [] && UsesConverter(p.setup, trig)
    ensures var m := Replay(p, Init(p), events).value;
            m.done <= |m.received| && forall k: nat, i: nat :: AckDue(p, m, k, i) ==> AckInPlace(p, m, k, i)
  {
    hide AckInPlace, AckDue;
    EveryInterleavingRefines(p, events);
    var m := Replay(p, Init(p), events).value;
    forall k: nat, i: nat | AckDue(p, m, k, i) {
      RefinedAcks(p, trig, m, k, i);
    }
  }

  lemma RefinedAcks(p: Proxy, trig: Trig, m: Machine, k: nat, i: nat)
    requires Refines(p, m) && p.start.acks == [] && UsesConverter(p.setup, trig) && AckDue(p, m, k, i)
    ensures AckInPlace(p, m, k, i)
  {
    hide AckTells, Deliver, OutputStep, Process, UsesConverter;
    var h := p.Sequential(m.received);
    AckConservation(h, trig, k);
    if k == m.done {
      JobTells(h.JobOf(k), i, m.phase.next);
    } else {
      AckSoundness(h, m.done, k, i);
      WorldKeepsAcks(p, m);
      assert m.world.acks[|h.After(k).acks| + i] == h.After(m.done).acks[|h.After(k).acks| + i];
    }
  }

  lemma WorldKeepsAcks(p: Proxy, m: Machine)
    requires Refines(p, m)
    ensures p.Sequential(m.received).After(m.done).acks <= m.world.acks
  {
    hide OutputStep, Process;
    if m.phase.Sending? {
      JobGrows(p.Sequential(m.received).JobOf(m.done), 0, m.phase.next);
    }
  }

  // --- stopping and draining ---

  /** After a stop nothing new begins: at most the datagram in progress completes. */
  lemma {:induction false} StopStartsNothing(p: Proxy, m: Machine, events: seq<Event>)
    requires m.stopped && Replay(p, m, events).Some?
    ensures var m' := Replay(p, m, events).value;
            && m'.stopped
            && m.done <= m'.done <= m.done + (if m.phase.Sending? then 1 else 0)
            && (m'.phase.Sending? ==> m.phase.Sending? && m'.done == m.done)
            && (m.phase.Sending? && m'.phase.Idle? ==> m'.done == m.done + 1)
            && m.queue <= m'.queue
  {
    hide OutputStep, Commit;
    if events != [] {
      StopStartsNothing(p, m, events[..|events| - 1]);
    }
  }

  /** Delivery steps a queued datagram takes. */
  function Cost(p: Proxy, data: seq<byte>): nat {
    var c := p.setup.convert(data);
    if c.Converted? && !c.ackOnly then |c.packets| + 2 else 1
  }

  function QueueCost(p: Proxy, queue: seq<seq<byte>>): nat {
    if queue == [] then 0 else Cost(p, queue[0]) + QueueCost(p, queue[1..])
  }

  function WorkLeft(p: Proxy, m: Machine): nat {
    QueueCost(p, m.queue) +
    if m.phase.Sending? && m.phase.next <= |m.phase.outs| then |m.phase.outs| - m.phase.next + 1 else 0
  }

  function NextDelivery(m: Machine): Event
    requires (m.phase.Sending? && m.phase.next <= |m.phase.outs|) || Enabled(m, Begin)
  {
    if m.phase.Idle? then Begin else if m.phase.next < |m.phase.outs| then SendNext else Finish
  }

  lemma DeliveryProgresses(p: Proxy, m: Machine)
    requires (m.phase.Sending? && m.phase.next <= |m.phase.outs|) || Enabled(m, Begin)
    ensures Enabled(m, NextDelivery(m))
    ensures WorkLeft(p, Apply(p, m, NextDelivery(m))) < WorkLeft(p, m)
  {
    hide OutputStep, Commit, Process;
  }

  lemma {:induction false} ReplayThen(p: Proxy, m: Machine, e: Event, events: seq<Event>)
    requires Enabled(m, e)
    ensures Replay(p, m, [e] + events) == Replay(p, Apply(p, m, e), events)
  {
    hide Apply, Enabled;
    if events == [] {
      assert Replay(p, m, ([e] + events)[..0]) == Some(m);
    } else {
      assert ([e] + events)[..|events|] == [e] + events[..|events| - 1];
      ReplayThen(p, m, e, events[..|events| - 1]);
    }
  }

  predicate DeliveryOnly(events: seq<Event>) {
    forall i :: 0 <= i < |events| ==> events[i] in {Begin, SendNext, Finish}
  }

  lemma RefinesAtRest(p: Proxy, m: Machine)
    requires Refines(p, m)
    ensures m.phase.Idle? && m.queue == [] ==> m.done == |m.received|
    ensures m.phase.Sending? ==> m.phase.next <= |m.phase.outs|
  {
    hide Process, OutputStep;
  }

  /** Left alone, delivery drains the queue: from every reachable machine some number of delivery steps reaches
      one that is idle with nothing queued, unless delivery was stopped or a datagram with bad text came up. */
  lemma {:induction false} Drains(p: Proxy, m: Machine) returns (events: seq<Event>)
    requires Refines(p, m)
    ensures DeliveryOnly(events) && Replay(p, m, events).Some?
    ensures var m' := Replay(p, m, events).value;
            && Refines(p, m') && m'.received == m.received
            && (m'.phase.Crashed? || (m'.phase.Idle? && (m'.stopped || m'.done == |m.received|)))
    decreases WorkLeft(p, m)
  {
    hide Refines, Apply, WorkLeft;
    RefinesAtRest(p, m);
    events := [];
    if m.phase.Sending? || Enabled(m, Begin) {
      var e := NextDelivery(m);
      DeliveryProgresses(p, m);
      StepRefines(p, m, e);
      var rest := Drains(p, Apply(p, m, e));
      ReplayThen(p, m, e, rest);
      events := [e] + rest;
    }
  }

  lemma {:induction false} ReplayConcat(p: Proxy, m: Machine, xs: seq<Event>, ys: seq<Event>)
    requires Replay(p, m, xs).Some?
    ensures Replay(p, m, xs + ys) == Replay(p, Replay(p, m, xs).value, ys)
  {
    hide Apply, Enabled;
    if ys == [] {
      assert xs + ys == xs;
    } else {
      assert (xs + ys)[..|xs + ys| - 1] == xs + ys[..|ys| - 1];
      ReplayConcat(p, m, xs, ys[..|ys| - 1]);
    }
  }

  /** Any datagrams can arrive, before delivery takes the first. */
  lemma {:induction false} Arrivals(p: Proxy, inputs: seq<seq<byte>>) returns (events: seq<Event>)
    ensures Replay(p, Init(p), events) == Some(Init(p).(received := inputs, queue := inputs))
  {
    events := [];
    if inputs != [] {
      var last := |inputs| - 1;
      var front := Arrivals(p, inputs[..last]);
      events := front + [Receive(inputs[last])];
      assert events[..|events| - 1] == front;
      assert inputs[..last] + [inputs[last]] == inputs;
    }
  }

  /** So for every list of datagrams none of which throws there is a schedule that processes them all, and it ends in
      the world that sequential processing of the list reaches. */
  lemma EveryListIsProcessed(p: Proxy, inputs: seq<seq<byte>>) returns (events: seq<Event>)
    requires forall k :: 0 <= k < |inputs| ==> p.setup.convert(inputs[k]).Converted?
    ensures Replay(p, Init(p), events).Some?
    ensures var m := Replay(p, Init(p), events).value;
            m.received == inputs && m.done == |inputs| && m.world == p.Sequential(inputs).After(|inputs|)
  {
    hide Process, OutputStep, Apply;
    var arrivals := Arrivals(p, inputs);
    var m := Replay(p, Init(p), arrivals).value;
    EveryInterleavingRefines(p, arrivals);
    var rest := Drains(p, m);
    NeverStopped(p, m, rest);
    ReplayConcat(p, Init(p), arrivals, rest);
    events := arrivals + rest;
  }

  lemma {:induction false} NeverStopped(p: Proxy, m: Machine, events: seq<Event>)
    requires DeliveryOnly(events) && Replay(p, m, events).Some? && !m.stopped
    ensures !Replay(p, m, events).value.stopped
  {
    hide OutputStep, Commit;
    if events != [] {
      NeverStopped(p, m, events[..|events| - 1]);
    }
  }
}
