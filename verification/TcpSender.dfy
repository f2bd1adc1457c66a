/** The TCP connection manager: one socket shared by every destination, and an endpoint cache keyed
    by the text `host:port`. The network answers each call with arbitrary outcomes. */
module TcpSenders {
  import opened Wrappers
  import opened Bytes
  import opened Messages

  datatype Endpoint = Endpoint(address: string, port: u16)

  /** `Unconnected`: open without a peer, which is what a failed connect leaves. */
  datatype Socket = Closed | Unconnected | Connected(peer: Endpoint)

  datatype ResolveOutcome = Resolved(endpoints: seq<Endpoint>) | ResolveFailed(error: TransportError)

  datatype ConnectOutcome = ConnectOk | ConnectFailed(error: TransportError, leftOpen: bool)

  datatype WriteOutcome = WriteOk | WriteFailed(error: TransportError)

  /** The network's answers to one send, whichever of them it asks for. `peerKnown` is false when
      remote_endpoint() throws on a connection that has been orphaned since its last use. */
  datatype SendEnv = SendEnv(resolve: ResolveOutcome, peerKnown: bool, connect: ConnectOutcome, write: WriteOutcome)

  /** A call of boost::asio::write: the peer of the socket it went to, and whether it completed. */
  datatype WriteRecord = WriteRecord(peer: Endpoint, packet: OutPacket, completed: bool)

  datatype SenderState = SenderState(socket: Socket, cache: map<string, Endpoint>, writes: seq<WriteRecord>)

  // --- the cache key ---

  function Digit(d: nat): char
    requires d < 10
  {
    ('0' as int + d) as char
  }

  /** std::to_string of an unsigned number. */
  function Decimal(n: nat): (s: string)
    ensures |s| > 0 && (|s| == 1 <==> n < 10)
    ensures forall i :: 0 <= i < |s| ==> s[i] != ':'
  {
    if n < 10 then [Digit(n)] else Decimal(n / 10) + [Digit(n % 10)]
  }

  /** The number decimal digits stand for. */
  function ValueOf(digits: string): int {
    if digits == [] then 0
    else
      var last := |digits| - 1;
      10 * ValueOf(digits[..last]) + (digits[last] as int - '0' as int)
  }

  lemma {:induction false} DecimalReads(n: nat)
    ensures ValueOf(Decimal(n)) == n
    ensures forall i :: 0 <= i < |Decimal(n)| ==> '0' <= Decimal(n)[i] <= '9'
  {
    if n >= 10 {
      DecimalReads(n / 10);
      assert Decimal(n)[..|Decimal(n)| - 1] == Decimal(n / 10);
    } else {
      assert Decimal(n)[..0] == [];
    }
  }

  lemma DecimalInjective(m: nat, n: nat)
    requires Decimal(m) == Decimal(n)
    ensures m == n
  {
    DecimalReads(m);
    DecimalReads(n);
  }

  function CacheKey(host: string, port: u16): string {
    host + ":" + Decimal(port)
  }

  /** Two destinations share a key only if they are the same, colons in the host or not. */
  lemma CacheKeyInjective(h1: string, p1: u16, h2: string, p2: u16)
    ensures CacheKey(h1, p1) == CacheKey(h2, p2) <==> h1 == h2 && p1 == p2
  {
    var k, d1, d2 := CacheKey(h1, p1), Decimal(p1), Decimal(p2);
    if k == CacheKey(h2, p2) {
      assert k[|h1|] == ':' && k[|h2|] == ':';
      assert forall i :: |h1| < i < |k| ==> k[i] == d1[i - |h1| - 1];
      assert forall i :: |h2| < i < |k| ==> k[i] == d2[i - |h2| - 1];
      assert h1 == k[..|h1|] == h2;
      assert d1 == k[|h1| + 1..] == d2;
      DecimalInjective(p1, p2);
    }
  }

  // --- what each call computes ---

  datatype Lookup = Found(endpoint: Endpoint) | NotFound(result: SendResult)

  /** The answer of a lookup that misses the cache. */
  function FreshLookup(outcome: ResolveOutcome): Lookup {
    match outcome
    case ResolveFailed(e) => NotFound(FromError(e))
    case Resolved(endpoints) =>
      if endpoints == [] then NotFound(SendResult(false, Unlisted(-1), "resolver")) else Found(endpoints[0])
  }

  function ResolveTarget<Key>(cache: map<Key, Endpoint>, key: Key, outcome: ResolveOutcome)
    : (map<Key, Endpoint>, Lookup)
  {
    if key in cache then (cache, Found(cache[key]))
    else
      var answer := FreshLookup(outcome);
      (if answer.Found? then cache[key := answer.endpoint] else cache, answer)
  }

  /** Opening the socket if need be and connecting it. */
  function SocketAfterConnect(endpoint: Endpoint, outcome: ConnectOutcome): Socket {
    match outcome
    case ConnectOk => Connected(endpoint)
    case ConnectFailed(_, leftOpen) => if leftOpen then Unconnected else Closed
  }

  predicate KeepsConnection(socket: Socket, target: Endpoint, peerKnown: bool) {
    socket.Connected? && peerKnown && socket.peer == target
  }

  /** Reconnecting if need be and writing to whatever peer the socket then has. */
  function Transmit(socket: Socket, writes: seq<WriteRecord>, packet: OutPacket, target: Endpoint, env: SendEnv)
    : (Socket, seq<WriteRecord>, SendResult)
  {
    var keeps := KeepsConnection(socket, target, env.peerKnown);
    var ready := if keeps then socket else SocketAfterConnect(target, env.connect);
    if ready.Connected? then
      match env.write
      case WriteOk => (ready, writes + [WriteRecord(ready.peer, packet, true)], SUCCESS)
      case WriteFailed(e) => (Closed, writes + [WriteRecord(ready.peer, packet, false)], FromError(e))
    else
      (ready, writes, FromError(env.connect.error))
  }

  function SendStep(s: SenderState, packet: OutPacket, host: string, port: u16, env: SendEnv)
    : (SenderState, SendResult)
  {
    var (cache, lookup) := ResolveTarget(s.cache, CacheKey(host, port), env.resolve);
    match lookup
    case NotFound(result) => (SenderState(s.socket, cache, s.writes), result)
    case Found(target) =>
      var (socket, writes, result) := Transmit(s.socket, s.writes, packet, target, env);
      (SenderState(socket, cache, writes), result)
  }

  /** The state the constructor leaves. */
  function Boot(host: string, port: u16, env: SendEnv): SenderState {
    var (cache, lookup) := ResolveTarget(map[], CacheKey(host, port), env.resolve);
    SenderState(if lookup.Found? then SocketAfterConnect(lookup.endpoint, env.connect) else Closed, cache, [])
  }

  /** The constructor leaves one cached endpoint, the first its host and port resolve to, and a connection to it if
      that could be made; or nothing at all. */
  lemma BootConnects(host: string, port: u16, env: SendEnv)
    ensures var s, r := Boot(host, port, env), env.resolve;
            && s.writes == []
            && if r.Resolved? && r.endpoints != [] then
                 && s.cache == map[host + ":" + Decimal(port) := r.endpoints[0]]
                 && (if env.connect.ConnectOk? then s.socket == Connected(r.endpoints[0]) else !s.socket.Connected?)
               else s.cache == map[] && s.socket == Closed
  {
  }

  // --- the class ---

  class TcpSender {
    var socket: Socket
    var endpoint: Endpoint
    var endpointCache: map<string, Endpoint>
    var writes: seq<WriteRecord>  // every boost::asio::write so far, oldest first
    const host: string
    const port: int

    function State(): SenderState
      reads this
    {
      SenderState(socket, endpointCache, writes)
    }

    /** The configured port is cast to uint16_t before it is used. */
    constructor (host: string, port: int, env: SendEnv)
      ensures State() == Boot(host, port % 0x1_0000, env)
    {
      this.host, this.port := host, port;
      socket, endpoint, endpointCache, writes := Closed, Endpoint("", 0), map[], [];
      new;
      var lookup := ResolveTargetEndpoint(host, port % 0x1_0000, env.resolve);
      if lookup.Found? {
        endpoint := lookup.endpoint;
        Connect(env.connect);
      }
    }

    method ResolveTargetEndpoint(targetHost: string, targetPort: u16, outcome: ResolveOutcome) returns (lookup: Lookup)
      modifies this`endpointCache
      ensures (endpointCache, lookup) == ResolveTarget(old(endpointCache), CacheKey(targetHost, targetPort), outcome)
    {
      var key := CacheKey(targetHost, targetPort);
      if key in endpointCache {
        return Found(endpointCache[key]);
      }
      if outcome.ResolveFailed? {
        return NotFound(FromError(outcome.error));
      }
      if outcome.endpoints == [] {
        return NotFound(SendResult(false, Unlisted(-1), "resolver"));
      }
      endpointCache := endpointCache[key := outcome.endpoints[0]];
      return Found(outcome.endpoints[0]);
    }

    method Connect(outcome: ConnectOutcome)
      modifies this`socket
      ensures socket == SocketAfterConnect(endpoint, outcome)
    {
      if !socket.Closed? {
        socket := Closed;
      }
      socket := SocketAfterConnect(endpoint, outcome);
    }

    method Send(packet: OutPacket, targetHost: string, targetPort: u16, env: SendEnv) returns (result: SendResult)
      modifies this`socket, this`endpointCache, this`writes
      ensures (State(), result) == SendStep(old(State()), packet, targetHost, targetPort, env)
    {
      var lookup := ResolveTargetEndpoint(targetHost, targetPort, env.resolve);
      if lookup.NotFound? {
        return lookup.result;
      }
      var target := lookup.endpoint;
      var needReconnect := false;
      match socket {
        case Closed => needReconnect := true;
        case Unconnected => needReconnect, socket := true, Closed;
        case Connected(peer) =>
          if !env.peerKnown || peer != target {
            needReconnect, socket := true, Closed;
          }
      }
      if needReconnect {
        socket := SocketAfterConnect(target, env.connect);
        if env.connect.ConnectFailed? {
          return FromError(env.connect.error);
        }
      }
      writes := writes + [WriteRecord(socket.peer, packet, env.write.WriteOk?)];
      if env.write.WriteFailed? {
        socket := Closed;
        return FromError(env.write.error);
      }
      return SUCCESS;
    }
  }

  // --- the cache refines one keyed by the pair ---

  datatype PairSender = PairSender(socket: Socket, cache: map<(string, u16), Endpoint>, writes: seq<WriteRecord>)

  /** The reference: the same sender with its cache keyed by (host, port). */
  function PairSendStep(s: PairSender, packet: OutPacket, host: string, port: u16, env: SendEnv)
    : (PairSender, SendResult)
  {
    var (cache, lookup) := ResolveTarget(s.cache, (host, port), env.resolve);
    match lookup
    case NotFound(result) => (PairSender(s.socket, cache, s.writes), result)
    case Found(target) =>
      var (socket, writes, result) := Transmit(s.socket, s.writes, packet, target, env);
      (PairSender(socket, cache, writes), result)
  }

  ghost predicate SameEntry(s: SenderState, p: PairSender, host: string, port: u16) {
    && (CacheKey(host, port) in s.cache <==> (host, port) in p.cache)
    && ((host, port) in p.cache ==> s.cache[CacheKey(host, port)] == p.cache[(host, port)])
  }

  ghost predicate Agree(s: SenderState, p: PairSender) {
    && s.socket == p.socket && s.writes == p.writes
    && forall host: string, port: u16 :: SameEntry(s, p, host, port)
  }

  /** Agreement survives every send, and both senders return the same result. */
  lemma SendRefinesPairKeyed(s: SenderState, p: PairSender, packet: OutPacket, host: string, port: u16, env: SendEnv)
    requires Agree(s, p)
    ensures Agree(SendStep(s, packet, host, port, env).0, PairSendStep(p, packet, host, port, env).0)
    ensures SendStep(s, packet, host, port, env).1 == PairSendStep(p, packet, host, port, env).1
  {
    var s', p' := SendStep(s, packet, host, port, env).0, PairSendStep(p, packet, host, port, env).0;
    assert SameEntry(s, p, host, port);
    forall h: string, q: u16
      ensures SameEntry(s', p', h, q)
    {
      assert SameEntry(s, p, h, q);
      CacheKeyInjective(h, q, host, port);
    }
  }

  // --- runs of sends ---

  datatype Request = Request(packet: OutPacket, host: string, port: u16, env: SendEnv)

  function RunSends(s: SenderState, requests: seq<Request>): SenderState {
    if requests == [] then s
    else
      var r := requests[|requests| - 1];
      SendStep(RunSends(s, requests[..|requests| - 1]), r.packet, r.host, r.port, r.env).0
  }

  function PairRun(s: PairSender, requests: seq<Request>): PairSender {
    if requests == [] then s
    else
      var r := requests[|requests| - 1];
      PairSendStep(PairRun(s, requests[..|requests| - 1]), r.packet, r.host, r.port, r.env).0
  }

  /** Over any run the two senders hold the same socket, the same writes and the same endpoints. */
  lemma {:induction false} RunRefinesPairKeyed(s: SenderState, p: PairSender, requests: seq<Request>)
    requires Agree(s, p)
    ensures Agree(RunSends(s, requests), PairRun(p, requests))
  {
    hide Agree, SendStep, PairSendStep;
    if requests != [] {
      var front, r := requests[..|requests| - 1], requests[|requests| - 1];
      RunRefinesPairKeyed(s, p, front);
      SendRefinesPairKeyed(RunSends(s, front), PairRun(p, front), r.packet, r.host, r.port, r.env);
    }
  }

  predicate Resolves(r: Request, host: string, port: u16) {
    r.host == host && r.port == port && r.env.resolve.Resolved? && r.env.resolve.endpoints != []
  }

  /** Request `i` is the first that finds (host, port) resolvable. */
  ghost predicate FirstResolution(requests: seq<Request>, host: string, port: u16, i: int) {
    && 0 <= i < |requests| && Resolves(requests[i], host, port)
    && forall j :: 0 <= j < i ==> !Resolves(requests[j], host, port)
  }

  ghost predicate NeverResolves(requests: seq<Request>, host: string, port: u16) {
    forall j :: 0 <= j < |requests| ==> !Resolves(requests[j], host, port)
  }

  /** One send fills the entry of (host, port) only when it is missing and the send resolves it. */
  lemma CacheAfterSend(s: SenderState, r: Request, host: string, port: u16)
    ensures var key, cache := CacheKey(host, port), SendStep(s, r.packet, r.host, r.port, r.env).0.cache;
            && (key in s.cache ==> key in cache && cache[key] == s.cache[key])
            && (key !in s.cache ==>
                  && (key in cache <==> Resolves(r, host, port))
                  && (key in cache ==> cache[key] == r.env.resolve.endpoints[0]))
  {
    hide CacheKey;
    CacheKeyInjective(host, port, r.host, r.port);
  }

  /** Over any run the entry of a destination that started uncached is what its first successful
      resolution answered, and it has one only if there was such a resolution; a cached one never changes. */
  lemma {:induction false} CacheHoldsFirstResolution(s: SenderState, requests: seq<Request>, host: string, port: u16)
    ensures var key, cache := CacheKey(host, port), RunSends(s, requests).cache;
            && (key in s.cache ==> key in cache && cache[key] == s.cache[key])
            && (key !in s.cache ==>
                  && (key in cache <==> !NeverResolves(requests, host, port))
                  && forall i :: FirstResolution(requests, host, port, i) ==>
                       key in cache && cache[key] == requests[i].env.resolve.endpoints[0])
  {
    hide CacheKey, SendStep, Resolves;
    if requests != [] {
      var last := |requests| - 1;
      var front, r := requests[..last], requests[last];
      CacheHoldsFirstResolution(s, front, host, port);
      CacheAfterSend(RunSends(s, front), r, host, port);
      forall i | 0 <= i < last
        ensures FirstResolution(requests, host, port, i) <==> FirstResolution(front, host, port, i)
      {
      }
    }
  }

  // --- which requests reach their write, and over which connection ---

  /** The sender after the first i requests. */
  function Before(s: SenderState, requests: seq<Request>, i: nat): SenderState
    requires i <= |requests|
  {
    RunSends(s, requests[..i])
  }

  /** Request i is for endpoint e: the one cached at the start, or else the first resolution up to then. */
  ghost predicate AimsAt(s: SenderState, requests: seq<Request>, i: nat, e: Endpoint)
    requires i < |requests|
  {
    var host, port := requests[i].host, requests[i].port;
    var key := CacheKey(host, port);
    if key in s.cache then e == s.cache[key]
    else
      exists j ::
        0 <= j <= i && FirstResolution(requests, host, port, j) && e == requests[j].env.resolve.endpoints[0]
  }

  ghost predicate Aims(s: SenderState, requests: seq<Request>, i: nat)
    requires i < |requests|
  {
    exists e :: AimsAt(s, requests, i, e)
  }

  /** Request i reached its write: the log is longer after it. */
  predicate Wrote(s: SenderState, requests: seq<Request>, i: nat)
    requires i < |requests|
  {
    |Before(s, requests, i + 1).writes| > |Before(s, requests, i).writes|
  }

  /** Request j is the last before i that had an endpoint to go to. */
  ghost predicate LastAimed(s: SenderState, requests: seq<Request>, i: nat, j: nat)
    requires i <= |requests|
  {
    j < i && Aims(s, requests, j) && forall x :: j < x < i ==> !Aims(s, requests, x)
  }

  ghost predicate NoneAimed(s: SenderState, requests: seq<Request>, i: nat)
    requires i <= |requests|
  {
    forall x :: 0 <= x < i ==> !Aims(s, requests, x)
  }

  /** The connection open when request i comes goes to e: the last request that had an endpoint had this one, wrote,
      and its write completed; or there was none, and it is the connection of the start. */
  ghost predicate ConnectionTo(s: SenderState, requests: seq<Request>, i: nat, e: Endpoint)
    requires i <= |requests|
  {
    || (NoneAimed(s, requests, i) && s.socket == Connected(e))
    || exists j: nat ::
         LastAimed(s, requests, i, j) && AimsAt(s, requests, j, e) && Wrote(s, requests, j)
         && requests[j].env.write.WriteOk?
  }

  /** What one send does, by the endpoint its lookup finds. */
  lemma SendFacts(s: SenderState, r: Request)
    ensures var (cache, lookup) := ResolveTarget(s.cache, CacheKey(r.host, r.port), r.env.resolve);
            var (after, result) := SendStep(s, r.packet, r.host, r.port, r.env);
            && after.cache == cache
            && match lookup
               case NotFound(_) => after.socket == s.socket && after.writes == s.writes && !result.success
               case Found(e) =>
                 var writes := r.env.connect.ConnectOk? || (s.socket == Connected(e) && r.env.peerKnown);
                 && after.writes ==
                    (if writes then s.writes + [WriteRecord(e, r.packet, r.env.write.WriteOk?)] else s.writes)
                 && (if writes && r.env.write.WriteOk? then after.socket == Connected(e) else !after.socket.Connected?)
                 && (result.success <==> writes && r.env.write.WriteOk?)
  {
    hide CacheKey;
  }

  lemma RunStep(s: SenderState, requests: seq<Request>, i: nat)
    requires i < |requests|
    ensures var r := requests[i];
            Before(s, requests, i + 1) == SendStep(Before(s, requests, i), r.packet, r.host, r.port, r.env).0
  {
    assert requests[..i + 1][..i] == requests[..i];
  }

  lemma {:induction false} SomeFirst(requests: seq<Request>, host: string, port: u16) returns (j: nat)
    requires !NeverResolves(requests, host, port)
    ensures FirstResolution(requests, host, port, j)
  {
    hide Resolves;
    var last := |requests| - 1;
    if NeverResolves(requests[..last], host, port) {
      j := last;
    } else {
      j := SomeFirst(requests[..last], host, port);
    }
  }

  lemma FirstOfPrefix(requests: seq<Request>, n: nat, host: string, port: u16, j: int)
    requires n <= |requests|
    ensures FirstResolution(requests[..n], host, port, j) <==> j < n && FirstResolution(requests, host, port, j)
  {
    hide Resolves;
  }

  /** After request i the entry of its key is the endpoint it aims at. */
  lemma EntryAims(s: SenderState, requests: seq<Request>, i: nat, e: Endpoint)
    requires i < |requests|
    ensures var key, cache := CacheKey(requests[i].host, requests[i].port), Before(s, requests, i + 1).cache;
            key in cache && cache[key] == e <==> AimsAt(s, requests, i, e)
  {
    hide CacheKey, RunSends, NeverResolves;
    var host, port, n := requests[i].host, requests[i].port, i + 1;
    var key, cache := CacheKey(host, port), Before(s, requests, n).cache;
    CacheHoldsFirstResolution(s, requests[..n], host, port);
    if key !in s.cache {
      if key in cache {
        var j := SomeFirst(requests[..n], host, port);
        FirstOfPrefix(requests, n, host, port, j);
      }
      forall j | 0 <= j <= i && FirstResolution(requests, host, port, j)
        ensures key in cache && cache[key] == requests[j].env.resolve.endpoints[0]
      {
        FirstOfPrefix(requests, n, host, port, j);
        FirstMeansSome(requests[..n], host, port, j);
      }
    }
  }

  lemma FirstMeansSome(requests: seq<Request>, host: string, port: u16, j: int)
    requires FirstResolution(requests, host, port, j)
    ensures !NeverResolves(requests, host, port)
  {
    hide Resolves;
  }

  /** The endpoint a lookup finds is the one the request aims at. */
  lemma LookupAims(s: SenderState, requests: seq<Request>, i: nat, e: Endpoint)
    requires i < |requests|
    ensures var r := requests[i];
            ResolveTarget(Before(s, requests, i).cache, CacheKey(r.host, r.port), r.env.resolve).1 == Found(e) <==>
            AimsAt(s, requests, i, e)
  {
    hide CacheKey, Resolves, SendStep, AimsAt, RunSends;
    EntryAims(s, requests, i, e);
    RunStep(s, requests, i);
    SendFacts(Before(s, requests, i), requests[i]);
  }

  /** One request, in terms of what it aims at. */
  lemma AimedStep(s: SenderState, requests: seq<Request>, i: nat)
    requires i < |requests|
    ensures forall e, f :: AimsAt(s, requests, i, e) && AimsAt(s, requests, i, f) ==> e == f
    ensures var r, before, after := requests[i], Before(s, requests, i), Before(s, requests, i + 1);
            && (!Aims(s, requests, i) ==> after.socket == before.socket && after.writes == before.writes)
            && forall e :: AimsAt(s, requests, i, e) ==>
                 var writes := r.env.connect.ConnectOk? || (before.socket == Connected(e) && r.env.peerKnown);
                 && after.writes ==
                    (if writes then before.writes + [WriteRecord(e, r.packet, r.env.write.WriteOk?)] else before.writes)
                 && (if writes && r.env.write.WriteOk? then after.socket == Connected(e) else !after.socket.Connected?)
  {
    hide CacheKey, SendStep, AimsAt, RunSends;
    var r, before := requests[i], Before(s, requests, i);
    RunStep(s, requests, i);
    SendFacts(before, r);
    var lookup := ResolveTarget(before.cache, CacheKey(r.host, r.port), r.env.resolve).1;
    hide ResolveTarget;
    if lookup.Found? {
      LookupAims(s, requests, i, lookup.endpoint);
    }
    forall e | AimsAt(s, requests, i, e) ensures lookup == Found(e) {
      LookupAims(s, requests, i, e);
    }
  }

  /** The socket is connected to e exactly when the requests so far leave a connection to it. */
  lemma {:induction false} SocketIsConnection(s: SenderState, requests: seq<Request>, i: nat, e: Endpoint)
    requires i <= |requests|
    ensures Before(s, requests, i).socket == Connected(e) <==> ConnectionTo(s, requests, i, e)
  {
    hide AimsAt, Aims, RunSends;
    if i == 0 {
      StartOfRun(s, requests);
    } else {
      var last := i - 1;
      SocketIsConnection(s, requests, last, e);
      AimedStep(s, requests, last);
      ConnectionStep(s, requests, last, e);
      hide ConnectionTo;
      if Aims(s, requests, last) {
        var f := AimedEndpoint(s, requests, last);
      }
    }
  }

  lemma AimedEndpoint(s: SenderState, requests: seq<Request>, i: nat) returns (e: Endpoint)
    requires i < |requests| && Aims(s, requests, i)
    ensures AimsAt(s, requests, i, e)
  {
    hide AimsAt;
    e :| AimsAt(s, requests, i, e);
  }

  lemma StartOfRun(s: SenderState, requests: seq<Request>)
    ensures Before(s, requests, 0) == s
  {
  }

  /** How the connection changes at one request. */
  lemma ConnectionStep(s: SenderState, requests: seq<Request>, i: nat, e: Endpoint)
    requires i < |requests|
    ensures ConnectionTo(s, requests, i + 1, e) <==>
            if Aims(s, requests, i)
            then AimsAt(s, requests, i, e) && Wrote(s, requests, i) && requests[i].env.write.WriteOk?
            else ConnectionTo(s, requests, i, e)
  {
    hide AimsAt, Wrote;
    var n := i + 1;
    if Aims(s, requests, i) {
      assert LastAimed(s, requests, n, i);
    } else {
      assert NoneAimed(s, requests, n) <==> NoneAimed(s, requests, i);
      forall j: nat ensures LastAimed(s, requests, n, j) <==> LastAimed(s, requests, i, j) {
      }
    }
  }

  /** Over any run a request writes exactly when it aims at an endpoint and either can connect to it, or finds the
      connection open to it and its peer still known; then it writes its packet there. */
  lemma WritesExactlyWhen(s: SenderState, requests: seq<Request>, i: nat)
    requires i < |requests|
    ensures var r := requests[i];
            var before, after := Before(s, requests, i).writes, Before(s, requests, i + 1).writes;
            if exists e :: AimsAt(s, requests, i, e) && (r.env.connect.ConnectOk?
                             || (r.env.peerKnown && ConnectionTo(s, requests, i, e)))
            then exists e :: AimsAt(s, requests, i, e)
                             && after == before + [WriteRecord(e, r.packet, r.env.write.WriteOk?)]
            else after == before
  {
    hide AimsAt, ConnectionTo, RunSends;
    AimedStep(s, requests, i);
    forall e ensures Before(s, requests, i).socket == Connected(e) <==> ConnectionTo(s, requests, i, e) {
      SocketIsConnection(s, requests, i, e);
    }
  }

  /** So after a write that failed nothing is written until a request connects afresh. */
  lemma FailedWriteReconnects(s: SenderState, requests: seq<Request>, i: nat, j: nat)
    requires i < j < |requests| && Wrote(s, requests, i) && requests[i].env.write.WriteFailed?
    requires forall x :: i < x < j ==> !Wrote(s, requests, x)
    requires Wrote(s, requests, j)
    ensures requests[j].env.connect.ConnectOk?
  {
    hide AimsAt, RunSends;
    AimedStep(s, requests, i);
    WritesExactlyWhen(s, requests, j);
  }
}
