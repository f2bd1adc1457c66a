/** What every schedule of calls on the SystemState amounts to: the calls that return, or are in progress, are the
    ones the schedule invokes, with their updates and with clock readings of the schedule; they take effect one after
    the other, each between its invocation and its return; and every call can be brought to return. */
module SnapshotTraces {
  import opened Wrappers
  import opened SystemStates
  import opened SnapshotThreads

  // --- the schedule ---

  /** The clock's reading before event n: the last tick's. */
  function ClockAt(clock: nat, events: seq<Event>, n: nat): nat
    requires n <= |events|
  {
    if n == 0 then clock
    else if events[n - 1].Tick? then events[n - 1].nowMs
    else ClockAt(clock, events, n - 1)
  }

  /** Thread t neither makes a call nor returns from one strictly between lo and hi. */
  predicate Quiet(events: seq<Event>, t: nat, lo: nat, hi: nat)
    requires hi <= |events|
  {
    forall x :: lo < x < hi ==> events[x] != Unlock(t) && !(events[x].Invoke? && events[x].t == t)
  }

  // --- what the machine records is what the schedule says ---

  predicate MadeAt(events: seq<Event>, t: nat, call: Call, invoked: nat, n: nat)
    requires n <= |events|
  {
    invoked < n && events[invoked] == Invoke(t, call) && Quiet(events, t, invoked, n)
  }

  predicate LockedAt(events: seq<Event>, t: nat, invoked: nat, locked: nat, n: nat)
    requires n <= |events|
  {
    invoked < locked < n && events[locked] == Lock(t)
  }

  predicate TouchedAt(clock: nat, events: seq<Event>, t: nat, locked: nat, touched: nat, nowMs: nat, n: nat)
    requires n <= |events|
  {
    locked < touched < n && events[touched] == Touch(t) && nowMs == ClockAt(clock, events, touched)
  }

  /** The call thread t is in after n events is its last, and it has got as far as the schedule says. */
  predicate CallTraced(clock: nat, events: seq<Event>, n: nat, t: nat, w: Thread)
    requires n <= |events|
  {
    match w
    case Outside => true
    case Waiting(call, invoked) => MadeAt(events, t, call, invoked, n)
    case Updating(updates, _, _, invoked, locked) =>
      MadeAt(events, t, ApplyBatch(updates), invoked, n) && LockedAt(events, t, invoked, locked, n)
    case Updated(updates, nowMs, invoked, locked, touched) =>
      MadeAt(events, t, ApplyBatch(updates), invoked, n) && LockedAt(events, t, invoked, locked, n)
      && TouchedAt(clock, events, t, locked, touched, nowMs, n)
    case Copying(_, _, invoked, locked) =>
      MadeAt(events, t, GetSnapshot, invoked, n) && LockedAt(events, t, invoked, locked, n)
  }

  /** A call that returned within the first n events: made, locked and unlocked by its thread, with no other call of
      that thread in between. */
  predicate SpanTraced(events: seq<Event>, n: nat, call: Call, s: Span)
    requires n <= |events|
  {
    && s.invoked < s.locked < s.unlocked < n
    && events[s.locked] == Lock(s.thread) && events[s.unlocked] == Unlock(s.thread)
    && MadeAt(events, s.thread, call, s.invoked, s.unlocked)
  }

  predicate UpdateTraced(clock: nat, events: seq<Event>, n: nat, r: Returned)
    requires n <= |events|
  {
    && SpanTraced(events, n, ApplyBatch(r.updates), r.span)
    && TouchedAt(clock, events, r.span.thread, r.span.locked, r.touched, r.nowMs, r.span.unlocked)
  }

  /** The call made at x is in progress or has returned. */
  predicate Accounted(m: Machine, t: nat, x: nat) {
    || (!At(m, t).Outside? && At(m, t).invoked == x)
    || (exists k :: 0 <= k < |m.history| && m.history[k].span.invoked == x)
    || (exists i :: 0 <= i < |m.snapshots| && m.snapshots[i].span.invoked == x)
  }

  ghost predicate ThreadsTraced(clock: nat, events: seq<Event>, n: nat, m: Machine)
    requires n <= |events|
  {
    m.now == n && m.clock == ClockAt(clock, events, n) && forall t: nat :: CallTraced(clock, events, n, t, At(m, t))
  }

  ghost predicate RecordsTraced(clock: nat, events: seq<Event>, n: nat, m: Machine)
    requires n <= |events|
  {
    && (forall k :: 0 <= k < |m.history| ==> UpdateTraced(clock, events, n, m.history[k]))
    && (forall i :: 0 <= i < |m.snapshots| ==> SpanTraced(events, n, GetSnapshot, m.snapshots[i].span))
  }

  ghost predicate AllAccounted(events: seq<Event>, n: nat, m: Machine)
    requires n <= |events|
  {
    forall x :: 0 <= x < n && events[x].Invoke? ==> Accounted(m, events[x].t, x)
  }

  /** Events that are not a call or return of thread t leave its trace as it is. */
  lemma TraceKept(clock: nat, events: seq<Event>, n: nat, t: nat, w: Thread)
    requires n < |events| && CallTraced(clock, events, n, t, w)
    requires w.Outside? || Quiet(events, t, n - 1, n + 1)
    ensures CallTraced(clock, events, n + 1, t, w)
  {
    hide ClockAt;
  }

  /** The thread that takes event n. */
  lemma TraceMoved(clock: nat, events: seq<Event>, n: nat, m: Machine, t: nat)
    requires n < |events| && m.now == n && m.clock == ClockAt(clock, events, n) && Enabled(m, events[n])
    requires CallTraced(clock, events, n, t, At(m, t)) && !events[n].Tick? && events[n].t == t
    ensures CallTraced(clock, events, n + 1, t, At(Step(m, events[n]), t))
  {
    hide ApplyOne, ClockAt;
    if !events[n].Invoke? && !events[n].Unlock? {
      TraceKept(clock, events, n, t, At(m, t));
    }
  }

  lemma StepTracesThreads(clock: nat, events: seq<Event>, n: nat, m: Machine)
    requires n < |events| && ThreadsTraced(clock, events, n, m) && Enabled(m, events[n])
    ensures ThreadsTraced(clock, events, n + 1, Step(m, events[n]))
  {
    var e, m' := events[n], Step(m, events[n]);
    forall t: nat ensures CallTraced(clock, events, n + 1, t, At(m', t)) {
      if !e.Tick? && e.t == t {
        TraceMoved(clock, events, n, m, t);
      } else {
        OtherUnmoved(m, e, t);
        hide CallTraced;
        TraceKept(clock, events, n, t, At(m, t));
      }
    }
    hide CallTraced, ApplyOne;
  }

  lemma OtherUnmoved(m: Machine, e: Event, t: nat)
    requires Enabled(m, e) && (e.Tick? || e.t != t)
    ensures At(Step(m, e), t) == At(m, t)
  {
    hide ApplyOne;
  }

  lemma StepTracesRecords(clock: nat, events: seq<Event>, n: nat, m: Machine)
    requires n < |events| && ThreadsTraced(clock, events, n, m) && RecordsTraced(clock, events, n, m)
    requires Enabled(m, events[n])
    ensures RecordsTraced(clock, events, n + 1, Step(m, events[n]))
  {
    hide ApplyOne, ClockAt;
    if events[n].Unlock? {
      assert CallTraced(clock, events, n, events[n].t, At(m, events[n].t));
    }
  }

  /** A call that is accounted for stays so. */
  lemma StaysAccounted(m: Machine, e: Event, t: nat, x: nat)
    requires Enabled(m, e) && Accounted(m, t, x)
    ensures Accounted(Step(m, e), t, x)
  {
    hide ApplyOne;
    var m' := Step(m, e);
    if k :| 0 <= k < |m.history| && m.history[k].span.invoked == x {
      assert m'.history[k].span.invoked == x;
    } else if i :| 0 <= i < |m.snapshots| && m.snapshots[i].span.invoked == x {
      assert m'.snapshots[i].span.invoked == x;
    } else if e == Unlock(t) {
      if At(m, t).Updated? {
        assert m'.history[|m.history|].span.invoked == x;
      } else {
        assert m'.snapshots[|m.snapshots|].span.invoked == x;
      }
    } else if !e.Tick? && e.t == t {
      assert At(m', t).invoked == x;
    } else {
      OtherUnmoved(m, e, t);
    }
  }

  lemma StepAccounts(clock: nat, events: seq<Event>, n: nat, m: Machine)
    requires n < |events| && m.now == n && AllAccounted(events, n, m) && Enabled(m, events[n])
    ensures AllAccounted(events, n + 1, Step(m, events[n]))
  {
    forall x | 0 <= x < n + 1 && events[x].Invoke?
      ensures Accounted(Step(m, events[n]), events[x].t, x)
    {
      if x < n {
        hide Step, Accounted;
        StaysAccounted(m, events[n], events[x].t, x);
      }
    }
  }

  // --- one after the other ---

  function LockPlace(w: Thread): nat
    requires Inside(w)
  {
    w.locked
  }

  /** The calls that returned held the lock one after the other: each from before its `locked` to its `unlocked`; and a
      snapshot comes behind as many update calls as it counts. */
  ghost predicate InLockOrder(m: Machine) {
    && (forall k :: 0 <= k < |m.history| ==> m.history[k].span.unlocked < m.now)
    && (forall i :: 0 <= i < |m.snapshots| ==> m.snapshots[i].span.unlocked < m.now)
    && (forall k, l :: 0 <= k < l < |m.history| ==> m.history[k].span.unlocked < m.history[l].span.locked)
    && (forall i, j :: 0 <= i < j < |m.snapshots| ==> m.snapshots[i].span.unlocked < m.snapshots[j].span.locked)
    && (forall i, k :: 0 <= i < |m.snapshots| && 0 <= k < |m.history| ==> InCount(m.snapshots[i], m.history[k], k))
  }

  predicate InCount(s: Taken, r: Returned, k: nat) {
    if k < s.calls then r.span.unlocked < s.span.locked else s.span.unlocked < r.span.locked
  }

  /** All that has returned did so before the holder got the lock. */
  ghost predicate BeforeHolder(m: Machine) {
    forall t: nat :: Inside(At(m, t)) ==>
      && LockPlace(At(m, t)) < m.now
      && (forall k :: 0 <= k < |m.history| ==> m.history[k].span.unlocked < LockPlace(At(m, t)))
      && (forall i :: 0 <= i < |m.snapshots| ==> m.snapshots[i].span.unlocked < LockPlace(At(m, t)))
  }

  lemma StepOrders(m: Machine, e: Event)
    requires InLockOrder(m) && BeforeHolder(m) && Enabled(m, e)
    requires forall i :: 0 <= i < |m.snapshots| ==> m.snapshots[i].calls <= |m.history|
    ensures InLockOrder(Step(m, e))
  {
    hide ApplyOne;
    if e.Unlock? {
      assert Inside(At(m, e.t));
    }
  }

  lemma StepBeforeHolder(m: Machine, e: Event)
    requires LockInvariant(m) && InLockOrder(m) && BeforeHolder(m) && Enabled(m, e)
    ensures BeforeHolder(Step(m, e))
  {
    hide ApplyOne;
    var m' := Step(m, e);
    forall t: nat | Inside(At(m', t))
      ensures LockPlace(At(m', t)) < m'.now
      ensures forall k :: 0 <= k < |m'.history| ==> m'.history[k].span.unlocked < LockPlace(At(m', t))
      ensures forall i :: 0 <= i < |m'.snapshots| ==> m'.snapshots[i].span.unlocked < LockPlace(At(m', t))
    {
      assert Inside(At(m, t)) <==> m.holder == Some(t);
    }
  }

  // --- every schedule ---

  ghost predicate Traced(clock: nat, events: seq<Event>, n: nat, m: Machine)
    requires n <= |events|
  {
    && ThreadsTraced(clock, events, n, m) && RecordsTraced(clock, events, n, m) && AllAccounted(events, n, m)
    && InLockOrder(m) && BeforeHolder(m)
  }

  lemma PrefixReplays(m: Machine, events: seq<Event>, n: nat)
    requires n < |events| && Replay(m, events[..n + 1]).Some?
    ensures Replay(m, events[..n]).Some? && Enabled(Replay(m, events[..n]).value, events[n])
    ensures Replay(m, events[..n + 1]) == Some(Step(Replay(m, events[..n]).value, events[n]))
  {
    assert events[..n + 1][..n] == events[..n];
  }

  lemma InitialTrace(start: SystemData, clock: nat, events: seq<Event>)
    ensures Traced(clock, events, 0, Init(start, clock))
  {
  }

  lemma TracedStep(start: SystemData, clock: nat, events: seq<Event>, n: nat, m: Machine)
    requires n < |events| && Traced(clock, events, n, m) && Invariant(start, m) && Enabled(m, events[n])
    ensures Traced(clock, events, n + 1, Step(m, events[n]))
  {
    hide Step, ClockAt, DataInvariant, InLockOrder, BeforeHolder, RecordsTraced, AllAccounted;
    StepTracesThreads(clock, events, n, m);
    StepTracesRecords(clock, events, n, m);
    StepAccounts(clock, events, n, m);
    CountsFit(start, m);
    StepOrders(m, events[n]);
    StepBeforeHolder(m, events[n]);
  }

  lemma CountsFit(start: SystemData, m: Machine)
    requires RecordInvariant(start, m)
    ensures forall i :: 0 <= i < |m.snapshots| ==> m.snapshots[i].calls <= |m.history|
  {
    hide Linear;
    forall i | 0 <= i < |m.snapshots| ensures m.snapshots[i].calls <= |m.history| {
      assert Whole(start, m.history, m.snapshots[i]);
    }
  }

  lemma {:induction false} TraceHolds(start: SystemData, clock: nat, events: seq<Event>, n: nat)
    requires n <= |events| && start.lastUpdatedMs <= clock && Replay(Init(start, clock), events[..n]).Some?
    ensures Traced(clock, events, n, Replay(Init(start, clock), events[..n]).value)
  {
    hide Traced, Step, Invariant;
    if n == 0 {
      InitialTrace(start, clock, events);
    } else {
      PrefixReplays(Init(start, clock), events, n - 1);
      TraceHolds(start, clock, events, n - 1);
      InvariantHolds(start, clock, events[..n - 1]);
      TracedStep(start, clock, events, n - 1, Replay(Init(start, clock), events[..n - 1]).value);
    }
  }

  /** Two calls were made at different places and held the lock at different times; and if one thread made both, the
      first had returned when it made the second. */
  predicate Apart(s: Span, r: Span) {
    && s.invoked != r.invoked
    && (s.unlocked < r.locked || r.unlocked < s.locked)
    && (s.thread == r.thread ==> s.unlocked < r.invoked || r.unlocked < s.invoked)
  }

  lemma OrderedAreApart(events: seq<Event>, n: nat, c: Call, s: Span, d: Call, r: Span)
    requires n <= |events| && SpanTraced(events, n, c, s) && SpanTraced(events, n, d, r) && s.unlocked < r.locked
    ensures Apart(s, r)
  {
  }

  ghost predicate AllApart(m: Machine) {
    && (forall k, l :: 0 <= k < l < |m.history| ==> Apart(m.history[k].span, m.history[l].span))
    && (forall i, j :: 0 <= i < j < |m.snapshots| ==> Apart(m.snapshots[i].span, m.snapshots[j].span))
    && (forall i, k :: 0 <= i < |m.snapshots| && 0 <= k < |m.history| ==>
          Apart(m.snapshots[i].span, m.history[k].span))
  }

  /** The call a thread is in was made after all its others had returned. */
  ghost predicate PendingIsLast(m: Machine) {
    forall t: nat :: !At(m, t).Outside? ==>
      && (forall k :: 0 <= k < |m.history| && m.history[k].span.thread == t ==>
            m.history[k].span.unlocked < At(m, t).invoked)
      && (forall i :: 0 <= i < |m.snapshots| && m.snapshots[i].span.thread == t ==>
            m.snapshots[i].span.unlocked < At(m, t).invoked)
  }

  lemma TracedAreApart(clock: nat, events: seq<Event>, n: nat, m: Machine)
    requires n <= |events| && RecordsTraced(clock, events, n, m) && InLockOrder(m)
    ensures AllApart(m)
  {
    hide ClockAt, SpanTraced, Apart;
    forall k, l | 0 <= k < l < |m.history| ensures Apart(m.history[k].span, m.history[l].span) {
      OrderedAreApart(events, n, ApplyBatch(m.history[k].updates), m.history[k].span,
                      ApplyBatch(m.history[l].updates), m.history[l].span);
    }
    forall i, j | 0 <= i < j < |m.snapshots| ensures Apart(m.snapshots[i].span, m.snapshots[j].span) {
      OrderedAreApart(events, n, GetSnapshot, m.snapshots[i].span, GetSnapshot, m.snapshots[j].span);
    }
    forall i, k | 0 <= i < |m.snapshots| && 0 <= k < |m.history|
      ensures Apart(m.snapshots[i].span, m.history[k].span)
    {
      var s, r := m.snapshots[i], m.history[k];
      assert InCount(s, r, k);
      if k < s.calls {
        OrderedAreApart(events, n, ApplyBatch(r.updates), r.span, GetSnapshot, s.span);
        ApartEitherWay(r.span, s.span);
      } else {
        OrderedAreApart(events, n, GetSnapshot, s.span, ApplyBatch(r.updates), r.span);
      }
    }
  }

  lemma ApartEitherWay(s: Span, r: Span)
    ensures Apart(s, r) <==> Apart(r, s)
  {
  }

  lemma ReturnedBeforePending(clock: nat, events: seq<Event>, n: nat, w: Thread, c: Call, s: Span)
    requires n <= |events| && SpanTraced(events, n, c, s) && CallTraced(clock, events, n, s.thread, w) && !w.Outside?
    ensures s.unlocked < w.invoked
  {
    hide ClockAt;
  }

  lemma TracedArePending(clock: nat, events: seq<Event>, n: nat, m: Machine)
    requires n <= |events| && RecordsTraced(clock, events, n, m) && ThreadsTraced(clock, events, n, m)
    ensures PendingIsLast(m)
  {
    hide SpanTraced, CallTraced, ClockAt;
    forall t: nat, k | !At(m, t).Outside? && 0 <= k < |m.history| && m.history[k].span.thread == t
      ensures m.history[k].span.unlocked < At(m, t).invoked
    {
      ReturnedBeforePending(clock, events, n, At(m, t), ApplyBatch(m.history[k].updates), m.history[k].span);
    }
    forall t: nat, i | !At(m, t).Outside? && 0 <= i < |m.snapshots| && m.snapshots[i].span.thread == t
      ensures m.snapshots[i].span.unlocked < At(m, t).invoked
    {
      ReturnedBeforePending(clock, events, n, At(m, t), GetSnapshot, m.snapshots[i].span);
    }
  }

  /** In every schedule the calls that have returned and the ones in progress are exactly the calls the schedule makes:
      each record is of an Invoke of its thread, with the updates given there, and of the Lock, Touch and Unlock that
      follow it, with the clock's reading at the Touch; each Invoke has its record or is in progress; and no two
      records share an Invoke, so that one thread's come in the order in which it made them. */
  lemma CallsAreTheSchedules(start: SystemData, clock: nat, events: seq<Event>)
    requires start.lastUpdatedMs <= clock && Replay(Init(start, clock), events).Some?
    ensures var m, n := Replay(Init(start, clock), events).value, |events|;
            && RecordsTraced(clock, events, n, m)
            && (forall t: nat :: CallTraced(clock, events, n, t, At(m, t)))
            && AllAccounted(events, n, m) && AllApart(m) && PendingIsLast(m)
  {
    hide CallTraced, RecordsTraced, AllAccounted, AllApart, PendingIsLast, InLockOrder, BeforeHolder;
    var n := |events|;
    assert events[..n] == events;
    TraceHolds(start, clock, events, n);
    TracedAreApart(clock, events, n, Replay(Init(start, clock), events).value);
    TracedArePending(clock, events, n, Replay(Init(start, clock), events).value);
  }

  /** Under any interleaving: snapshot i is the state after the first `calls` update calls of the history, made one
      after the other, and those are exactly the ones that had the lock before it; so it holds every call that returned
      before it was asked for, and none that was made after it was returned. Later snapshots are of no fewer calls
      and of no earlier time, no update call of the history was made after a later one of it had returned, and no two
      threads are ever inside the lock. */
  lemma SnapshotsAreAtomic(start: SystemData, clock: nat, events: seq<Event>, i: nat, j: nat)
    requires start.lastUpdatedMs <= clock && Replay(Init(start, clock), events).Some?
    requires i <= j < |Replay(Init(start, clock), events).value.snapshots|
    ensures var m := Replay(Init(start, clock), events).value;
            var s, r := m.snapshots[i], m.snapshots[j];
            && s.calls <= |m.history| && s.snapshot == Linear(start, m.history, s.calls)
            && (forall k :: 0 <= k < |m.history| ==> PlacedBy(s, m.history[k], k))
            && s.calls <= r.calls && s.snapshot.lastUpdatedMs <= r.snapshot.lastUpdatedMs
            && (forall k, l :: 0 <= k <= l < |m.history| ==> m.history[k].span.invoked < m.history[l].span.unlocked)
            && forall t: nat, u: nat :: Inside(At(m, t)) && Inside(At(m, u)) ==> t == u
  {
    hide Linear, Inside, PlacedBy, DataInvariant, InLockOrder, RecordsTraced, RecordInvariant, BeforeHolder;
    assert events[..|events|] == events;
    TraceHolds(start, clock, events, |events|);
    InvariantHolds(start, clock, events);
    var m := Replay(Init(start, clock), events).value;
    RecordsMean(start, m, i, j);
    PlacesMean(clock, events, |events|, m, i);
    OneHolder(m);
  }

  /** Whether update call k is in the snapshot: if it is, it left the lock before the snapshot took it, and if it had
      returned when the snapshot was asked for, it is; if it is not, it took the lock after the snapshot left it, and
      if it was made after the snapshot was returned, it is not. */
  predicate PlacedBy(s: Taken, r: Returned, k: nat) {
    && InCount(s, r, k)
    && (r.span.unlocked < s.span.invoked ==> k < s.calls)
    && (s.span.unlocked < r.span.invoked ==> s.calls <= k)
  }

  lemma OneHolder(m: Machine)
    requires LockInvariant(m)
    ensures forall t: nat, u: nat :: Inside(At(m, t)) && Inside(At(m, u)) ==> t == u
  {
    hide Inside;
    assert forall t: nat :: Inside(At(m, t)) <==> m.holder == Some(t);
  }

  lemma RecordsMean(start: SystemData, m: Machine, i: nat, j: nat)
    requires RecordInvariant(start, m) && i <= j < |m.snapshots|
    ensures m.snapshots[i].calls <= |m.history|
    ensures m.snapshots[i].snapshot == Linear(start, m.history, m.snapshots[i].calls)
    ensures m.snapshots[i].calls <= m.snapshots[j].calls
    ensures m.snapshots[i].snapshot.lastUpdatedMs <= m.snapshots[j].snapshot.lastUpdatedMs
  {
    hide Linear;
    assert Whole(start, m.history, m.snapshots[i]) && Whole(start, m.history, m.snapshots[j]);
  }

  lemma PlacesMean(clock: nat, events: seq<Event>, n: nat, m: Machine, i: nat)
    requires n <= |events| && RecordsTraced(clock, events, n, m) && InLockOrder(m) && i < |m.snapshots|
    ensures forall k :: 0 <= k < |m.history| ==> PlacedBy(m.snapshots[i], m.history[k], k)
    ensures forall k, l :: 0 <= k <= l < |m.history| ==> m.history[k].span.invoked < m.history[l].span.unlocked
  {
    hide ClockAt;
    forall k | 0 <= k < |m.history|
      ensures m.history[k].span.invoked < m.history[k].span.locked < m.history[k].span.unlocked
      ensures PlacedBy(m.snapshots[i], m.history[k], k)
    {
      assert UpdateTraced(clock, events, n, m.history[k]);
      assert InCount(m.snapshots[i], m.history[k], k);
    }
  }

  // --- no batch is lost or made up ---

  function BatchOf(call: Call): multiset<seq<StateUpdate>> {
    if call.ApplyBatch? then multiset{call.updates} else multiset{}
  }

  /** The batches a schedule hands to applyBatch. */
  function Invoked(events: seq<Event>): multiset<seq<StateUpdate>> {
    if events == [] then multiset{}
    else
      var e := events[|events| - 1];
      Invoked(events[..|events| - 1]) + if e.Invoke? then BatchOf(e.call) else multiset{}
  }

  function Finished(history: seq<Returned>): multiset<seq<StateUpdate>> {
    if history == [] then multiset{}
    else Finished(history[..|history| - 1]) + multiset{history[|history| - 1].updates}
  }

  function PendingOf(w: Thread): multiset<seq<StateUpdate>> {
    match w
    case Waiting(call, _) => BatchOf(call)
    case Updating(updates, _, _, _, _) => multiset{updates}
    case Updated(updates, _, _, _, _) => multiset{updates}
    case _ => multiset{}
  }

  /** The batches threads 0 to n - 1 are in the middle of. */
  function Pending(m: Machine, n: nat): multiset<seq<StateUpdate>> {
    if n == 0 then multiset{} else Pending(m, n - 1) + PendingOf(At(m, n - 1))
  }

  predicate ThreadsBelow(events: seq<Event>, n: nat) {
    forall x :: 0 <= x < |events| ==> events[x].Tick? || events[x].t < n
  }

  lemma AddLast<T>(p: multiset<T>, p': multiset<T>, own: multiset<T>, own': multiset<T>, rest: multiset<T>)
    requires p' + own == p + own'
    ensures p' + rest + own == p + rest + own'
  {
    forall b ensures (p' + rest + own)[b] == (p + rest + own')[b] {
      assert (p' + own)[b] == (p + own')[b];
    }
  }

  lemma Swap<T>(p: multiset<T>, own: multiset<T>, own': multiset<T>)
    ensures p + own' + own == p + own + own'
  {
  }

  /** One thread's part of the sum changes with that thread. */
  lemma {:induction false} PendingChange(m: Machine, m': Machine, t: nat, n: nat)
    requires forall u: nat :: u != t ==> At(m', u) == At(m, u)
    ensures t < n ==> Pending(m', n) + PendingOf(At(m, t)) == Pending(m, n) + PendingOf(At(m', t))
    ensures n <= t ==> Pending(m', n) == Pending(m, n)
  {
    hide PendingOf, At;
    if n > 0 {
      var last := n - 1;
      var own, own' := PendingOf(At(m, t)), PendingOf(At(m', t));
      PendingChange(m, m', t, last);
      var p, p', rest := Pending(m, last), Pending(m', last), PendingOf(At(m, last));
      assert Pending(m, n) == p + rest && Pending(m', n) == p' + PendingOf(At(m', last));
      hide Pending;
      if t < last {
        AddLast(p, p', own, own', rest);
      } else if t == last {
        Swap(p, own, own');
      }
    }
  }

  lemma FinishedSnoc(history: seq<Returned>, r: Returned)
    ensures Finished(history + [r]) == Finished(history) + multiset{r.updates}
  {
    assert (history + [r])[..|history|] == history;
  }

  /** What a step does to the call of the thread that takes it, and to the history. */
  lemma OwnStep(m: Machine, e: Event)
    requires Enabled(m, e) && !e.Tick?
    ensures var m', w, w' := Step(m, e), At(m, e.t), At(Step(m, e), e.t);
            if e.Invoke? then m'.history == m.history && w.Outside? && w' == Waiting(e.call, m.now)
            else if e.Unlock? then
              && w'.Outside?
              && if w.Updated? then |m'.history| == |m.history| + 1 && m'.history[..|m.history|] == m.history
                                    && m'.history[|m.history|].updates == w.updates
                 else m'.history == m.history && w.Copying?
            else m'.history == m.history && PendingOf(w') == PendingOf(w)
  {
    hide ApplyOne, PendingOf;
    if !e.Invoke? && !e.Unlock? {
      InsideKeepsBatch(m, e);
    }
  }

  lemma InsideKeepsBatch(m: Machine, e: Event)
    requires Enabled(m, e) && !e.Tick? && !e.Invoke? && !e.Unlock?
    ensures PendingOf(At(Step(m, e), e.t)) == PendingOf(At(m, e.t))
  {
    hide ApplyOne;
  }

  lemma OwnConserves(m: Machine, e: Event)
    requires Enabled(m, e) && !e.Tick?
    ensures var m' := Step(m, e);
            Finished(m'.history) + PendingOf(At(m', e.t)) ==
            Finished(m.history) + PendingOf(At(m, e.t)) + if e.Invoke? then BatchOf(e.call) else multiset{}
  {
    hide Finished, Step, BatchOf;
    OwnStep(m, e);
    var history, history' := m.history, Step(m, e).history;
    if e.Unlock? && At(m, e.t).Updated? {
      FinishedSnoc(history, history'[|history|]);
      assert history' == history + [history'[|history|]];
    }
  }

  lemma Cancel<T>(f: multiset<T>, f': multiset<T>, p: multiset<T>, p': multiset<T>,
                  own: multiset<T>, own': multiset<T>, made: multiset<T>)
    requires p' + own == p + own' && f' + own' == f + own + made
    ensures f' + p' == f + p + made
  {
    forall b ensures (f' + p')[b] == (f + p + made)[b] {
      assert (p' + own)[b] == (p + own')[b] && (f' + own')[b] == (f + own + made)[b];
    }
  }

  /** A step neither loses a batch nor makes one up. */
  lemma StepConserves(m: Machine, e: Event, n: nat)
    requires Enabled(m, e) && (e.Tick? || e.t < n)
    ensures var m' := Step(m, e);
            Finished(m'.history) + Pending(m', n) ==
            Finished(m.history) + Pending(m, n) + if e.Invoke? then BatchOf(e.call) else multiset{}
  {
    hide Finished, Pending, PendingOf, BatchOf;
    var m' := Step(m, e);
    if e.Tick? {
      hide Step;
      TickUnmoved(m, e, n);
    } else {
      forall u: nat | u != e.t ensures At(m', u) == At(m, u) {
        OtherUnmoved(m, e, u);
      }
      hide Step;
      PendingChange(m, m', e.t, n);
      OwnConserves(m, e);
      Cancel(Finished(m.history), Finished(m'.history), Pending(m, n), Pending(m', n),
             PendingOf(At(m, e.t)), PendingOf(At(m', e.t)),
             if e.Invoke? then BatchOf(e.call) else multiset{});
    }
  }

  lemma TickUnmoved(m: Machine, e: Event, n: nat)
    requires Enabled(m, e) && e.Tick?
    ensures Step(m, e).history == m.history && Pending(Step(m, e), n) == Pending(m, n)
  {
    PendingChange(m, Step(m, e), n, n);
  }

  /** The batches returned and the batches in progress are, with their multiplicities, the batches handed in. */
  lemma {:induction false} BatchesConserved(start: SystemData, clock: nat, events: seq<Event>, n: nat)
    requires Replay(Init(start, clock), events).Some? && ThreadsBelow(events, n)
    ensures var m := Replay(Init(start, clock), events).value;
            Finished(m.history) + Pending(m, n) == Invoked(events)
  {
    hide Step;
    if events == [] {
      NothingPending(start, clock, n);
    } else {
      var front, e := events[..|events| - 1], events[|events| - 1];
      BatchesConserved(start, clock, front, n);
      StepConserves(Replay(Init(start, clock), front).value, e, n);
    }
  }

  lemma {:induction false} NothingPending(start: SystemData, clock: nat, n: nat)
    ensures Pending(Init(start, clock), n) == multiset{}
  {
    if n > 0 {
      NothingPending(start, clock, n - 1);
    }
  }

  // --- every call can return ---

  function StepsLeft(w: Thread): nat
    requires Inside(w)
  {
    match w
    case Updating(updates, next, _, _, _) => if next <= |updates| then |updates| - next + 2 else 0
    case Updated(_, _, _, _, _) => 1
    case Copying(copied, _, _, _) => if copied <= 3 then 4 - copied else 0
  }

  function NextEvent(w: Thread, t: nat): Event
    requires Inside(w)
  {
    match w
    case Updating(updates, next, _, _, _) => if next < |updates| then UpdateOne(t) else Touch(t)
    case Updated(_, _, _, _, _) => Unlock(t)
    case Copying(copied, _, _, _) => if copied < 3 then CopyField(t) else Unlock(t)
  }

  lemma HolderMoves(start: SystemData, m: Machine, t: nat)
    requires Invariant(start, m) && Inside(At(m, t))
    ensures var e := NextEvent(At(m, t), t);
            && Enabled(m, e)
            && var m' := Step(m, e);
               && (forall u: nat :: u != t ==> At(m', u) == At(m, u))
               && if e.Unlock? then At(m', t).Outside? && m'.holder == None
                  else Inside(At(m', t)) && StepsLeft(At(m', t)) < StepsLeft(At(m, t))
  {
    hide Linear, ApplyAll, ApplyBatchAt, ApplyOne, RecordInvariant;
    assert Inside(At(m, t)) <==> m.holder == Some(t);
  }

  lemma {:induction false} ReplayThen(m: Machine, e: Event, events: seq<Event>)
    requires Enabled(m, e)
    ensures Replay(m, [e] + events) == Replay(Step(m, e), events)
  {
    hide Step, Enabled;
    if events == [] {
      assert Replay(m, ([e] + events)[..0]) == Some(m);
    } else {
      assert ([e] + events)[..|events|] == [e] + events[..|events| - 1];
      ReplayThen(m, e, events[..|events| - 1]);
    }
  }

  lemma {:induction false} ReplayConcat(m: Machine, xs: seq<Event>, ys: seq<Event>)
    requires Replay(m, xs).Some?
    ensures Replay(m, xs + ys) == Replay(Replay(m, xs).value, ys)
  {
    hide Step, Enabled;
    if ys == [] {
      assert xs + ys == xs;
    } else {
      assert (xs + ys)[..|xs + ys| - 1] == xs + ys[..|ys| - 1];
      ReplayConcat(m, xs, ys[..|ys| - 1]);
    }
  }

  predicate Only(events: seq<Event>, threads: set<nat>) {
    forall x :: 0 <= x < |events| ==> !events[x].Invoke? && !events[x].Tick? && events[x].t in threads
  }

  /** The holder of the lock can always go on alone until it has returned. */
  lemma {:induction false} HolderReturns(start: SystemData, m: Machine, t: nat) returns (events: seq<Event>)
    requires Invariant(start, m) && Inside(At(m, t))
    ensures Only(events, {t}) && Replay(m, events).Some?
    ensures var m' := Replay(m, events).value;
            && Invariant(start, m') && At(m', t).Outside? && m'.holder == None
            && forall u: nat :: u != t ==> At(m', u) == At(m, u)
    decreases StepsLeft(At(m, t))
  {
    hide Invariant, Step, Enabled, Inside;
    var e := NextEvent(At(m, t), t);
    HolderMoves(start, m, t);
    InvariantStep(start, m, e);
    var rest := [];
    if !e.Unlock? {
      rest := HolderReturns(start, Step(m, e), t);
    }
    ReplayThen(m, e, rest);
    NextIsOwn(At(m, t), t);
    events := [e] + rest;
  }

  lemma NextIsOwn(w: Thread, t: nat)
    requires Inside(w)
    ensures var e := NextEvent(w, t); !e.Invoke? && !e.Tick? && e.t == t
  {
  }

  /** Whatever the state, a call that has been made can be brought to return by steps of its own thread, once the
      thread that holds the lock has left it. */
  lemma CallReturns(start: SystemData, m: Machine, t: nat) returns (events: seq<Event>)
    requires Invariant(start, m) && !At(m, t).Outside?
    ensures Only(events, if m.holder.Some? then {t, m.holder.value} else {t})
    ensures Replay(m, events).Some? && At(Replay(m, events).value, t).Outside?
  {
    hide DataInvariant, RecordInvariant, Step;
    if Inside(At(m, t)) {
      events := HolderReturns(start, m, t);
    } else {
      var before, m' := [], m;
      if m.holder.Some? {
        before := HolderReturns(start, m, m.holder.value);
        m' := Replay(m, before).value;
      }
      WaiterLocks(start, m', t);
      var inside := Step(m', Lock(t));
      var after := HolderReturns(start, inside, t);
      ReplayThen(m', Lock(t), after);
      ReplayConcat(m, before, [Lock(t)] + after);
      events := before + ([Lock(t)] + after);
    }
  }

  /** A thread outside can make any call, and it can return. */
  lemma AnyCallReturns(start: SystemData, m: Machine, t: nat, call: Call) returns (events: seq<Event>)
    requires Invariant(start, m) && At(m, t).Outside?
    ensures events != [] && events[0] == Invoke(t, call)
    ensures Replay(m, events).Some? && At(Replay(m, events).value, t).Outside?
  {
    InvariantStep(start, m, Invoke(t, call));
    var rest := CallReturns(start, Step(m, Invoke(t, call)), t);
    ReplayThen(m, Invoke(t, call), rest);
    events := [Invoke(t, call)] + rest;
  }

  lemma WaiterLocks(start: SystemData, m: Machine, t: nat)
    requires Invariant(start, m) && At(m, t).Waiting? && m.holder == None
    ensures Enabled(m, Lock(t)) && Invariant(start, Step(m, Lock(t))) && Inside(At(Step(m, Lock(t)), t))
  {
    InvariantStep(start, m, Lock(t));
  }
}
