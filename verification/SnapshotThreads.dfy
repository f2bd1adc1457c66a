/** Several threads calling apply, applyBatch and getSnapshot on one SystemState. Each call takes the
    mutex, works in small steps (one update, the timestamp, one copied field) and releases it; steps of
    different threads interleave freely. Every snapshot is of a whole number of calls. */
module SnapshotThreads {
  import opened Wrappers
  import opened SystemStates

  /** apply(u) is the batch [u]. */
  datatype Call = ApplyBatch(updates: seq<StateUpdate>) | GetSnapshot

  /** Where a thread is in its call. `invoked`, `locked` and `touched` are the places in the schedule where it did so;
      they are only recorded, no step depends on them. */
  datatype Thread =
    | Outside
    | Waiting(call: Call, invoked: nat)
    | Updating(updates: seq<StateUpdate>, next: nat, changed: bool, invoked: nat, locked: nat)
    | Updated(updates: seq<StateUpdate>, nowMs: nat, invoked: nat, locked: nat, touched: nat)
    | Copying(copied: nat, partial: SystemData, invoked: nat, locked: nat)

  /** The thread of a call that has returned, and the places of its steps. */
  datatype Span = Span(thread: nat, invoked: nat, locked: nat, unlocked: nat)

  /** An update call that has returned, with the clock's reading when it was made to touch. */
  datatype Returned = Returned(updates: seq<StateUpdate>, nowMs: nat, touched: nat, span: Span)

  /** A snapshot that has been returned; `calls` counts the update calls that had returned by then. */
  datatype Taken = Taken(snapshot: SystemData, calls: nat, span: Span)

  datatype Machine = Machine(
    data: SystemData, holder: Option<nat>, threads: map<nat, Thread>, clock: nat,
    history: seq<Returned>, snapshots: seq<Taken>, now: nat)

  datatype Event =
    | Invoke(t: nat, call: Call)
    | Lock(t: nat)
    | UpdateOne(t: nat)
    | Touch(t: nat)
    | CopyField(t: nat)
    | Unlock(t: nat)
    | Tick(nowMs: nat)

  function At(m: Machine, t: nat): Thread {
    if t in m.threads then m.threads[t] else Outside
  }

  predicate Enabled(m: Machine, e: Event) {
    match e
    case Invoke(t, _) => At(m, t).Outside?
    case Lock(t) => At(m, t).Waiting? && m.holder == None
    case UpdateOne(t) => At(m, t).Updating? && At(m, t).next < |At(m, t).updates|
    case Touch(t) => At(m, t).Updating? && At(m, t).next == |At(m, t).updates|
    case CopyField(t) => At(m, t).Copying? && At(m, t).copied < 3
    case Unlock(t) => At(m, t).Updated? || (At(m, t).Copying? && At(m, t).copied == 3)
    case Tick(nowMs) => m.clock <= nowMs
  }

  function Put(m: Machine, t: nat, thread: Thread): Machine {
    m.(threads := m.threads[t := thread])
  }

  function Act(m: Machine, e: Event): Machine
    requires Enabled(m, e)
  {
    match e
    case Invoke(t, call) => Put(m, t, Waiting(call, m.now))
    case Lock(t) =>
      var w := At(m, t);
      var inside :=
        if w.call.GetSnapshot? then Copying(0, INITIAL, w.invoked, m.now)
        else Updating(w.call.updates, 0, false, w.invoked, m.now);
      Put(m, t, inside).(holder := Some(t))
    case UpdateOne(t) =>
      var w := At(m, t);
      var u := w.updates[w.next];
      Put(m, t, w.(next := w.next + 1, changed := Recognised(u) || w.changed)).(data := ApplyOne(m.data, u))
    case Touch(t) =>
      var w := At(m, t);
      var data := if w.changed then m.data.(lastUpdatedMs := m.clock) else m.data;
      Put(m, t, Updated(w.updates, m.clock, w.invoked, w.locked, m.now)).(data := data)
    case CopyField(t) =>
      var w := At(m, t);
      var partial :=
        if w.copied == 0 then w.partial.(systemMode := m.data.systemMode)
        else if w.copied == 1 then w.partial.(lradStates := m.data.lradStates)
        else w.partial.(lastUpdatedMs := m.data.lastUpdatedMs);
      Put(m, t, w.(copied := w.copied + 1, partial := partial))
    case Unlock(t) =>
      var w := At(m, t);
      var span := Span(t, w.invoked, w.locked, m.now);
      var left := Put(m, t, Outside).(holder := None);
      if w.Updated? then left.(history := m.history + [Returned(w.updates, w.nowMs, w.touched, span)])
      else left.(snapshots := m.snapshots + [Taken(w.partial, |m.history|, span)])
    case Tick(nowMs) => m.(clock := nowMs)
  }

  function Step(m: Machine, e: Event): Machine
    requires Enabled(m, e)
  {
    Act(m, e).(now := m.now + 1)
  }

  function Init(start: SystemData, clock: nat): Machine {
    Machine(start, None, map[], clock, [], [], 0)
  }

  function Replay(m: Machine, events: seq<Event>): Option<Machine> {
    if events == [] then Some(m)
    else
      var before := Replay(m, events[..|events| - 1]);
      if before.Some? && Enabled(before.value, events[|events| - 1])
      then Some(Step(before.value, events[|events| - 1]))
      else None
  }

  // --- the sequential reading ---

  /** The state after the first n update calls of the history, made one after the other. */
  function Linear(start: SystemData, history: seq<Returned>, n: nat): SystemData
    requires n <= |history|
  {
    if n == 0 then start
    else ApplyBatchAt(Linear(start, history, n - 1), history[n - 1].updates, history[n - 1].nowMs)
  }

  lemma {:induction false} LinearPrefix(start: SystemData, history: seq<Returned>, r: Returned, n: nat)
    requires n <= |history|
    ensures Linear(start, history + [r], n) == Linear(start, history, n)
  {
    if n > 0 {
      LinearPrefix(start, history, r, n - 1);
    }
  }

  // --- the invariant ---

  predicate Inside(w: Thread) { w.Updating? || w.Updated? || w.Copying? }

  ghost predicate LockInvariant(m: Machine) {
    forall t: nat :: Inside(At(m, t)) <==> m.holder == Some(t)
  }

  /** The shared data is what the returned calls make of it, plus the part of the holder's call that is done. */
  ghost predicate DataInvariant(start: SystemData, m: Machine) {
    var base := Linear(start, m.history, |m.history|);
    && base.lastUpdatedMs <= m.clock
    && match m.holder
       case None => m.data == base
       case Some(t) =>
         match At(m, t)
         case Updating(updates, next, changed, _, _) =>
           next <= |updates| && m.data == ApplyAll(base, updates[..next]) && changed == AnyRecognised(updates[..next])
         case Updated(updates, nowMs, _, _, _) =>
           m.data == ApplyBatchAt(base, updates, nowMs) && base.lastUpdatedMs <= nowMs <= m.clock
         case Copying(copied, partial, _, _) =>
           && m.data == base && copied <= 3
           && (copied > 0 ==> partial.systemMode == base.systemMode)
           && (copied > 1 ==> partial.lradStates == base.lradStates)
           && (copied > 2 ==> partial.lastUpdatedMs == base.lastUpdatedMs)
         case _ => false
  }

  /** What has been returned: snapshots of whole calls, with calls and times in order. */
  ghost predicate RecordInvariant(start: SystemData, m: Machine) {
    && (forall i :: 0 <= i < |m.snapshots| ==> Whole(start, m.history, m.snapshots[i]))
    && (forall i, j :: 0 <= i < j < |m.snapshots| ==> m.snapshots[i].calls <= m.snapshots[j].calls)
    && (forall i, j :: 0 <= i <= j <= |m.history| ==>
          Linear(start, m.history, i).lastUpdatedMs <= Linear(start, m.history, j).lastUpdatedMs)
  }

  ghost predicate Whole(start: SystemData, history: seq<Returned>, s: Taken) {
    s.calls <= |history| && s.snapshot == Linear(start, history, s.calls)
  }

  ghost predicate Invariant(start: SystemData, m: Machine) {
    LockInvariant(m) && DataInvariant(start, m) && RecordInvariant(start, m)
  }

  lemma LockStep(m: Machine, e: Event)
    requires LockInvariant(m) && Enabled(m, e)
    ensures LockInvariant(Step(m, e))
  {
    hide ApplyOne;
    var m' := Step(m, e);
    forall t: nat
      ensures Inside(At(m', t)) <==> m'.holder == Some(t)
    {
      assert Inside(At(m, t)) <==> m.holder == Some(t);
    }
  }

  lemma BatchPrefix(base: SystemData, updates: seq<StateUpdate>, next: nat)
    requires next < |updates|
    ensures ApplyAll(base, updates[..next + 1]) == ApplyOne(ApplyAll(base, updates[..next]), updates[next])
    ensures AnyRecognised(updates[..next + 1]) <==> AnyRecognised(updates[..next]) || Recognised(updates[next])
  {
    assert updates[..next + 1] == updates[..next] + [updates[next]];
    assert updates[..next + 1][..next] == updates[..next];
    AnyRecognisedSnoc(updates[..next], updates[next]);
  }

  lemma WholeBatch(base: SystemData, updates: seq<StateUpdate>, data: SystemData, changed: bool, nowMs: nat)
    requires data == ApplyAll(base, updates[..|updates|]) && changed == AnyRecognised(updates[..|updates|])
    ensures (if changed then data.(lastUpdatedMs := nowMs) else data) == ApplyBatchAt(base, updates, nowMs)
  {
    assert updates[..|updates|] == updates;
  }

  lemma DataStep(start: SystemData, m: Machine, e: Event)
    requires LockInvariant(m) && DataInvariant(start, m) && Enabled(m, e)
    ensures DataInvariant(start, Step(m, e))
  {
    match e {
      case Invoke(t, _) =>
        assert !Inside(At(m, t));
        hide ApplyAll, ApplyBatchAt, Linear;
      case Lock(t) =>
        assert At(m, t).call.ApplyBatch? ==> At(m, t).call.updates[..0] == [];
        hide ApplyBatchAt, Linear;
      case UpdateOne(t) => UpdateStep(start, m, t);
      case Touch(t) => TouchStep(start, m, t);
      case CopyField(t) =>
        assert Inside(At(m, t));
        hide ApplyAll, ApplyBatchAt, Linear;
      case Unlock(t) =>
        assert Inside(At(m, t));
        if At(m, t).Updated? {
          UnlockUpdated(start, m, t);
        }
        hide ApplyAll, ApplyBatchAt, Linear;
      case Tick(_) => hide ApplyAll, ApplyBatchAt, Linear;
    }
  }

  lemma UpdateStep(start: SystemData, m: Machine, t: nat)
    requires LockInvariant(m) && DataInvariant(start, m) && Enabled(m, UpdateOne(t))
    ensures DataInvariant(start, Step(m, UpdateOne(t)))
  {
    assert Inside(At(m, t));
    BatchPrefix(Linear(start, m.history, |m.history|), At(m, t).updates, At(m, t).next);
    hide ApplyAll, ApplyBatchAt, ApplyOne, AnyRecognised, Linear;
  }

  lemma TouchStep(start: SystemData, m: Machine, t: nat)
    requires LockInvariant(m) && DataInvariant(start, m) && Enabled(m, Touch(t))
    ensures DataInvariant(start, Step(m, Touch(t)))
  {
    assert Inside(At(m, t));
    WholeBatch(Linear(start, m.history, |m.history|), At(m, t).updates, m.data, At(m, t).changed, m.clock);
    hide ApplyAll, ApplyBatchAt, AnyRecognised, Linear;
  }

  /** Returning from an update call adds that call to the history and nothing to the data. */
  lemma UnlockUpdated(start: SystemData, m: Machine, t: nat)
    requires DataInvariant(start, m) && m.holder == Some(t) && At(m, t).Updated?
    ensures var m' := Step(m, Unlock(t));
            && Linear(start, m'.history, |m'.history|) == m'.data == m.data
            && Linear(start, m.history, |m.history|).lastUpdatedMs <= m'.data.lastUpdatedMs <= m.clock
  {
    var w := At(m, t);
    LinearPrefix(start, m.history, Act(m, Unlock(t)).history[|m.history|], |m.history|);
    TimestampOnlyByTouch(Linear(start, m.history, |m.history|), w.updates, w.nowMs);
  }

  lemma RecordStep(start: SystemData, m: Machine, e: Event)
    requires Invariant(start, m) && Enabled(m, e)
    ensures RecordInvariant(start, Step(m, e))
  {
    if e.Unlock? {
      assert Inside(At(m, e.t));
      if At(m, e.t).Updated? {
        HistoryGrows(start, m, e.t);
      } else {
        SnapshotTaken(start, m, e.t);
      }
    }
  }

  lemma SnapshotTaken(start: SystemData, m: Machine, t: nat)
    requires Invariant(start, m) && Enabled(m, Unlock(t)) && m.holder == Some(t) && At(m, t).Copying?
    ensures RecordInvariant(start, Step(m, Unlock(t)))
  {
    hide ApplyBatchAt, Linear;
    assert Whole(start, m.history, Step(m, Unlock(t)).snapshots[|m.snapshots|]);
  }

  lemma LinearUnchanged(start: SystemData, m: Machine, t: nat)
    requires m.holder == Some(t) && At(m, t).Updated?
    ensures var m' := Step(m, Unlock(t));
            forall i :: 0 <= i <= |m.history| ==> Linear(start, m'.history, i) == Linear(start, m.history, i)
  {
    var m' := Step(m, Unlock(t));
    forall i | 0 <= i <= |m.history|
      ensures Linear(start, m'.history, i) == Linear(start, m.history, i)
    {
      LinearPrefix(start, m.history, m'.history[|m.history|], i);
    }
  }

  // The record invariant when the history grows, part by part.

  lemma StillWhole(start: SystemData, before: seq<Returned>, after: seq<Returned>, snapshots: seq<Taken>)
    requires |before| <= |after|
    requires forall i :: 0 <= i <= |before| ==> Linear(start, after, i) == Linear(start, before, i)
    requires forall i :: 0 <= i < |snapshots| ==> Whole(start, before, snapshots[i])
    ensures forall i :: 0 <= i < |snapshots| ==> Whole(start, after, snapshots[i])
  {
    hide Linear;
    forall i | 0 <= i < |snapshots| ensures Whole(start, after, snapshots[i]) {
      assert Whole(start, before, snapshots[i]);
    }
  }

  lemma StillForward(start: SystemData, before: seq<Returned>, after: seq<Returned>)
    requires |after| == |before| + 1
    requires forall i :: 0 <= i <= |before| ==> Linear(start, after, i) == Linear(start, before, i)
    requires forall i, j :: 0 <= i <= j <= |before| ==>
               Linear(start, before, i).lastUpdatedMs <= Linear(start, before, j).lastUpdatedMs
    requires Linear(start, before, |before|).lastUpdatedMs <= Linear(start, after, |after|).lastUpdatedMs
    ensures forall i, j :: 0 <= i <= j <= |after| ==>
              Linear(start, after, i).lastUpdatedMs <= Linear(start, after, j).lastUpdatedMs
  {
    hide Linear;
    forall i, j | 0 <= i <= j <= |after|
      ensures Linear(start, after, i).lastUpdatedMs <= Linear(start, after, j).lastUpdatedMs
    {
      if j == |after| && i <= |before| {
        assert Linear(start, before, i).lastUpdatedMs <= Linear(start, before, |before|).lastUpdatedMs;
      }
    }
  }

  lemma HistoryGrows(start: SystemData, m: Machine, t: nat)
    requires Invariant(start, m) && m.holder == Some(t) && At(m, t).Updated?
    ensures RecordInvariant(start, Step(m, Unlock(t)))
  {
    var m' := Step(m, Unlock(t));
    LinearUnchanged(start, m, t);
    UnlockUpdated(start, m, t);
    hide ApplyBatchAt, Linear;
    StillWhole(start, m.history, m'.history, m.snapshots);
    StillForward(start, m.history, m'.history);
  }

  lemma InvariantStep(start: SystemData, m: Machine, e: Event)
    requires Invariant(start, m) && Enabled(m, e)
    ensures Invariant(start, Step(m, e))
  {
    hide LockInvariant, DataInvariant, RecordInvariant, Step;
    LockStep(m, e);
    DataStep(start, m, e);
    RecordStep(start, m, e);
  }

  lemma {:induction false} InvariantHolds(start: SystemData, clock: nat, events: seq<Event>)
    requires start.lastUpdatedMs <= clock && Replay(Init(start, clock), events).Some?
    ensures Invariant(start, Replay(Init(start, clock), events).value)
  {
    if events == [] {
      InitialInvariant(start, clock);
    } else {
      hide Invariant, Step;
      var front, e := events[..|events| - 1], events[|events| - 1];
      InvariantHolds(start, clock, front);
      InvariantStep(start, Replay(Init(start, clock), front).value, e);
    }
  }

  lemma InitialInvariant(start: SystemData, clock: nat)
    requires start.lastUpdatedMs <= clock
    ensures Invariant(start, Init(start, clock))
  {
  }
}
