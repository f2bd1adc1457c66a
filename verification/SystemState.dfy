/** The shared system state: delta updates, batches and snapshots. The class holds the
    fields and changes them in place; the functions say what each call computes; the
    lemmas tie both to a last-writer-wins reading of a batch. */
module SystemStates {
  import opened Wrappers
  import opened Bytes

  datatype StateUpdate = StateUpdate(
    systemMode: Option<string>,
    lradId: Option<u16>,
    cueingStatus: Option<string>,
    configuration: Option<string>,
    online: Option<bool>,
    engaged: Option<bool>,
    audioEnabled: Option<bool>,
    ladEnabled: Option<bool>,
    lrfEnabled: Option<bool>,
    inhibitionSector1: Option<real>,
    inhibitionSector2: Option<real>,
    swVersion: Option<string>)

  const EMPTY: StateUpdate :=
    StateUpdate(None, None, None, None, None, None, None, None, None, None, None, None)

  /** The fields under the mutex; a snapshot is a copy of all three. */
  datatype SystemData = SystemData(systemMode: string, lradStates: map<u16, StateUpdate>, lastUpdatedMs: nat)

  const INITIAL: SystemData := SystemData("", map[], 0)

  function Newer<T>(update: Option<T>, stored: Option<T>): Option<T> {
    if update.Some? then update else stored
  }

  /** One LRAD's entry after an update that names it: the eight stored fields, and only those. */
  function Merge(entry: StateUpdate, u: StateUpdate): StateUpdate {
    entry.(online := Newer(u.online, entry.online),
         engaged := Newer(u.engaged, entry.engaged),
         audioEnabled := Newer(u.audioEnabled, entry.audioEnabled),
         ladEnabled := Newer(u.ladEnabled, entry.ladEnabled),
         lrfEnabled := Newer(u.lrfEnabled, entry.lrfEnabled),
         inhibitionSector1 := Newer(u.inhibitionSector1, entry.inhibitionSector1),
         inhibitionSector2 := Newer(u.inhibitionSector2, entry.inhibitionSector2),
         swVersion := Newer(u.swVersion, entry.swVersion))
  }

  function Entry(s: SystemData, lrad: u16): StateUpdate {
    if lrad in s.lradStates then s.lradStates[lrad] else EMPTY
  }

  /** Whether an update carries a field the state recognises, whatever its value. */
  predicate Recognised(u: StateUpdate) {
    || u.systemMode.Some?
    || (u.lradId.Some? && CarriesStoredField(u))
  }

  predicate CarriesStoredField(u: StateUpdate) {
    || u.online.Some? || u.engaged.Some? || u.audioEnabled.Some? || u.ladEnabled.Some? || u.lrfEnabled.Some?
    || u.inhibitionSector1.Some? || u.inhibitionSector2.Some? || u.swVersion.Some?
  }

  function ApplyOne(s: SystemData, u: StateUpdate): SystemData {
    var mode := if u.systemMode.Some? then u.systemMode.value else s.systemMode;
    var lrads :=
      if u.lradId.Some? then s.lradStates[u.lradId.value := Merge(Entry(s, u.lradId.value), u)] else s.lradStates;
    SystemData(mode, lrads, s.lastUpdatedMs)
  }

  function ApplyAll(s: SystemData, us: seq<StateUpdate>): SystemData {
    if us == [] then s else ApplyOne(ApplyAll(s, us[..|us| - 1]), us[|us| - 1])
  }

  predicate AnyRecognised(us: seq<StateUpdate>) {
    exists i :: 0 <= i < |us| && Recognised(us[i])
  }

  /** A whole call, timestamp included. */
  function ApplyBatchAt(s: SystemData, us: seq<StateUpdate>, nowMs: nat): SystemData {
    if AnyRecognised(us) then ApplyAll(s, us).(lastUpdatedMs := nowMs) else ApplyAll(s, us)
  }

  // --- the class ---

  class SystemState {
    var systemMode: string
    var lradStates: map<u16, StateUpdate>
    var lastUpdatedMs: nat

    constructor ()
      ensures Data() == INITIAL
    {
      systemMode, lradStates, lastUpdatedMs := "", map[], 0;
    }

    function Data(): SystemData
      reads this
    {
      SystemData(systemMode, lradStates, lastUpdatedMs)
    }

    method Touch(nowMs: nat)
      modifies this`lastUpdatedMs
      ensures lastUpdatedMs == nowMs
    {
      lastUpdatedMs := nowMs;
    }

    method ApplyUnlocked(update: StateUpdate) returns (changed: bool)
      modifies this`systemMode, this`lradStates
      ensures Data() == ApplyOne(old(Data()), update)
      ensures changed <==> Recognised(update)
    {
      changed := false;
      if update.systemMode.Some? {
        systemMode, changed := update.systemMode.value, true;
      }
      if update.lradId.Some? {
        var id := update.lradId.value;
        var state := if id in lradStates then lradStates[id] else EMPTY;
        var flags, others;
        state, flags := MergeFlags(state, update);
        state, others := MergeOthers(state, update);
        changed := changed || flags || others;
        lradStates := lradStates[id := state];
      }
    }

    static method MergeFlags(entry: StateUpdate, update: StateUpdate) returns (state: StateUpdate, changed: bool)
      ensures state == entry.(online := Newer(update.online, entry.online),
                              engaged := Newer(update.engaged, entry.engaged),
                              audioEnabled := Newer(update.audioEnabled, entry.audioEnabled),
                              ladEnabled := Newer(update.ladEnabled, entry.ladEnabled),
                              lrfEnabled := Newer(update.lrfEnabled, entry.lrfEnabled))
      ensures changed <==> update.online.Some? || update.engaged.Some? || update.audioEnabled.Some?
                           || update.ladEnabled.Some? || update.lrfEnabled.Some?
    {
      state, changed := entry, false;
      if update.online.Some? {
        state, changed := state.(online := update.online), true;
      }
      if update.engaged.Some? {
        state, changed := state.(engaged := update.engaged), true;
      }
      if update.audioEnabled.Some? {
        state, changed := state.(audioEnabled := update.audioEnabled), true;
      }
      if update.ladEnabled.Some? {
        state, changed := state.(ladEnabled := update.ladEnabled), true;
      }
      if update.lrfEnabled.Some? {
        state, changed := state.(lrfEnabled := update.lrfEnabled), true;
      }
    }

    static method MergeOthers(entry: StateUpdate, update: StateUpdate) returns (state: StateUpdate, changed: bool)
      ensures state == entry.(inhibitionSector1 := Newer(update.inhibitionSector1, entry.inhibitionSector1),
                              inhibitionSector2 := Newer(update.inhibitionSector2, entry.inhibitionSector2),
                              swVersion := Newer(update.swVersion, entry.swVersion))
      ensures changed <==> update.inhibitionSector1.Some? || update.inhibitionSector2.Some? || update.swVersion.Some?
    {
      state, changed := entry, false;
      if update.inhibitionSector1.Some? {
        state, changed := state.(inhibitionSector1 := update.inhibitionSector1), true;
      }
      if update.inhibitionSector2.Some? {
        state, changed := state.(inhibitionSector2 := update.inhibitionSector2), true;
      }
      if update.swVersion.Some? {
        state, changed := state.(swVersion := update.swVersion), true;
      }
    }

    method GetSnapshot() returns (snapshot: SystemData)
      ensures snapshot == Data()
    {
      snapshot := SystemData(systemMode, lradStates, lastUpdatedMs);
    }

    method Apply(update: StateUpdate, nowMs: nat)
      modifies this
      ensures Data() == ApplyBatchAt(old(Data()), [update], nowMs)
    {
      ghost var batch := [update];
      assert batch[..0] == [] && batch[0] == update;
      assert ApplyAll(Data(), batch) == ApplyOne(ApplyAll(Data(), batch[..0]), batch[0]);
      var changed := ApplyUnlocked(update);
      if changed {
        Touch(nowMs);
      }
    }

    method ApplyBatch(updates: seq<StateUpdate>, nowMs: nat)
      modifies this
      ensures Data() == ApplyBatchAt(old(Data()), updates, nowMs)
    {
      var changed := false;
      for i := 0 to |updates|
        invariant Data() == ApplyAll(old(Data()), updates[..i])
        invariant changed <==> AnyRecognised(updates[..i])
      {
        var applied := ApplyUnlocked(updates[i]);
        changed := applied || changed;
        AnyRecognisedSnoc(updates[..i], updates[i]);
        assert updates[..i + 1] == updates[..i] + [updates[i]];
        assert updates[..i + 1][..i] == updates[..i];
      }
      assert updates[..|updates|] == updates;
      if changed {
        Touch(nowMs);
      }
    }
  }

  lemma AnyRecognisedSnoc(us: seq<StateUpdate>, u: StateUpdate)
    ensures AnyRecognised(us + [u]) <==> AnyRecognised(us) || Recognised(u)
  {
    if Recognised(u) {
      assert (us + [u])[|us|] == u;
    }
    if AnyRecognised(us) {
      var i :| 0 <= i < |us| && Recognised(us[i]);
      assert (us + [u])[i] == us[i];
    }
  }

  // --- last writer wins ---

  datatype StoredField =
    | Online | Engaged | AudioEnabled | LadEnabled | LrfEnabled
    | InhibitionSector1 | InhibitionSector2 | SwVersion

  datatype Value = Flag(b: bool) | Number(r: real) | Text(s: string)

  function Get(u: StateUpdate, f: StoredField): Option<Value> {
    match f
    case Online => OfFlag(u.online)
    case Engaged => OfFlag(u.engaged)
    case AudioEnabled => OfFlag(u.audioEnabled)
    case LadEnabled => OfFlag(u.ladEnabled)
    case LrfEnabled => OfFlag(u.lrfEnabled)
    case InhibitionSector1 => OfNumber(u.inhibitionSector1)
    case InhibitionSector2 => OfNumber(u.inhibitionSector2)
    case SwVersion => if u.swVersion.Some? then Some(Text(u.swVersion.value)) else None
  }

  function OfFlag(o: Option<bool>): Option<Value> {
    if o.Some? then Some(Flag(o.value)) else None
  }

  function OfNumber(o: Option<real>): Option<Value> {
    if o.Some? then Some(Number(o.value)) else None
  }

  /** Everything a batch can change: the system mode, and each stored field of each LRAD. */
  datatype Slot = ModeSlot | LradSlot(lrad: u16, field: StoredField)

  function Written(u: StateUpdate, slot: Slot): Option<Value> {
    match slot
    case ModeSlot => if u.systemMode.Some? then Some(Text(u.systemMode.value)) else None
    case LradSlot(lrad, f) => if u.lradId == Some(lrad) then Get(u, f) else None
  }

  function Read(s: SystemData, slot: Slot): Option<Value> {
    match slot
    case ModeSlot => Some(Text(s.systemMode))
    case LradSlot(lrad, f) => Get(Entry(s, lrad), f)
  }

  /** Update `i` is the last of the batch to write the slot. */
  ghost predicate LastWriter(us: seq<StateUpdate>, slot: Slot, i: int) {
    && 0 <= i < |us| && Written(us[i], slot).Some?
    && forall j :: i < j < |us| ==> Written(us[j], slot).None?
  }

  ghost predicate NoWriter(us: seq<StateUpdate>, slot: Slot) {
    forall j :: 0 <= j < |us| ==> Written(us[j], slot).None?
  }

  lemma OneWriterWins(s: SystemData, u: StateUpdate, slot: Slot)
    ensures Read(ApplyOne(s, u), slot) == if Written(u, slot).Some? then Written(u, slot) else Read(s, slot)
  {
    if slot.LradSlot? && u.lradId == Some(slot.lrad) {
      assert Entry(ApplyOne(s, u), slot.lrad) == Merge(Entry(s, slot.lrad), u);
    }
  }

  /** Every slot holds the last value the batch writes to it, else what it held before. */
  lemma {:induction false} LastWriterWins(s: SystemData, us: seq<StateUpdate>, slot: Slot)
    ensures NoWriter(us, slot) ==> Read(ApplyAll(s, us), slot) == Read(s, slot)
    ensures forall i :: LastWriter(us, slot, i) ==> Read(ApplyAll(s, us), slot) == Written(us[i], slot)
    ensures NoWriter(us, slot) || exists i :: LastWriter(us, slot, i)
  {
    hide Read, Written, ApplyOne;
    if us != [] {
      var front, last := us[..|us| - 1], us[|us| - 1];
      LastWriterWins(s, front, slot);
      OneWriterWins(ApplyAll(s, front), last, slot);
      if Written(last, slot).Some? {
        assert LastWriter(us, slot, |us| - 1);
      } else {
        forall i ensures LastWriter(us, slot, i) <==> LastWriter(front, slot, i) {
        }
      }
    }
  }

  predicate Names(us: seq<StateUpdate>, lrad: u16) {
    exists j :: 0 <= j < |us| && us[j].lradId == Some(lrad)
  }

  /** An LRAD has an entry exactly when it had one or the batch names it, even without setting a field. */
  lemma {:induction false} EntriesAreNamed(s: SystemData, us: seq<StateUpdate>, lrad: u16)
    ensures lrad in ApplyAll(s, us).lradStates <==> lrad in s.lradStates || Names(us, lrad)
  {
    if us != [] {
      var front, last := us[..|us| - 1], us[|us| - 1];
      EntriesAreNamed(s, front, lrad);
      if Names(front, lrad) {
        var j :| 0 <= j < |front| && front[j].lradId == Some(lrad);
        assert us[j].lradId == Some(lrad);
      }
      if last.lradId == Some(lrad) {
        assert us[|us| - 1].lradId == Some(lrad);
      }
    }
  }

  /** Only a batch with a recognised field moves the timestamp, and then to the clock's reading. */
  lemma {:induction false} TimestampOnlyByTouch(s: SystemData, us: seq<StateUpdate>, nowMs: nat)
    ensures ApplyAll(s, us).lastUpdatedMs == s.lastUpdatedMs
    ensures ApplyBatchAt(s, us, nowMs).lastUpdatedMs ==
            if exists slot, i :: 0 <= i < |us| && Written(us[i], slot).Some? then nowMs else s.lastUpdatedMs
  {
    if us != [] {
      TimestampOnlyByTouch(s, us[..|us| - 1], nowMs);
    }
    forall i | 0 <= i < |us|
      ensures Recognised(us[i]) <==> exists slot :: Written(us[i], slot).Some?
    {
      RecognisedIsWriting(us[i]);
    }
  }

  lemma RecognisedIsWriting(u: StateUpdate)
    ensures Recognised(u) <==> exists slot :: Written(u, slot).Some?
  {
    if u.systemMode.Some? {
      assert Written(u, ModeSlot).Some?;
    } else if u.lradId.Some? && CarriesStoredField(u) {
      var f :=
        if u.online.Some? then Online else if u.engaged.Some? then Engaged
        else if u.audioEnabled.Some? then AudioEnabled else if u.ladEnabled.Some? then LadEnabled
        else if u.lrfEnabled.Some? then LrfEnabled else if u.inhibitionSector1.Some? then InhibitionSector1
        else if u.inhibitionSector2.Some? then InhibitionSector2 else SwVersion;
      assert Written(u, LradSlot(u.lradId.value, f)).Some?;
    }
  }

  /** The four fields of an entry that no update stores. */
  predicate NothingElseStored(s: SystemData) {
    forall l :: l in s.lradStates ==>
      var e := s.lradStates[l];
      e.cueingStatus.None? && e.configuration.None? && e.systemMode.None? && e.lradId.None?
  }

  /** Whatever a batch carries in cueingStatus and configuration, no entry ever holds it. */
  lemma {:induction false} UnstoredFieldsStayEmpty(s: SystemData, us: seq<StateUpdate>)
    requires NothingElseStored(s)
    ensures NothingElseStored(ApplyAll(s, us))
  {
    if us != [] {
      UnstoredFieldsStayEmpty(s, us[..|us| - 1]);
    }
  }

  /** A batch is its parts applied in sequence. */
  lemma {:induction false} ApplyAllConcat(s: SystemData, us: seq<StateUpdate>, vs: seq<StateUpdate>)
    ensures ApplyAll(s, us + vs) == ApplyAll(ApplyAll(s, us), vs)
  {
    if vs == [] {
      assert us + vs == us;
    } else {
      assert (us + vs)[..|us + vs| - 1] == us + vs[..|vs| - 1];
      ApplyAllConcat(s, us, vs[..|vs| - 1]);
    }
  }

  /** Updates that name different LRADs (or none) and do not both set the mode commute. */
  lemma UpdatesCommute(s: SystemData, u: StateUpdate, v: StateUpdate)
    requires u.lradId.None? || v.lradId.None? || u.lradId != v.lradId
    requires u.systemMode.None? || v.systemMode.None?
    ensures ApplyOne(ApplyOne(s, u), v) == ApplyOne(ApplyOne(s, v), u)
  {
    assert ApplyOne(ApplyOne(s, u), v).lradStates == ApplyOne(ApplyOne(s, v), u).lradStates;
  }
}
