/** Escalation of a persistently unhealthy terminal UI, and its durable cooldown. */
module UiRecovery {
  import opened Outcomes
  import opened Spacing
  import opened EvidenceRuns

  const STALE_SECONDS: real := 120.0
  const SPAN_SECONDS: real := 120.0
  const POOL_GAP: real := 120.0
  const SLOT_GAP: real := 900.0

  type SlotId = string

  datatype UiError = TerminalUiBusy | DialogUnavailable | CleanupFailed | UiTimeout | NotUi

  /** What the API reports of a slot; a missing or malformed heartbeat is `None`. */
  datatype Remote = Remote(
    id: SlotId, isError: bool, error: UiError, identity: Option<nat>, generation: Option<nat>,
    quarantined: bool, heartbeat: Option<real>)

  type Signature = (nat, nat)

  /** A fresh UI error of one session is evidence; anything else is unfit. */
  function SampleOf(slot: Remote, now: real): Sample<Signature> {
    if slot.isError && !slot.error.NotUi? && slot.identity.Some? && slot.generation.Some? && !slot.quarantined &&
       slot.heartbeat.Some? && 0.0 <= now - slot.heartbeat.value <= STALE_SECONDS
    then Fit((slot.identity.value, slot.generation.value), now)
    else Unfit
  }

  function EvidenceOf(observations: map<SlotId, Evidence<Signature>>, id: SlotId): Option<Evidence<Signature>> {
    if id in observations then Some(observations[id]) else None
  }

  ghost function TraceOf(traces: map<SlotId, seq<Sample<Signature>>>, id: SlotId): seq<Sample<Signature>> {
    if id in traces then traces[id] else []
  }

  ghost predicate AllKeep(
      observations: map<SlotId, Evidence<Signature>>, traces: map<SlotId, seq<Sample<Signature>>>)
  {
    forall id :: Keeps(EvidenceOf(observations, id), TraceOf(traces, id), STALE_SECONDS)
  }

  lemma SampleKept(
      observations: map<SlotId, Evidence<Signature>>, traces: map<SlotId, seq<Sample<Signature>>>,
      key: SlotId, sample: Sample<Signature>, after: map<SlotId, Evidence<Signature>>)
    requires AllKeep(observations, traces)
    requires EvidenceOf(after, key) == Extend(EvidenceOf(observations, key), sample, STALE_SECONDS)
    requires forall id :: id != key ==> EvidenceOf(after, id) == EvidenceOf(observations, id)
    ensures AllKeep(after, traces[key := TraceOf(traces, key) + [sample]])
  {
    ExtendKeeps(EvidenceOf(observations, key), TraceOf(traces, key), sample, STALE_SECONDS);
  }

  /** The stored numbers after one more sample, and whether they persist. */
  method Follow(observations: map<SlotId, Evidence<Signature>>, key: SlotId, sample: Sample<Signature>)
    returns (after: map<SlotId, Evidence<Signature>>, escalate: bool)
    ensures EvidenceOf(after, key) == Extend(EvidenceOf(observations, key), sample, STALE_SECONDS)
    ensures forall id :: id != key ==> EvidenceOf(after, id) == EvidenceOf(observations, id)
    ensures escalate <==>
              key in after && after[key].count >= 3 && after[key].last - after[key].first >= SPAN_SECONDS
  {
    escalate := false;
    match sample {
      case Unfit =>
        after := observations - {key};
      case Fit(signature, now) =>
        if key !in observations || observations[key].signature != signature ||
           now - observations[key].last > STALE_SECONDS {
          after := observations[key := Evidence(signature, now, now, 1)];
        } else {
          var previous := observations[key];
          after := observations[key := Evidence(signature, previous.first, now, previous.count + 1)];
          escalate := now - previous.first >= SPAN_SECONDS && previous.count + 1 >= 3;
        }
    }
  }

  class RecoveryBudget {
    var observations: map<SlotId, Evidence<Signature>>
    var store: Store
    ghost var traces: map<SlotId, seq<Sample<Signature>>>
    ghost var log: seq<(SlotId, real)>

    constructor ()
      ensures Valid() && log == [] && traces == map[]
    {
      observations, store := map[], Missing;
      traces, log := map[], [];
    }

    ghost function Trace(id: SlotId): seq<Sample<Signature>>
      reads this`traces
    {
      TraceOf(traces, id)
    }

    ghost predicate Valid()
      reads this
    {
      && AllKeep(observations, traces)
      && Throttled(log)
      && Remembers(store, log)
    }

    /**
     * Records one observation.  It asks for escalation exactly when the slot's current
     * run of fit samples has at least three members and spans at least 120 s.
     */
    method Observe(slot: Remote, now: real) returns (escalate: bool)
      requires Valid()
      modifies this`observations, this`traces
      ensures Valid()
      ensures Trace(slot.id) == old(Trace(slot.id)) +
                [if slot.isError && slot.error != NotUi && slot.identity != None && slot.generation != None &&
                    !slot.quarantined && slot.heartbeat != None && 0.0 <= now - slot.heartbeat.value <= 120.0
                 then Fit((slot.identity.value, slot.generation.value), now) else Unfit]
      ensures forall id :: id != slot.id ==> Trace(id) == old(Trace(id))
      ensures escalate <==> Persists(Trace(slot.id), STALE_SECONDS, 3, SPAN_SECONDS)
    {
      var sample := SampleOf(slot, now);
      var after;
      after, escalate := Follow(observations, slot.id, sample);
      SampleKept(observations, traces, slot.id, sample, after);
      observations, traces := after, traces[slot.id := TraceOf(traces, slot.id) + [sample]];
      PersistenceIsExact(EvidenceOf(observations, slot.id), Trace(slot.id), STALE_SECONDS, 3, SPAN_SECONDS);
    }

    /** A watchdog restart forgets the observations, never the cooldowns. */
    method Restart()
      requires Valid()
      modifies this`observations, this`traces
      ensures Valid() && log == old(log) && store == old(store)
      ensures observations == map[] && forall id :: Trace(id) == []
    {
      observations, traces := map[], map[];
    }

    /**
     * A recovery is reserved exactly when both durable cooldowns have passed.  A store that
     * cannot be read or written this time raises, and keeps its cooldowns for the next.
     */
    method Reserve(id: SlotId, now: real, readable: bool, writable: bool) returns (r: Result<bool, ()>)
      requires Valid()
      modifies this`store, this`log
      ensures Valid()
      ensures r.Err? <==> !readable || (Passed(old(store), id, now) && !writable)
      ensures r == Ok(true) <==> readable && writable && Passed(old(store), id, now)
      ensures readable ==>
                (r == Ok(false) <==>
                   || now < LastOr(Times(old(log)), 0.0) + 120.0
                   || now < LastOr(SlotTimes(old(log), id), 0.0) + 900.0)
      ensures log == if r == Ok(true) then old(log) + [(id, now)] else old(log)
      ensures r != Ok(true) ==> store == old(store)
    {
      if !readable {
        return Err(());
      }
      if !Passed(store, id, now) {
        return Ok(false);
      }
      if !writable {
        return Err(());
      }
      ReservationKept(store, log, id, now);
      store := Saved(now, Slots(store)[id := now]);
      log := log + [(id, now)];
      return Ok(true);
    }
  }

  // ------------------------------------------------------------------ the saved cooldowns

  datatype Store = Missing | Saved(pool: real, slots: map<SlotId, real>)

  /** A missing file reads as never, at time zero. */
  function Pool(s: Store): real {
    if s.Saved? then s.pool else 0.0
  }

  function Slots(s: Store): map<SlotId, real> {
    if s.Saved? then s.slots else map[]
  }

  function At(s: Store, id: SlotId): real {
    if id in Slots(s) then Slots(s)[id] else 0.0
  }

  ghost function Times(log: seq<(SlotId, real)>): seq<real> {
    seq(|log|, i requires 0 <= i < |log| => log[i].1)
  }

  ghost function SlotTimes(log: seq<(SlotId, real)>, id: SlotId): seq<real> {
    if log == [] then []
    else
      var rest := SlotTimes(log[..|log| - 1], id);
      if log[|log| - 1].0 == id then rest + [log[|log| - 1].1] else rest
  }

  /** Reservations lie 120 s apart in the pool and 900 s apart in a slot. */
  ghost predicate Throttled(log: seq<(SlotId, real)>) {
    Spaced(Times(log), POOL_GAP) && forall id :: Spaced(SlotTimes(log, id), SLOT_GAP)
  }

  ghost function LastOr(times: seq<real>, default: real): real {
    if times == [] then default else times[|times| - 1]
  }

  /** Both cooldowns have passed; a file that does not exist yet reads as never. */
  predicate Passed(s: Store, id: SlotId, now: real) {
    now - Pool(s) >= POOL_GAP && now - At(s, id) >= SLOT_GAP
  }

  /** The file holds the last reservation of the pool and of each slot. */
  ghost predicate Remembers(s: Store, log: seq<(SlotId, real)>) {
    Pool(s) == LastOr(Times(log), 0.0) && forall id :: At(s, id) == LastOr(SlotTimes(log, id), 0.0)
  }

  lemma ReservationKept(s: Store, log: seq<(SlotId, real)>, id: SlotId, now: real)
    requires Remembers(s, log) && Throttled(log) && Passed(s, id, now)
    ensures Throttled(log + [(id, now)]) && Remembers(Saved(now, Slots(s)[id := now]), log + [(id, now)])
  {
    var more := log + [(id, now)];
    assert more[..|more| - 1] == log;
    assert Times(more) == Times(log) + [now];
    SpacedPush(Times(log), POOL_GAP, now);
    forall other ensures Spaced(SlotTimes(more, other), SLOT_GAP) {
      if other == id {
        assert At(s, id) == LastOr(SlotTimes(log, id), 0.0);
        SpacedPush(SlotTimes(log, id), SLOT_GAP, now);
      }
    }
    var saved := Saved(now, Slots(s)[id := now]);
    forall other ensures At(saved, other) == LastOr(SlotTimes(more, other), 0.0) {
      assert At(s, other) == LastOr(SlotTimes(log, other), 0.0);
    }
  }
}
