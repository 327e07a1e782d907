/** The durable restart budget: one attempt per slot is stored, the whole admission log is summarised. */
module RestartBudget {
  import opened Outcomes
  import opened Spacing

  const POOL_GAP: real := 120.0
  const SLOT_GAP: real := 900.0

  type SlotKey = string
  type Identity = nat

  datatype Attempt = Attempt(identity: Identity, at: real)

  datatype Admission = Admission(slot: SlotKey, identity: Identity, at: real)

  datatype Reservation = Admitted | AlreadyReserved | Cooldown | Unavailable

  ghost function Times(log: seq<Admission>): seq<real> {
    seq(|log|, i requires 0 <= i < |log| => log[i].at)
  }

  /** The admission times of one slot. */
  ghost function SlotTimes(log: seq<Admission>, slot: SlotKey): seq<real> {
    if log == [] then []
    else
      var rest := SlotTimes(log[..|log| - 1], slot);
      if log[|log| - 1].slot == slot then rest + [log[|log| - 1].at] else rest
  }

  ghost function LastOf(log: seq<Admission>, slot: SlotKey): Option<Attempt> {
    if log == [] then None
    else if log[|log| - 1].slot == slot then Some(Attempt(log[|log| - 1].identity, log[|log| - 1].at))
    else LastOf(log[..|log| - 1], slot)
  }

  function Lookup(attempts: map<SlotKey, Attempt>, slot: SlotKey): Option<Attempt> {
    if slot in attempts then Some(attempts[slot]) else None
  }

  /** The table holds each slot's last admission, and its maximum is the last admission of all. */
  ghost predicate Summarises(attempts: map<SlotKey, Attempt>, log: seq<Admission>) {
    && (forall slot :: Lookup(attempts, slot) == LastOf(log, slot))
    && (log == [] <==> attempts == map[])
    && (log != [] ==>
          var last := log[|log| - 1];
          last.slot in attempts && attempts[last.slot].at == last.at &&
          forall slot :: slot in attempts ==> attempts[slot].at <= last.at)
  }

  /** Admissions lie 120 s apart in the pool and 900 s apart in a slot. */
  ghost predicate Throttled(log: seq<Admission>) {
    Spaced(Times(log), POOL_GAP) && forall slot :: Spaced(SlotTimes(log, slot), SLOT_GAP)
  }

  lemma {:induction false} LastSlotTime(log: seq<Admission>, slot: SlotKey)
    ensures SlotTimes(log, slot) == [] <==> LastOf(log, slot).None?
    ensures LastOf(log, slot).Some? ==>
              var times := SlotTimes(log, slot); times[|times| - 1] == LastOf(log, slot).value.at
  {
    if log != [] {
      LastSlotTime(log[..|log| - 1], slot);
    }
  }

  /** Admitting one more keeps the summary and the throttle. */
  lemma AdmissionKept(
      attempts: map<SlotKey, Attempt>, log: seq<Admission>, slot: SlotKey, identity: Identity, now: real)
    requires Summarises(attempts, log) && Throttled(log)
    requires log != [] ==> now - log[|log| - 1].at >= POOL_GAP
    requires slot in attempts ==> now - attempts[slot].at >= SLOT_GAP
    ensures Summarises(attempts[slot := Attempt(identity, now)], log + [Admission(slot, identity, now)])
    ensures Throttled(log + [Admission(slot, identity, now)])
  {
    var more := log + [Admission(slot, identity, now)];
    assert more[..|more| - 1] == log;
    assert Times(more) == Times(log) + [now];
    SpacedPush(Times(log), POOL_GAP, now);
    forall s ensures Lookup(attempts[slot := Attempt(identity, now)], s) == LastOf(more, s) {
      assert Lookup(attempts, s) == LastOf(log, s);
    }
    forall s ensures Spaced(SlotTimes(more, s), SLOT_GAP) {
      LastSlotTime(log, s);
      if s == slot {
        assert Lookup(attempts, s) == LastOf(log, s);
        SpacedPush(SlotTimes(log, s), SLOT_GAP, now);
      }
    }
  }

  class Budget {
    var attempts: map<SlotKey, Attempt>
    ghost var log: seq<Admission>

    constructor ()
      ensures Valid() && log == [] && attempts == map[]
    {
      attempts, log := map[], [];
    }

    ghost predicate Valid()
      reads this
    {
      Summarises(attempts, log) && Throttled(log)
    }

    /** SELECT MAX(at). */
    method Latest() returns (latest: Option<real>)
      requires Valid()
      ensures latest == if log == [] then None else Some(log[|log| - 1].at)
    {
      var rest := attempts.Keys;
      latest := None;
      while rest != {}
        invariant rest <= attempts.Keys
        invariant latest.None? <==> rest == attempts.Keys
        invariant latest.Some? ==> exists s :: s in attempts && attempts[s].at == latest.value
        invariant forall s :: s in attempts && s !in rest ==> latest.Some? && attempts[s].at <= latest.value
        decreases rest
      {
        var slot :| slot in rest;
        if latest.None? || latest.value < attempts[slot].at {
          latest := Some(attempts[slot].at);
        }
        rest := rest - {slot};
      }
    }

    /**
     * One transaction.  Re-checking the identity already reserved changes nothing; any
     * other request is admitted exactly when both cooldowns have passed, whatever the
     * clock did in between.  A store that fails admits nothing.
     */
    method Reserve(slot: SlotKey, identity: Identity, now: real, storeWorks: bool) returns (r: Reservation)
      requires Valid()
      modifies this
      ensures Valid()
      ensures r == Unavailable <==> !storeWorks
      ensures r == AlreadyReserved <==>
                storeWorks && slot in old(attempts) && old(attempts)[slot].identity == identity
      ensures r == Admitted <==>
                && storeWorks
                && !(slot in old(attempts) && old(attempts)[slot].identity == identity)
                && (old(log) != [] ==> now - old(log)[|old(log)| - 1].at >= POOL_GAP)
                && (slot in old(attempts) ==> now - old(attempts)[slot].at >= SLOT_GAP)
      ensures log == if r == Admitted then old(log) + [Admission(slot, identity, now)] else old(log)
      ensures attempts == if r == Admitted then old(attempts)[slot := Attempt(identity, now)] else old(attempts)
    {
      if !storeWorks {
        return Unavailable;
      }
      if slot in attempts && attempts[slot].identity == identity {
        return AlreadyReserved;
      }
      var latest := Latest();
      if (latest.Some? && now - latest.value < POOL_GAP) || (slot in attempts && now - attempts[slot].at < SLOT_GAP) {
        return Cooldown;
      }
      AdmissionKept(attempts, log, slot, identity, now);
      attempts := attempts[slot := Attempt(identity, now)];
      log := log + [Admission(slot, identity, now)];
      return Admitted;
    }
  }

  /** Restarts of the pool in any span: at most span/120 + 1. */
  lemma PoolRestartsInSpan(log: seq<Admission>, i: nat, j: nat, start: real, span: real)
    requires Throttled(log) && i <= j < |log|
    requires start <= log[i].at && log[j].at <= start + span
    ensures (j - i + 1) as real <= span / POOL_GAP + 1.0
    ensures i < j ==> log[i].at < log[j].at
  {
    AtMostInSpan(Times(log), POOL_GAP, i, j, start, span);
    assert Times(log)[i] == log[i].at && Times(log)[j] == log[j].at;
  }

  /** Restarts of one slot in any span: at most span/900 + 1. */
  lemma SlotRestartsInSpan(log: seq<Admission>, slot: SlotKey, i: nat, j: nat, start: real, span: real)
    requires Throttled(log) && i <= j < |SlotTimes(log, slot)|
    requires start <= SlotTimes(log, slot)[i] && SlotTimes(log, slot)[j] <= start + span
    ensures (j - i + 1) as real <= span / SLOT_GAP + 1.0
  {
    AtMostInSpan(SlotTimes(log, slot), SLOT_GAP, i, j, start, span);
  }
}
