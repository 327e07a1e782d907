/**
 * Why an actor of the slot does what it does: leases that ended stay ended, only what the
 * API quarantined is ever stopped, and a restart intent ends only for another process.
 */
module SlotIntents {
  import opened Outcomes
  import opened SlotFence

  // ------------------------------------------------------------------ a second invariant

  /** A lease that some call ended is not active; lease tokens are fresh. */
  ghost predicate EndedInv(api: Api, net: Network) {
    && net.applied <= net.sent
    && (forall l :: l in net.granted ==> l.token < net.nextToken)
    && (forall c :: c in net.applied && Ends(c) ==> c.lease in net.granted && api.lease != Some(c.lease))
  }

  /** Every fence that the API acknowledged is on record. */
  ghost predicate FenceInv(applied: set<Call>, past: Past) {
    && (forall c :: c in applied && c.Fail? && c.fences ==> c.lease.identity in past.quarantined)
    && (forall c :: c in applied && c.Prepare? ==>
          && c.generation in past.sessions && past.sessions[c.generation].Some?
          && past.sessions[c.generation].value in past.quarantined)
  }

  /** What is remembered as quarantined was. */
  predicate IntentInv(m: Memory, quarantined: set<Identity>) {
    && Members(m.restart) <= quarantined
    && (m.dogConfig.Config? ==> Members(m.dogConfig.quarantine) <= quarantined)
  }

  /** A /prepare under way names the process found, and one that is to stop was quarantined. */
  predicate PointInv(p: Point, past: Past) {
    && (p.Preparing? ==>
          && p.call.Prepare? && p.call.generation in past.sessions
          && past.sessions[p.call.generation] == Some(p.identity))
    && (p.Stopping? ==> p.identity in past.quarantined)
  }

  /** Under the mutex nothing is reported of the process that is to be restarted. */
  predicate ReportingInv(main: Point, m: Memory, observed: Identity) {
    && (main.Present? ==> main.identity == observed)
    && (main.Posting? ==> m.session.Some?)
    && (Holds(main) && m.restart.Some? ==>
          && (main.Reporting? ==> main.snapshot != m.restart)
          && (main.Opening? && main.call.Session? ==> main.call.identity != m.restart)
          && (main.Posting? ==> m.session.value.identity != m.restart))
  }

  ghost predicate Justified(s: State) {
    && EndedInv(s.api, s.net)
    && FenceInv(s.net.applied, s.past)
    && IntentInv(s.memory, s.past.quarantined)
    && PointInv(s.actors.main, s.past) && PointInv(s.actors.dog, s.past)
    && ReportingInv(s.actors.main, s.memory, s.past.observed)
  }

  lemma EventJustified(s: State, e: Event)
    requires Inv(s) && Justified(s) && EventEnabled(s, e) && !e.Deliver?
    ensures Justified(AfterEvent(s, e))
  {
  }

  lemma DeliveryJustified(s: State, call: Call, policy: LeasePolicy)
    requires Inv(s) && Justified(s) && call in s.net.sent
    ensures Justified(Delivered(s, call, policy))
  {
    var t := Delivered(s, call, policy);
    DeliveryEnds(s, call, policy);
    forall g | g in s.past.sessions ensures g in t.past.sessions && t.past.sessions[g] == s.past.sessions[g] {
      assert CallOk(call, s.api.generation, s.net.nextGeneration, s.past);
    }
  }

  lemma DeliveryEnds(s: State, call: Call, policy: LeasePolicy)
    requires Inv(s) && Justified(s) && call in s.net.sent
    ensures EndedInv(Delivered(s, call, policy).api, Delivered(s, call, policy).net)
  {
  }

  lemma OnceJustified(s: State, o: Once)
    requires Inv(s) && Justified(s) && OnceEnabled(s, o)
    ensures Justified(AfterOnce(s, o))
  {
  }

  lemma ActJustified(s: State, a: Actor, act: Act)
    requires Inv(s) && Justified(s) && ActEnabled(s, a, act)
    ensures Justified(AfterAct(s, a, act))
  {
  }

  lemma ReportJustified(s: State, r: Report)
    requires Inv(s) && Justified(s) && ReportEnabled(s, r)
    ensures Justified(AfterReport(s, r))
  {
  }

  /** Every step of every actor and of the environment keeps the reasons true. */
  lemma StepJustified(s: State, step: Step)
    requires Inv(s) && Justified(s) && Enabled(s, step)
    ensures Justified(Apply(s, step))
  {
    match step
    case Environment(e) =>
      if e.Deliver? { DeliveryJustified(s, e.call, e.policy); } else { EventJustified(s, e); }
    case PoolStep(o) => OnceJustified(s, o);
    case ActorStep(a, act) => ActJustified(s, a, act);
    case ReportStep(r) => ReportJustified(s, r);
  }

  lemma {:induction false} RunJustified(states: seq<State>, steps: seq<Step>, k: nat)
    requires Run(states, steps) && k < |states|
    ensures Inv(states[k]) && Justified(states[k])
  {
    RunInv(states, steps, k);
    if k > 0 {
      RunJustified(states, steps, k - 1);
      StepJustified(states[k - 1], steps[k - 1]);
    }
  }

  // ------------------------------------------------------------------ leases that ended

  lemma {:induction false} AppliedRemembered(states: seq<State>, steps: seq<Step>, j: nat, k: nat)
    requires Run(states, steps) && j <= k < |states|
    ensures states[j].net.applied <= states[k].net.applied
  {
    if j < k {
      AppliedRemembered(states, steps, j, k - 1);
    }
  }

  /** Once the API has acknowledged the end of a lease, that lease is never active again. */
  lemma EndedLeaseIsGone(states: seq<State>, steps: seq<Step>, call: Call, j: nat, k: nat)
    requires Run(states, steps) && j <= k < |states|
    requires Ends(call) && call in states[j].net.applied
    ensures states[k].api.lease != Some(call.lease)
  {
    AppliedRemembered(states, steps, j, k);
    RunJustified(states, steps, k);
  }

  // ------------------------------------------------------------------ what is stopped

  /** What is on record as quarantined was so in some state of the run. */
  lemma {:induction false} WasQuarantined(states: seq<State>, steps: seq<Step>, i: Identity, k: nat)
    requires Run(states, steps) && k < |states| && i in states[k].past.quarantined
    ensures exists j :: 0 <= j <= k && states[j].api.quarantine == Some(i)
  {
    assert k > 0;
    if i in states[k - 1].past.quarantined {
      WasQuarantined(states, steps, i, k - 1);
    }
  }

  /** An acknowledged fence was set: the API quarantined the process it names. */
  lemma AcknowledgedFenceWasSet(states: seq<State>, steps: seq<Step>, call: Call, k: nat)
    requires Run(states, steps) && k < |states| && call in states[k].net.applied
    requires (call.Fail? && call.fences) || call.Prepare?
    ensures call.Prepare? ==>
              call.generation in states[k].past.sessions && states[k].past.sessions[call.generation].Some?
    ensures var i := if call.Fail? then call.lease.identity else states[k].past.sessions[call.generation].value;
            exists j :: 0 <= j <= k && states[j].api.quarantine == Some(i)
  {
    RunJustified(states, steps, k);
    var i := if call.Fail? then call.lease.identity else states[k].past.sessions[call.generation].value;
    WasQuarantined(states, steps, i, k);
  }

  /**
   * A stop begins only for a process that the API has quarantined: the watchdog's for what
   * its /config showed, the worker's for its restart intent or its own acknowledged /prepare.
   */
  lemma StopsOnlyQuarantined(states: seq<State>, steps: seq<Step>, a: Actor, k: nat)
    requires Run(states, steps) && k < |steps| && steps[k] == ActorStep(a, BeginStop)
    ensures PointOf(states[k + 1].actors, a).Stopping?
    ensures var i, before := PointOf(states[k + 1].actors, a).identity, PointOf(states[k].actors, a);
            && (exists j :: 0 <= j <= k && states[j].api.quarantine == Some(i))
            && states[k].mutex.owner == Some(a)
            && (a == Watchdog ==>
                  before == Present(i) && states[k].memory.dogConfig.Config? &&
                  states[k].memory.dogConfig.quarantine == Some(i))
            && (a == Main ==>
                  || (before == Present(i) && states[k].memory.restart == Some(i))
                  || (before.Preparing? && before.identity == i && before.call in states[k].net.applied))
  {
    RunJustified(states, steps, k);
    RunJustified(states, steps, k + 1);
    var i := PointOf(states[k + 1].actors, a).identity;
    assert i in states[k].past.quarantined;
    WasQuarantined(states, steps, i, k);
  }

  /** How an actor's point may change, by what the slot then shows. */
  ghost predicate Seen(before: Point, after: Point, os: Processes, quarantine: Option<Identity>, left: set<Identity>) {
    && (after.Present? ==> before.Locked? && os.live == {after.identity})
    && (after.Absent? ==> os.live == {} || (before.Confirmed? && left == os.live - {before.identity}))
    && (after.Fenced? ==> before == Stopping(after.identity) && quarantine == Some(after.identity))
    && (after.Confirmed? ==> before == Fenced(after.identity) && os.live == {after.identity})
    && (after.Starting? ==> before.Absent?)
    && (after.Launching? ==> before.Starting? && os.live == {})
  }

  lemma ActSees(s: State, a: Actor, act: Act)
    requires ActEnabled(s, a, act)
    ensures var after := AfterAct(s, a, act);
            act == ReadConfig ||
            Seen(PointOf(s.actors, a), PointOf(after.actors, a), s.os, s.api.quarantine, after.os.live)
  {
  }

  lemma ActsAlone(s: State, a: Actor, b: Actor, act: Act)
    requires ActEnabled(s, a, act) && b != a && b != Pool
    ensures PointOf(AfterAct(s, a, act).actors, b) == PointOf(s.actors, b)
  {
  }

  lemma OthersSee(s: State, a: Actor, step: Step)
    requires Inv(s) && Enabled(s, step) && a != Pool && !step.ActorStep?
    ensures var p, q := PointOf(s.actors, a), PointOf(Apply(s, step).actors, a);
            p == q || q.Idle? || q.Locked? || q.Reporting? || q.Opening? || q.Posting?
  {
  }

  /**
   * What an actor acts on is what it has just seen: one process or none, the fence before
   * a stop, the very process before its end, an empty slot before a launch.
   */
  lemma PointsAreSights(states: seq<State>, steps: seq<Step>, a: Actor, k: nat)
    requires Run(states, steps) && k < |steps| && a != Pool
    requires PointOf(states[k + 1].actors, a) != PointOf(states[k].actors, a)
    ensures Seen(PointOf(states[k].actors, a), PointOf(states[k + 1].actors, a), states[k].os,
                 states[k].api.quarantine, states[k + 1].os.live)
  {
    RunInv(states, steps, k);
    match steps[k]
    case ActorStep(b, act) =>
      if a == b { ActSees(states[k], a, act); } else { ActsAlone(states[k], b, a, act); }
    case _ => OthersSee(states[k], a, steps[k]);
  }

  /** The mutex changes hands only from a free one to an idle actor, or back. */
  lemma EntersFromIdle(states: seq<State>, steps: seq<Step>, a: Actor, k: nat)
    requires Run(states, steps) && k < |steps|
    requires states[k + 1].mutex.owner == Some(a) && states[k].mutex.owner != Some(a)
    ensures states[k].mutex.owner.None?
    ensures if a == Pool then states[k].actors.pool.PoolIdle? else PointOf(states[k].actors, a).Idle?
  {
    RunInv(states, steps, k);
  }

  // ------------------------------------------------------------------ what is reported

  /** A session is opened for another process than that of the current one, which it names as its predecessor. */
  lemma SessionsAreSuccessors(states: seq<State>, steps: seq<Step>, k: nat, call: Call)
    requires Run(states, steps) && k < |steps| && call.Session? && Sends(states, k, call)
    ensures var m, main := states[k].memory, states[k].actors.main;
            && main.Reporting? && call.identity == main.snapshot
            && if m.session.Some?
               then call.expected == m.session.value.generation && call.identity != m.session.value.identity
               else m.remote.Config? && call.expected == m.remote.generation
  {
    RunInv(states, steps, k);
  }

  lemma PostingSteps(s: State, step: Step)
    requires Enabled(s, step) && !s.actors.main.Posting? && Apply(s, step).actors.main.Posting?
    ensures step == ReportStep(KeepSession) || step == ReportStep(AckSession)
  {
  }

  /** A report is posted only under a session of the process that was seen. */
  lemma PostedUnderItsSession(states: seq<State>, steps: seq<Step>, k: nat)
    requires Run(states, steps) && k < |steps|
    requires !states[k].actors.main.Posting? && states[k + 1].actors.main.Posting?
    ensures var main, session := states[k].actors.main, states[k + 1].memory.session;
            && session.Some?
            && (main.Reporting? ==> session.value.identity == main.snapshot && session == states[k].memory.session)
            && (!main.Reporting? ==>
                  main.Opening? && main.call.Session? && main.call in states[k].net.applied &&
                  session.value == LocalSession(main.call.issued, main.call.identity))
  {
    PostingSteps(states[k], steps[k]);
  }

  /** A report under the mutex gives up a restart intent only with a session of another process, or of none. */
  lemma IntentEndsWithAnother(states: seq<State>, steps: seq<Step>, k: nat)
    requires Run(states, steps) && k < |steps| && steps[k] == ReportStep(ReportDone)
    requires states[k].memory.restart.Some? && states[k + 1].memory.restart.None?
    ensures states[k].mutex.owner == Some(Main) && states[k].memory.session.Some?
    ensures states[k].memory.session.value.identity != states[k].memory.restart
  {
    RunJustified(states, steps, k);
  }
}
