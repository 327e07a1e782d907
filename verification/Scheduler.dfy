/**
 * Independent slot dispatch: at most one job per slot, backoff, drain and once mode.
 *
 * The environment answers every question the loop asks: the clock, the stop request,
 * whether a job is done and how it ended, whether a slot connects and what its
 * inventory says.  The `tick` counts the questions.  A ghost trace records what the
 * loop did; the properties are stated on that trace alone.
 */
module Scheduler {
  import opened Outcomes

  // ------------------------------------------------------------------ environment

  datatype Ending = Collected | MaintenanceRequired | OtherState | JobRaised

  datatype Inventory = Ready | NotReady(retryAfter: int) | InventoryRaised

  datatype Env = Env(
    clock: nat -> real,
    stop: nat -> bool,
    done: nat -> bool,
    ending: nat -> Ending,
    connects: nat -> bool,
    inventory: nat -> Inventory,
    inspected: nat -> bool,
    // the slots whose inspection mark the preparation takes back: those it installed something on
    reinstalls: nat -> set<nat>)

  /** A stop request that is never withdrawn. */
  ghost predicate Persistent(env: Env) {
    forall m, n :: m <= n && env.stop(m) ==> env.stop(n)
  }

  // ------------------------------------------------------------------ the trace

  datatype Event =
    // found idle and due at a clock reading
    | Found(slot: nat, at: real)
    // connect() and prepare_inventory() run on the slot, with this answer
    | Touched(slot: nat, answer: Inventory)
    | Submitted(slot: nat, job: nat)
    // the job's result, or its exception, was emitted and its future dropped
    | Emitted(slot: nat, job: nat, at: real, delay: real)
    | JobFailed(slot: nat, job: nat, at: real, delay: real)
    // connect() or prepare_inventory() raised, or the inventory was not ready
    | Deferred(slot: nat, at: real, delay: real)
    | Unready(slot: nat, at: real, delay: real)
    | Prepared(slots: set<nat>)
    | StopSeen
    | Returned(ok: bool)

  /** The event sets a new due time for its slot. */
  predicate Postpones(e: Event) {
    e.Emitted? || e.JobFailed? || e.Deferred? || e.Unready?
  }

  predicate OfSlot(e: Event, i: nat) {
    !e.Prepared? && !e.StopSeen? && !e.Returned? && e.slot == i
  }

  /**
   * What the trace says of one slot: its outstanding job, the deferrals since its last good
   * result, when it is due, the reading that found it so and was not yet acted on, the
   * answer that has no consequence yet, and how often it got a job.
   */
  datatype View = View(
    live: Option<nat>, failures: nat, due: real, found: Option<real>, answer: Option<Inventory>, submissions: nat)

  const FRESH := View(None, 0, 0.0, None, None, 0)

  /** Neither found nor touched without what follows from it. */
  predicate Quiet(v: View) {
    v.found.None? && v.answer.None?
  }

  function LiveStep(before: Option<nat>, e: Event, i: nat): Option<nat> {
    if !OfSlot(e, i) then before
    else if e.Submitted? then Some(e.job)
    else if e.Emitted? || e.JobFailed? then None
    else before
  }

  function StepView(v: View, e: Event, i: nat): View {
    if e.StopSeen? then v.(found := None)
    else if !OfSlot(e, i) then v
    else
      match e
      case Found(_, at) => v.(found := Some(at))
      case Touched(_, answer) => v.(found := None, answer := Some(answer))
      case Submitted(_, job) => v.(live := Some(job), answer := None, submissions := v.submissions + 1)
      case Emitted(_, _, at, delay) => v.(live := None, failures := 0, due := at + delay)
      case JobFailed(_, _, at, delay) => v.(live := None, failures := v.failures + 1, due := at + delay)
      case Deferred(_, at, delay) => v.(answer := None, failures := v.failures + 1, due := at + delay)
      case Unready(_, at, delay) => v.(answer := None, due := at + delay)
      case _ => v
  }

  ghost function Last(trace: seq<Event>): Event
    requires trace != []
  {
    trace[|trace| - 1]
  }

  ghost function Init(trace: seq<Event>): seq<Event>
    requires trace != []
  {
    trace[..|trace| - 1]
  }

  ghost function ViewOf(trace: seq<Event>, i: nat): View {
    if trace == [] then FRESH else StepView(ViewOf(Init(trace), i), Last(trace), i)
  }

  /** The slot's outstanding job. */
  ghost function Live(trace: seq<Event>, i: nat): Option<nat> {
    ViewOf(trace, i).live
  }

  ghost function Jobs(trace: seq<Event>): nat {
    if trace == [] then 0 else Jobs(Init(trace)) + if Last(trace).Submitted? then 1 else 0
  }

  ghost function Submissions(trace: seq<Event>, job: nat): nat {
    if trace == [] then 0
    else Submissions(Init(trace), job) + if Last(trace).Submitted? && Last(trace).job == job then 1 else 0
  }

  predicate Ends(e: Event, job: nat) {
    (e.Emitted? || e.JobFailed?) && e.job == job
  }

  ghost function Endings(trace: seq<Event>, job: nat): nat {
    if trace == [] then 0 else Endings(Init(trace), job) + if Ends(Last(trace), job) then 1 else 0
  }

  ghost predicate Stopped(trace: seq<Event>) {
    StopSeen in trace
  }

  predicate IsFailure(e: Event) {
    e.JobFailed? || e.Deferred? || e.Unready?
  }

  ghost predicate Failed(trace: seq<Event>) {
    exists e :: e in trace && IsFailure(e)
  }

  /** min(300, 10 * 2 ** min(n - 1, 5)) seconds after the n-th failure in a row. */
  function Backoff(n: nat): (delay: nat)
    requires n > 0
    ensures 10 <= delay <= 300
  {
    var power := Power2(if n - 1 < 5 then n - 1 else 5);
    if 10 * power < 300 then 10 * power else 300
  }

  function Power2(n: nat): (r: nat)
    ensures r >= 1
  {
    if n == 0 then 1 else 2 * Power2(n - 1)
  }

  /** May the event of slot `i` follow what the trace says of the slot? */
  predicate SlotAllows(v: View, e: Event, jobs: nat) {
    match e
    case Found(_, at) => v.live.None? && Quiet(v) && v.due <= at
    case Touched(_, _) => v.live.None? && v.found.Some?
    case Submitted(_, job) => v.live.None? && v.answer == Some(Ready) && job == jobs
    case Emitted(_, job, _, _) => v.live == Some(job)
    case JobFailed(_, job, _, delay) => v.live == Some(job) && delay == Backoff(v.failures + 1) as real
    case Deferred(_, _, delay) =>
      v.live.None? && v.answer == Some(InventoryRaised) && delay == Backoff(v.failures + 1) as real
    case Unready(_, _, _) => v.live.None? && v.answer.Some? && v.answer.value.NotReady?
    case _ => true
  }

  predicate Dispatches(e: Event) {
    e.Touched? || e.Submitted? || e.Prepared?
  }

  /** May the event follow the trace?  With `drains`, nothing is dispatched after a stop was seen. */
  ghost predicate Follows(before: seq<Event>, e: Event, drains: bool) {
    && (drains && Dispatches(e) ==> !Stopped(before))
    && match e
       case Prepared(slots) => forall i :: i in slots ==> Live(before, i).None?
       case StopSeen => true
       case Returned(ok) => (forall i :: Live(before, i).None?) && (ok <==> !Failed(before))
       case _ => SlotAllows(ViewOf(before, e.slot), e, Jobs(before))
  }

  ghost predicate WellFormed(trace: seq<Event>, drains: bool) {
    forall k {:trigger trace[..k]} :: 0 <= k < |trace| ==> Follows(trace[..k], trace[k], drains)
  }

  lemma WellFormedExtends(trace: seq<Event>, e: Event, drains: bool)
    ensures WellFormed(trace + [e], drains) <==> WellFormed(trace, drains) && Follows(trace, e, drains)
  {
    var more := trace + [e];
    assert more[..|trace|] == trace && more[|trace|] == e;
    forall k: nat | k < |trace| ensures more[..k] == trace[..k] && more[k] == trace[k] {
    }
    if WellFormed(more, drains) {
      forall k | 0 <= k < |trace| ensures Follows(trace[..k], trace[k], drains) {
        assert more[..k] == trace[..k];
      }
    }
    if WellFormed(trace, drains) && Follows(trace, e, drains) {
      forall k | 0 <= k < |more| ensures Follows(more[..k], more[k], drains) {
        if k < |trace| {
          assert more[..k] == trace[..k];
        }
      }
    }
  }

  lemma Appended(trace: seq<Event>, e: Event, drains: bool)
    ensures Init(trace + [e]) == trace && Last(trace + [e]) == e
    ensures forall i :: ViewOf(trace + [e], i) == StepView(ViewOf(trace, i), e, i)
    ensures forall i :: Live(trace + [e], i) == LiveStep(Live(trace, i), e, i)
    ensures Jobs(trace + [e]) == Jobs(trace) + if e.Submitted? then 1 else 0
    ensures Stopped(trace + [e]) <==> Stopped(trace) || e == StopSeen
    ensures Failed(trace + [e]) <==> Failed(trace) || IsFailure(e)
    ensures WellFormed(trace + [e], drains) <==> WellFormed(trace, drains) && Follows(trace, e, drains)
  {
    assert Init(trace + [e]) == trace;
    assert e in trace + [e];
    WellFormedExtends(trace, e, drains);
    if IsFailure(e) {
      assert Failed(trace + [e]);
    }
    if Failed(trace) {
      var f :| f in trace && IsFailure(f);
      assert f in trace + [e];
    }
    forall i ensures Live(trace + [e], i) == LiveStep(Live(trace, i), e, i) {
      assert ViewOf(trace + [e], i) == StepView(ViewOf(trace, i), e, i);
    }
  }

  /** A slot with a job was neither found nor touched since, and one that is found was not touched. */
  predicate Sane(v: View) {
    (v.live.Some? ==> Quiet(v)) && (v.answer.Some? ==> v.found.None?)
  }

  lemma {:induction false} ViewsAreSane(trace: seq<Event>, drains: bool, i: nat)
    requires WellFormed(trace, drains)
    ensures Sane(ViewOf(trace, i))
  {
    if trace != [] {
      var before, e := Init(trace), Last(trace);
      assert trace == before + [e];
      Appended(before, e, drains);
      ViewsAreSane(before, drains, i);
    }
  }

  // ------------------------------------------------------------------ consequences of a well-formed trace

  /** A job is submitted at most once, its number was free before, and it ended unless it is live. */
  lemma {:induction false} JobLedger(trace: seq<Event>, drains: bool, job: nat)
    requires WellFormed(trace, drains)
    ensures Submissions(trace, job) == if job < Jobs(trace) then 1 else 0
    ensures (exists i :: Live(trace, i) == Some(job)) ==> job < Jobs(trace) && Endings(trace, job) == 0
    ensures (forall i :: Live(trace, i) != Some(job)) ==> Endings(trace, job) == Submissions(trace, job)
    ensures forall i, k :: Live(trace, i) == Some(job) && Live(trace, k) == Some(job) ==> i == k
  {
    if trace != [] {
      var before, e := Init(trace), Last(trace);
      assert trace == before + [e];
      Appended(before, e, drains);
      JobLedger(before, drains, job);
      if e.Submitted? && e.job == job {
        assert Live(trace, e.slot) == Some(job);
      } else if Ends(e, job) {
        assert Live(before, e.slot) == Some(job);
        assert forall i :: Live(trace, i) != Some(job);
      } else {
        forall i ensures Live(trace, i) == Some(job) <==> Live(before, i) == Some(job) {
        }
      }
    }
  }

  /** When the loop returns, every submitted job has been emitted exactly once. */
  lemma EveryJobEmittedOnce(trace: seq<Event>, drains: bool, ok: bool, job: nat)
    requires WellFormed(trace, drains) && trace != [] && Last(trace) == Returned(ok)
    ensures Endings(trace, job) == Submissions(trace, job) <= 1
    ensures Endings(trace, job) == 1 <==> job < Jobs(trace)
    ensures ok <==> !Failed(trace)
  {
    JobLedger(trace, drains, job);
    Appended(Init(trace), Last(trace), drains);
    assert trace == Init(trace) + [Last(trace)];
    assert forall i :: Live(trace, i) == Live(Init(trace), i);
  }

  lemma PrefixWellFormed(trace: seq<Event>, drains: bool, k: nat)
    requires WellFormed(trace, drains) && k < |trace|
    ensures WellFormed(trace[..k], drains) && Follows(trace[..k], trace[k], drains)
  {
    forall j | 0 <= j < k ensures Follows(trace[..k][..j], trace[..k][j], drains) {
      assert trace[..k][..j] == trace[..j];
    }
  }

  /**
   * From its submission to its ending a job keeps its slot to itself: nothing happens to
   * the slot but that ending, and no preparation includes it.
   */
  lemma {:induction false} LiveUntilEnded(trace: seq<Event>, drains: bool, j: nat, k: nat)
    requires WellFormed(trace, drains) && j < k <= |trace| && trace[j].Submitted?
    requires forall m :: j < m < k ==> !Ends(trace[m], trace[j].job)
    ensures Live(trace[..k], trace[j].slot) == Some(trace[j].job)
    ensures k < |trace| && OfSlot(trace[k], trace[j].slot) ==> Ends(trace[k], trace[j].job)
    ensures k < |trace| && trace[k].Prepared? ==> trace[j].slot !in trace[k].slots
  {
    var before := trace[..k];
    assert Init(before) == trace[..k - 1] && Last(before) == trace[k - 1];
    if j < k - 1 {
      LiveUntilEnded(trace, drains, j, k - 1);
    }
    if k < |trace| {
      PrefixWellFormed(trace, drains, k);
      ViewsAreSane(before, drains, trace[j].slot);
    }
  }

  /** Something made the reading void: the slot was touched, or a stop was seen. */
  predicate Consumes(e: Event, i: nat) {
    e.StopSeen? || (e.Touched? && e.slot == i)
  }

  lemma {:induction false} FoundStands(trace: seq<Event>, drains: bool, j: nat, k: nat)
    requires WellFormed(trace, drains) && j < k <= |trace| && trace[j].Found?
    requires forall m :: j < m < k ==> !Consumes(trace[m], trace[j].slot)
    ensures ViewOf(trace[..k], trace[j].slot).found.Some?
  {
    var before := trace[..k];
    assert Init(before) == trace[..k - 1] && Last(before) == trace[k - 1];
    PrefixWellFormed(trace, drains, k - 1);
    if j < k - 1 {
      FoundStands(trace, drains, j, k - 1);
      ViewsAreSane(trace[..k - 1], drains, trace[j].slot);
    }
  }

  /** Between two readings that found a slot due, the slot was touched or a stop was seen. */
  lemma FoundThenTouched(trace: seq<Event>, drains: bool, j: nat, k: nat)
    requires WellFormed(trace, drains) && j < k < |trace|
    requires trace[j].Found? && trace[k].Found? && trace[j].slot == trace[k].slot
    ensures exists m :: j < m < k && Consumes(trace[m], trace[j].slot)
  {
    PrefixWellFormed(trace, drains, k);
    if forall m :: j < m < k ==> !Consumes(trace[m], trace[j].slot) {
      FoundStands(trace, drains, j, k);
      assert false;
    }
  }

  /** What the answer to a touch entails. */
  predicate Concludes(e: Event, answer: Inventory) {
    match answer
    case Ready => e.Submitted?
    case NotReady(_) => e.Unready?
    case InventoryRaised => e.Deferred?
  }

  lemma {:induction false} AnswerStands(trace: seq<Event>, drains: bool, j: nat, k: nat)
    requires WellFormed(trace, drains) && j < k <= |trace| && trace[j].Touched?
    requires forall m :: j < m < k ==> !OfSlot(trace[m], trace[j].slot)
    ensures ViewOf(trace[..k], trace[j].slot).answer == Some(trace[j].answer)
  {
    var before := trace[..k];
    assert Init(before) == trace[..k - 1] && Last(before) == trace[k - 1];
    if j < k - 1 {
      AnswerStands(trace, drains, j, k - 1);
    }
  }

  /** What happens next to a touched slot is what its answer entails: a job exactly if it connected and is ready. */
  lemma TouchedThenConcluded(trace: seq<Event>, drains: bool, j: nat, k: nat)
    requires WellFormed(trace, drains) && j < k < |trace| && trace[j].Touched?
    requires OfSlot(trace[k], trace[j].slot) && forall m :: j < m < k ==> !OfSlot(trace[m], trace[j].slot)
    ensures Concludes(trace[k], trace[j].answer)
  {
    PrefixWellFormed(trace, drains, k);
    AnswerStands(trace, drains, j, k);
    ViewsAreSane(trace[..k], drains, trace[j].slot);
  }

  /** After a lasting stop request was seen, nothing more is dispatched. */
  ghost predicate Drained(trace: seq<Event>) {
    forall j, k :: 0 <= j < k < |trace| && trace[j] == StopSeen ==> !Dispatches(trace[k])
  }

  lemma NothingAfterStop(trace: seq<Event>)
    requires WellFormed(trace, true)
    ensures Drained(trace)
  {
    forall j, k | 0 <= j < k < |trace| && trace[j] == StopSeen ensures !Dispatches(trace[k]) {
      PrefixWellFormed(trace, true, k);
      assert trace[..k][j] == StopSeen;
    }
  }

  /** The delay after a failure depends only on the failures in a row, and never falls with them. */
  lemma BackoffLaw(m: nat, n: nat)
    requires 0 < m <= n
    ensures Backoff(m) <= Backoff(n)
    ensures Backoff(n) == (if n == 1 then 10 else if n == 2 then 20 else if n == 3 then 40
                           else if n == 4 then 80 else if n == 5 then 160 else 300)
  {
    assert Power2(1) == 2 && Power2(2) == 4 && Power2(3) == 8 && Power2(4) == 16 && Power2(5) == 32;
  }

  /** Nothing of the slot that sets a due time lies between. */
  ghost predicate Undelayed(trace: seq<Event>, j: int, k: int, i: nat)
    requires 0 <= j && k <= |trace|
  {
    forall m :: j < m < k ==> !(OfSlot(trace[m], i) && Postpones(trace[m]))
  }

  lemma {:induction false} DueStands(trace: seq<Event>, j: nat, k: nat)
    requires j < k <= |trace| && Postpones(trace[j]) && Undelayed(trace, j, k, trace[j].slot)
    ensures ViewOf(trace[..k], trace[j].slot).due == trace[j].at + trace[j].delay
  {
    assert Init(trace[..k]) == trace[..k - 1] && Last(trace[..k]) == trace[k - 1];
    if j < k - 1 {
      DueStands(trace, j, k - 1);
    }
  }

  /** The slot was found due by a clock reading between the two events. */
  ghost predicate FoundDue(trace: seq<Event>, j: int, k: int, i: nat, due: real)
    requires 0 <= j && k <= |trace|
  {
    exists m :: j < m < k && trace[m].Found? && trace[m].slot == i && due <= trace[m].at
  }

  lemma {:induction false} FoundWhenDue(trace: seq<Event>, drains: bool, j: nat, k: nat)
    requires WellFormed(trace, drains) && j < k <= |trace|
    requires Postpones(trace[j]) && Undelayed(trace, j, k, trace[j].slot)
    requires ViewOf(trace[..k], trace[j].slot).found.Some?
    ensures FoundDue(trace, j, k, trace[j].slot, trace[j].at + trace[j].delay)
  {
    var i, e := trace[j].slot, trace[k - 1];
    DueStands(trace, j, k);
    assert Init(trace[..k]) == trace[..k - 1] && Last(trace[..k]) == e;
    PrefixWellFormed(trace, drains, k - 1);
    ViewsAreSane(trace[..k - 1], drains, i);
    if e.Found? && e.slot == i {
      if j < k - 1 {
        DueStands(trace, j, k - 1);
      }
      assert trace[k - 1].Found?;
    } else {
      FoundWhenDue(trace, drains, j, k - 1);
      var m :| j < m < k - 1 && trace[m].Found? && trace[m].slot == i && trace[j].at + trace[j].delay <= trace[m].at;
      assert trace[m].Found?;
    }
  }

  /**
   * Delays hold.  Before a slot is touched again after its due time was set, a clock
   * reading taken in between has reached that time; so after the n-th failure in a row the
   * slot is left alone for the n-th backoff delay.
   */
  lemma TouchedWhenDue(trace: seq<Event>, drains: bool, j: nat, k: nat)
    requires WellFormed(trace, drains) && j < k < |trace|
    requires Postpones(trace[j]) && trace[k].Touched? && trace[k].slot == trace[j].slot
    requires Undelayed(trace, j, k, trace[j].slot)
    ensures FoundDue(trace, j, k, trace[j].slot, trace[j].at + trace[j].delay)
    ensures trace[j].JobFailed? || trace[j].Deferred? ==>
              var n := ViewOf(trace[..j + 1], trace[j].slot).failures;
              n > 0 && trace[j].delay == Backoff(n) as real
  {
    PrefixWellFormed(trace, drains, j);
    PrefixWellFormed(trace, drains, k);
    FoundWhenDue(trace, drains, j, k);
    assert Init(trace[..j + 1]) == trace[..j] && Last(trace[..j + 1]) == trace[j];
  }

  // ------------------------------------------------------------------ the loop

  /** The fields of SlotState; `inspected` is the worker's own inspection mark. */
  datatype Slot = Slot(
    future: Option<nat>, connected: bool, due: real, failures: nat, finished: bool, inspected: bool)

  /** The slot's fields repeat what the trace says of it, with once mode's single submission. */
  predicate Matches(slot: Slot, v: View, once: bool) {
    && slot.future == v.live && slot.failures == v.failures && slot.due == v.due
    && (once ==> v.submissions <= 1 && (v.submissions == 1 ==> slot.future.Some? || slot.finished))
  }

  ghost predicate Agrees(trace: seq<Event>, slots: seq<Slot>, once: bool) {
    && (forall i: nat {:trigger ViewOf(trace, i)} :: i < |slots| ==> Matches(slots[i], ViewOf(trace, i), once))
    && (forall i: nat :: i >= |slots| ==> Live(trace, i).None?)
  }

  ghost predicate Ledger(trace: seq<Event>, jobs: nat, failed: bool) {
    jobs == Jobs(trace) && (failed <==> Failed(trace))
  }

  /** A stop request once seen is in force from now on. */
  ghost predicate StopHolds(trace: seq<Event>, env: Env, tick: nat, drains: bool) {
    drains ==> Persistent(env) && (Stopped(trace) ==> forall t: nat :: t >= tick ==> env.stop(t))
  }

  /** Recording one slot's event and its new fields keeps the agreement. */
  lemma Recorded(trace: seq<Event>, slots: seq<Slot>, once: bool, drains: bool, e: Event, i: nat, slot: Slot)
    requires WellFormed(trace, drains) && Agrees(trace, slots, once)
    requires i < |slots| && OfSlot(e, i) && Follows(trace, e, drains)
    requires Matches(slot, StepView(ViewOf(trace, i), e, i), once)
    ensures WellFormed(trace + [e], drains) && Agrees(trace + [e], slots[i := slot], once)
    ensures Stopped(trace + [e]) <==> Stopped(trace)
    ensures Jobs(trace + [e]) == Jobs(trace) + if e.Submitted? then 1 else 0
    ensures Failed(trace + [e]) <==> Failed(trace) || IsFailure(e)
    ensures ViewOf(trace + [e], i) == StepView(ViewOf(trace, i), e, i)
    ensures forall k: nat :: k != i ==> ViewOf(trace + [e], k) == ViewOf(trace, k)
  {
    Appended(trace, e, drains);
  }

  /** Events of no single slot leave the agreement alone. */
  lemma Noted(trace: seq<Event>, slots: seq<Slot>, once: bool, drains: bool, e: Event)
    requires WellFormed(trace, drains) && Agrees(trace, slots, once)
    requires (e.Prepared? || e.StopSeen? || e.Returned?) && Follows(trace, e, drains)
    ensures WellFormed(trace + [e], drains) && Agrees(trace + [e], slots, once)
    ensures Stopped(trace + [e]) <==> Stopped(trace) || e.StopSeen?
    ensures Jobs(trace + [e]) == Jobs(trace) && (Failed(trace + [e]) <==> Failed(trace))
    ensures forall k: nat :: ViewOf(trace + [e], k) == StepView(ViewOf(trace, k), e, k)
  {
    Appended(trace, e, drains);
  }

  function Min(a: real, b: real): real {
    if a < b then a else b
  }

  function Max(a: real, b: real): real {
    if a < b then b else a
  }

  predicate Rising(s: seq<nat>) {
    forall j, k :: 0 <= j < k < |s| ==> s[j] < s[k]
  }

  lemma NobodyLive(trace: seq<Event>, slots: seq<Slot>, once: bool)
    requires Agrees(trace, slots, once) && forall i :: 0 <= i < |slots| ==> slots[i].future.None?
    ensures forall i :: Live(trace, i).None?
  {
    forall i: nat ensures Live(trace, i).None? {
      if i < |slots| {
        assert Matches(slots[i], ViewOf(trace, i), once);
      }
    }
  }

  // ------------------------------------------------------------------ what a pass achieves

  /** Where the loop stands between two passes; `length` counts the events so far. */
  datatype Moment = Moment(slots: seq<Slot>, preparationAt: real, tick: nat, length: nat)

  ghost predicate EndedBetween(trace: seq<Event>, from: nat, to: nat, job: nat) {
    exists m: nat :: from <= m < to && m < |trace| && Ends(trace[m], job)
  }

  ghost predicate TouchedBetween(trace: seq<Event>, from: nat, to: nat, i: nat) {
    exists m: nat :: from <= m < to && m < |trace| && trace[m].Touched? && trace[m].slot == i
  }

  ghost predicate PreparedBetween(trace: seq<Event>, from: nat, to: nat, i: nat) {
    exists m: nat :: from <= m < to && m < |trace| && trace[m].Prepared? && i in trace[m].slots
  }

  ghost predicate StoppedBetween(trace: seq<Event>, from: nat, to: nat) {
    exists m: nat :: from <= m < to && m < |trace| && trace[m] == StopSeen
  }

  ghost predicate NotDoneBetween(env: Env, first: nat, end: nat) {
    exists t: nat :: first <= t < end && !env.done(t)
  }

  ghost predicate EarlierBetween(env: Env, first: nat, end: nat, time: real) {
    exists t: nat :: first <= t < end && env.clock(t) < time
  }

  function Available(slots: seq<Slot>): set<nat> {
    set i: nat | i < |slots| &&
      slots[i].future.None? && !slots[i].finished && slots[i].connected && slots[i].inspected
  }

  /**
   * What a pass does for one slot: a job that is done is taken, and unless a stop is seen,
   * a slot that is free, unfinished and due is touched, and one that is available is
   * prepared when the thirty seconds are over.
   */
  ghost predicate SlotLaw(env: Env, prepares: bool, trace: seq<Event>, a: Moment, b: Moment, i: nat)
    requires i < |a.slots|
  {
    var slot := a.slots[i];
    if slot.future.Some?
    then EndedBetween(trace, a.length, b.length, slot.future.value) || NotDoneBetween(env, a.tick, b.tick)
    else
      && (slot.finished || StoppedBetween(trace, a.length, b.length) ||
          TouchedBetween(trace, a.length, b.length, i) || EarlierBetween(env, a.tick, b.tick, slot.due))
      && (prepares && i in Available(a.slots) ==>
            || StoppedBetween(trace, a.length, b.length) || PreparedBetween(trace, a.length, b.length, i)
            || EarlierBetween(env, a.tick, b.tick, a.preparationAt))
  }

  /** Every job was asked about, and the slots without one are as they were. */
  ghost predicate AskedLaw(env: Env, trace: seq<Event>, a: Moment, b: Moment) {
    && |a.slots| == |b.slots| && a.preparationAt == b.preparationAt && a.length <= b.length && a.tick <= b.tick
    && forall i: nat :: i < |a.slots| ==>
         if a.slots[i].future.Some?
         then EndedBetween(trace, a.length, b.length, a.slots[i].future.value) || NotDoneBetween(env, a.tick, b.tick)
         else b.slots[i] == a.slots[i]
  }

  /** In once mode a finished slot stays finished. */
  predicate FinishedStays(once: bool, a: seq<Slot>, b: seq<Slot>) {
    |a| == |b| && forall i | 0 <= i < |a| :: once && a[i].finished ==> b[i].finished
  }

  /** Some reading in between had reached the time. */
  ghost predicate ReachedBetween(env: Env, first: nat, end: nat, time: real) {
    exists t: nat :: first <= t < end && time <= env.clock(t)
  }

  predicate IsFreeSlot(slot: Slot) {
    slot.future.None? && !slot.finished
  }

  /** The idle slots are free and were due at a reading; every other free one below `n` was not at its own. */
  ghost predicate Considered(env: Env, slots: seq<Slot>, idle: seq<nat>, n: nat, first: nat, end: nat) {
    && (forall i: nat :: i in idle ==>
          i < |slots| && IsFreeSlot(slots[i]) && ReachedBetween(env, first, end, slots[i].due))
    && (forall i: nat :: i < n && i < |slots| && IsFreeSlot(slots[i]) && i !in idle ==>
          EarlierBetween(env, first, end, slots[i].due))
  }

  lemma LookedAt(env: Env, slots: seq<Slot>, idle: seq<nat>, i: nat, first: nat, at: nat)
    requires i < |slots| && IsFreeSlot(slots[i]) && first <= at && Considered(env, slots, idle, i, first, at)
    ensures slots[i].due <= env.clock(at) ==> Considered(env, slots, idle + [i], i + 1, first, at + 1)
    ensures env.clock(at) < slots[i].due ==> Considered(env, slots, idle, i + 1, first, at + 1)
  {
    assert forall m :: m in idle + [i] <==> m in idle || m == i;
    if slots[i].due <= env.clock(at) {
      assert ReachedBetween(env, first, at + 1, slots[i].due);
    } else {
      assert EarlierBetween(env, first, at + 1, slots[i].due);
    }
  }

  ghost predicate PreparedOrEarly(env: Env, prepares: bool, trace: seq<Event>, a: Moment, end: nat) {
    prepares ==> forall i: nat :: i in Available(a.slots) ==>
      PreparedBetween(trace, a.length, |trace|, i) || EarlierBetween(env, a.tick, end, a.preparationAt)
  }

  ghost predicate AllTouched(trace: seq<Event>, from: nat, idle: seq<nat>) {
    StoppedBetween(trace, from, |trace|) || forall i :: i in idle ==> TouchedBetween(trace, from, |trace|, i)
  }

  /** Looking, preparing and dispatching together give every slot without a job its due. */
  lemma WorkOfParts(
      env: Env, prepares: bool, prepared: seq<Event>, trace: seq<Event>, a: Moment, b: Moment, idle: seq<nat>,
      looked: nat, ready: nat)
    requires a.length <= |prepared| && prepared <= trace && b.length == |trace| && a.tick <= looked <= ready <= b.tick
    requires Considered(env, a.slots, idle, |a.slots|, a.tick, looked)
    requires PreparedOrEarly(env, prepares, prepared, a, ready)
    requires AllTouched(trace, |prepared|, idle)
    ensures FreeLaw(env, prepares, trace, a, b)
  {
    assert forall m: nat :: m < |prepared| ==> prepared[m] == trace[m];
  }

  /** The slots without a job got what a pass owes them. */
  ghost predicate FreeLaw(env: Env, prepares: bool, trace: seq<Event>, a: Moment, b: Moment) {
    && a.length <= b.length <= |trace| && a.tick <= b.tick
    && forall i: nat :: i < |a.slots| && a.slots[i].future.None? ==> SlotLaw(env, prepares, trace, a, b, i)
  }

  lemma PassOfParts(env: Env, prepares: bool, asked: seq<Event>, trace: seq<Event>, a: Moment, mid: Moment, b: Moment)
    requires asked <= trace && AskedLaw(env, asked, a, mid) && FreeLaw(env, prepares, trace, mid, b)
    ensures PassLaw(env, prepares, trace, a, b)
  {
    assert forall m: nat :: m < |asked| ==> asked[m] == trace[m];
    forall i: nat | i < |a.slots| ensures SlotLaw(env, prepares, trace, a, b, i) {
      if a.slots[i].future.None? {
        assert SlotLaw(env, prepares, trace, mid, b, i);
      }
    }
  }

  lemma FreeLawEarlier(env: Env, prepares: bool, trace: seq<Event>, a: Moment, mid: Moment, b: Moment)
    requires FreeLaw(env, prepares, trace, mid, b) && mid.slots == a.slots && mid.preparationAt == a.preparationAt
    requires a.length <= mid.length && a.tick <= mid.tick
    ensures FreeLaw(env, prepares, trace, a, b)
  {
    forall i: nat | i < |a.slots| && a.slots[i].future.None? ensures SlotLaw(env, prepares, trace, a, b, i) {
      assert SlotLaw(env, prepares, trace, mid, b, i);
    }
  }

  ghost predicate PassLaw(env: Env, prepares: bool, trace: seq<Event>, a: Moment, b: Moment) {
    a.length <= b.length <= |trace| && forall i: nat :: i < |a.slots| ==> SlotLaw(env, prepares, trace, a, b, i)
  }

  ghost predicate PassesLaw(env: Env, prepares: bool, trace: seq<Event>, seen: seq<Moment>) {
    && seen != [] && seen[|seen| - 1].length <= |trace|
    && forall n :: 0 < n < |seen| ==> PassLaw(env, prepares, trace, seen[n - 1], seen[n])
  }

  lemma PassStands(env: Env, prepares: bool, trace: seq<Event>, longer: seq<Event>, a: Moment, b: Moment)
    requires trace <= longer && PassLaw(env, prepares, trace, a, b)
    ensures PassLaw(env, prepares, longer, a, b)
  {
    forall i: nat | i < |a.slots| ensures SlotLaw(env, prepares, longer, a, b, i) {
      assert SlotLaw(env, prepares, trace, a, b, i);
      assert forall m: nat :: m < |trace| ==> trace[m] == longer[m];
    }
  }

  lemma PassesExtend(env: Env, prepares: bool, trace: seq<Event>, longer: seq<Event>, seen: seq<Moment>, next: Moment)
    requires trace <= longer && PassesLaw(env, prepares, trace, seen) && next.length == |longer|
    requires PassLaw(env, prepares, longer, seen[|seen| - 1], next)
    ensures PassesLaw(env, prepares, longer, seen + [next])
  {
    var more := seen + [next];
    forall n | 0 < n < |more| ensures PassLaw(env, prepares, longer, more[n - 1], more[n]) {
      if n < |seen| {
        PassStands(env, prepares, trace, longer, seen[n - 1], seen[n]);
      }
    }
  }

  /** An install takes back the inspection mark of its slot. */
  function Reinstalled(slots: seq<Slot>, on: set<nat>): seq<Slot> {
    seq(|slots|, i requires 0 <= i < |slots| =>
      if i in on then slots[i].(inspected := false) else slots[i])
  }

  lemma PreparedKept(trace: seq<Event>, slots: seq<Slot>, once: bool, drains: bool, on: set<nat>)
    requires WellFormed(trace, drains) && Agrees(trace, slots, once) && (drains ==> !Stopped(trace))
    ensures var more := trace + [Prepared(Available(slots))];
            && WellFormed(more, drains) && Agrees(more, Reinstalled(slots, on), once)
            && (Stopped(more) <==> Stopped(trace)) && Jobs(more) == Jobs(trace) && (Failed(more) <==> Failed(trace))
            && forall k: nat :: ViewOf(more, k) == ViewOf(trace, k)
  {
    var e := Prepared(Available(slots));
    forall i | i in e.slots ensures Live(trace, i).None? {
      assert Matches(slots[i], ViewOf(trace, i), once);
    }
    Noted(trace, slots, once, drains, e);
    forall i: nat | i < |slots| ensures Matches(Reinstalled(slots, on)[i], ViewOf(trace + [e], i), once) {
      assert Matches(slots[i], ViewOf(trace, i), once);
    }
  }

  class Loop {
    const env: Env
    const once: bool
    const interval: real
    const prepares: bool
    var slots: seq<Slot>
    var preparationAt: real
    var failed: bool
    var jobs: nat
    var tick: nat
    ghost var trace: seq<Event>
    // Whether the stop request of this environment persists, so that draining is final.
    ghost const drains: bool

    constructor (env: Env, count: nat, once: bool, interval: real, prepares: bool, ghost drains: bool)
      requires drains ==> Persistent(env)
      ensures this.env == env && this.once == once && this.drains == drains
      ensures this.interval == interval && this.prepares == prepares
      ensures Valid() && trace == [] && |slots| == count
    {
      this.env, this.once, this.interval, this.prepares := env, once, interval, prepares;
      this.drains := drains;
      slots := seq(count, _ => Slot(None, false, 0.0, 0, false, false));
      preparationAt, failed, jobs, tick := 0.0, false, 0, 0;
      trace := [];
    }

    /** Every field repeats what the trace says, and the trace is well formed. */
    ghost predicate Valid()
      reads this
    {
      && WellFormed(trace, drains)
      && Agrees(trace, slots, once)
      && Ledger(trace, jobs, failed)
      && StopHolds(trace, env, tick, drains)
    }

    /** No later stop request is behind the loop's back: dispatching is still allowed. */
    ghost predicate MayDispatch()
      reads this
    {
      drains ==> !Stopped(trace)
    }

    /** Whatever was found or touched has had its consequence, but for the listed slots, which were just found. */
    ghost predicate QuietBut(idle: seq<nat>)
      reads this
    {
      forall m: nat :: if m in idle then ViewOf(trace, m).found.Some? && ViewOf(trace, m).answer.None?
                       else Quiet(ViewOf(trace, m))
    }

    /** What one step on slot `i` leaves alone. */
    twostate predicate OnlySlot(i: nat)
      reads this
    {
      && |slots| == old(|slots|) && old(tick) <= tick && preparationAt == old(preparationAt)
      && (forall k: nat :: k < |slots| && k != i ==> slots[k] == old(slots[k]))
    }

    /** The trace grew by events of slot `i` alone. */
    twostate predicate OnlyViews(i: nat)
      reads this
    {
      forall k: nat :: k != i ==> ViewOf(trace, k) == old(ViewOf(trace, k))
    }

    /** Writes one event of slot `i` and the slot's new fields. */
    method Record(i: nat, ghost e: Event, slot: Slot, failure: bool)
      requires Valid() && i < |slots| && OfSlot(e, i) && Follows(trace, e, drains) && !e.Submitted?
      requires failure == IsFailure(e)
      requires Matches(slot, StepView(ViewOf(trace, i), e, i), once)
      modifies this`slots, this`failed, this`trace
      ensures Valid() && slots == old(slots)[i := slot] && trace == old(trace) + [e]
      ensures failed == (old(failed) || failure) && OnlyViews(i)
      ensures Stopped(trace) == old(Stopped(trace))
      ensures ViewOf(trace, i) == StepView(old(ViewOf(trace, i)), e, i)
    {
      Recorded(trace, slots, once, drains, e, i, slot);
      slots := slots[i := slot];
      failed := failed || failure;
      trace := trace + [e];
    }

    /** Reads the clock. */
    method Clock() returns (now: real)
      requires Valid()
      modifies this`tick
      ensures Valid() && tick == old(tick) + 1 && now == env.clock(old(tick))
    {
      now := env.clock(tick);
      tick := tick + 1;
    }

    /** Asks for the stop request, and remembers having seen one. */
    method Stop() returns (stop: bool)
      requires Valid()
      modifies this`tick, this`trace
      ensures Valid() && tick == old(tick) + 1 && stop == env.stop(old(tick))
      ensures trace == if stop then old(trace) + [StopSeen] else old(trace)
      ensures Stopped(trace) == (old(Stopped(trace)) || stop)
      ensures !stop ==> MayDispatch()
      ensures forall k: nat :: ViewOf(trace, k) ==
                if stop then old(ViewOf(trace, k)).(found := None) else old(ViewOf(trace, k))
    {
      stop := env.stop(tick);
      tick := tick + 1;
      if stop {
        Noted(trace, slots, once, drains, StopSeen);
        trace := trace + [StopSeen];
      }
    }

    /** What `defer` writes down of the slot. */
    static function DeferEvent(i: nat, slot: Slot, at: real): Event {
      var delay := Backoff(slot.failures + 1) as real;
      match slot.future
      case Some(job) => JobFailed(i, job, at, delay)
      case None => Deferred(i, at, delay)
    }

    /** `defer` for the slot: backoff by the failures in a row, and a fresh connection next time. */
    method Defer(i: nat) returns (ghost e: Event)
      requires Valid() && i < |slots|
      requires slots[i].future.None? ==> ViewOf(trace, i).answer == Some(InventoryRaised)
      modifies this
      ensures Valid() && OnlySlot(i) && OnlyViews(i) && failed && jobs == old(jobs)
      ensures ViewOf(trace, i) == StepView(old(ViewOf(trace, i)), e, i)
      ensures e == DeferEvent(i, old(slots[i]), env.clock(old(tick))) && trace == old(trace) + [e]
      ensures Stopped(trace) == old(Stopped(trace))
      ensures var n := old(slots[i]).failures + 1;
              slots[i] == Slot(None, false, env.clock(old(tick)) + Backoff(n) as real, n, once, false)
    {
      var now := Clock();
      var n := slots[i].failures + 1;
      e := DeferEvent(i, slots[i], now);
      assert Matches(slots[i], ViewOf(trace, i), once);
      Record(i, e, Slot(None, false, now + Backoff(n) as real, n, once, false), true);
    }

    /** A collected job leaves the slot due at once, maintenance after a second at most, the rest after the interval. */
    function Delay(ending: Ending): (delay: real)
      ensures ending.Collected? ==> delay == 0.0
      ensures ending.MaintenanceRequired? ==> delay <= 1.0 && delay <= interval && (delay == 1.0 || delay == interval)
      ensures ending.OtherState? ==> delay == interval
    {
      match ending
      case Collected => 0.0
      case MaintenanceRequired => Min(1.0, interval)
      case _ => interval
    }

    /** Takes the result of slot `i` when its future is done. */
    method CollectOne(i: nat)
      requires Valid() && i < |slots| && QuietBut([])
      modifies this
      ensures Valid() && OnlySlot(i) && jobs == old(jobs) && QuietBut([]) && old(trace) <= trace
      ensures Asked(i, old(slots[i]), |old(trace)|, old(tick))
      ensures old(slots[i]).future.None? || !env.done(old(tick)) ==> slots == old(slots) && trace == old(trace)
      ensures old(slots[i]).future.Some? && env.done(old(tick)) ==>
                if env.ending(old(slots[i]).future.value) == JobRaised
                then Raised(i, old(slots[i]), env.clock(old(tick) + 1)) && trace == old(trace) + [Last(trace)]
                else Freed(i, old(slots[i]), env.clock(old(tick) + 2)) && trace == old(trace) + [Last(trace)] &&
                     failed == old(failed)
    {
      if slots[i].future.None? {
        return;
      }
      var done := env.done(tick);
      tick := tick + 1;
      if !done {
        return;
      }
      if env.ending(slots[i].future.value) == JobRaised {
        ghost var e := Defer(i);
      } else {
        Free(i);
      }
    }

    /** A slot with a job was asked about it since: the job was taken, or it was not done. */
    ghost predicate Asked(i: nat, was: Slot, from: nat, first: nat)
      reads this
    {
      was.future.Some? ==>
        EndedBetween(trace, from, |trace|, was.future.value) || NotDoneBetween(env, first, tick)
    }

    /** The slot was deferred at `at` for the exception of its job. */
    ghost predicate Raised(i: nat, was: Slot, at: real)
      requires i < |slots| && was.future.Some?
      reads this
    {
      && trace != [] && Last(trace) == JobFailed(i, was.future.value, at, Backoff(was.failures + 1) as real)
      && slots[i].future.None? && slots[i].failures == was.failures + 1 && !slots[i].connected && failed
      && slots[i].due == at + Backoff(was.failures + 1) as real && slots[i].finished == once
    }

    /** The slot's job gave a result: failures are forgotten, and the outcome sets the due time. */
    ghost predicate Freed(i: nat, was: Slot, at: real)
      requires i < |slots| && was.future.Some?
      reads this
    {
      var job := was.future.value;
      var delay := Delay(env.ending(job));
      && trace != [] && Last(trace) == Emitted(i, job, at, delay)
      && slots[i] == Slot(None, was.connected, at + delay, 0, once, env.inspected(job))
    }

    method Free(i: nat)
      requires Valid() && i < |slots| && slots[i].future.Some?
      modifies this
      ensures Valid() && OnlySlot(i) && OnlyViews(i) && jobs == old(jobs) && failed == old(failed)
      ensures ViewOf(trace, i).found == old(ViewOf(trace, i)).found
      ensures ViewOf(trace, i).answer == old(ViewOf(trace, i)).answer
      ensures Freed(i, old(slots[i]), env.clock(old(tick) + 1)) && trace == old(trace) + [Last(trace)]
    {
      var slot, job := slots[i], slots[i].future.value;
      // one clock reading for the duration, one for the next due time
      tick := tick + 1;
      var now := Clock();
      var delay := Delay(env.ending(job));
      assert Matches(slots[i], ViewOf(trace, i), once);
      var freed := Slot(None, slot.connected, now + delay, 0, once, env.inspected(job));
      Record(i, Emitted(i, job, now, delay), freed, false);
    }

    /** Every slot below `n` has been asked about its job; the others are as they were. */
    ghost predicate AskedBelow(n: nat, was: seq<Slot>, from: nat, first: nat)
      reads this
    {
      && |slots| == |was| && n <= |was| && FinishedStays(once, was, slots)
      && (forall i: nat :: i < n ==> Asked(i, was[i], from, first))
      && (forall i: nat :: i < |was| && (was[i].future.None? || n <= i) ==> slots[i] == was[i])
    }

    method CollectAll()
      requires Valid() && QuietBut([])
      modifies this
      ensures Valid() && QuietBut([]) && old(trace) <= trace && old(tick) <= tick
      ensures preparationAt == old(preparationAt)
      ensures AskedLaw(env, trace, old(Now()), Now()) && FinishedStays(once, old(slots), slots)
    {
      for i := 0 to |slots|
        invariant Valid() && QuietBut([]) && old(trace) <= trace && old(tick) <= tick
        invariant preparationAt == old(preparationAt)
        invariant AskedBelow(i, old(slots), |old(trace)|, old(tick))
      {
        AskNext(i, old(slots), |old(trace)|, old(tick));
      }
    }

    method AskNext(i: nat, ghost was: seq<Slot>, ghost from: nat, ghost first: nat)
      requires Valid() && QuietBut([]) && i < |slots| && from <= |trace| && first <= tick
      requires AskedBelow(i, was, from, first)
      modifies this
      ensures Valid() && QuietBut([]) && old(trace) <= trace && old(tick) <= tick
      ensures preparationAt == old(preparationAt)
      ensures AskedBelow(i + 1, was, from, first)
    {
      CollectOne(i);
    }

    // ---------------------------------------------------------------- dispatch

    predicate IsFree(i: nat)
      reads this
    {
      i < |slots| && IsFreeSlot(slots[i])
    }

    /** What connecting, if needed, and inspecting the slot from now on will answer. */
    function Answered(i: nat): Inventory
      requires i < |slots|
      reads this
    {
      if slots[i].connected then env.inventory(tick)
      else if env.connects(tick) then env.inventory(tick + 1)
      else InventoryRaised
    }

    /** Connects and inspects one idle slot, then submits its job, defers it, or leaves it for later. */
    method DispatchOne(i: nat) returns (ghost e: Event)
      requires Valid() && IsFree(i) && MayDispatch()
      requires ViewOf(trace, i).found.Some? && ViewOf(trace, i).answer.None?
      modifies this
      ensures Valid() && OnlySlot(i) && OnlyViews(i) && MayDispatch() && Quiet(ViewOf(trace, i))
      ensures trace == old(trace) + [Touched(i, old(Answered(i)))] + [e]
      ensures Outcome(e, old(jobs), i) && Concludes(e, old(Answered(i)))
    {
      assert slots[i := slots[i]] == slots;
      assert Matches(slots[i], ViewOf(trace, i), once);
      Record(i, Touched(i, Answered(i)), slots[i], false);
      e := Attempt(i);
    }

    /** The event submitted the slot's next job, or says why not. */
    ghost predicate Outcome(e: Event, job: nat, i: nat)
      reads this
    {
      && i < |slots| && OfSlot(e, i)
      && if slots[i].future.Some?
         then e == Submitted(i, job) && slots[i].future.value == job && jobs == job + 1 && slots[i].connected
         else IsFailure(e) && jobs == job && slots[i].finished == once && failed
    }

    method Attempt(i: nat) returns (ghost e: Event)
      requires Valid() && IsFree(i) && MayDispatch()
      requires ViewOf(trace, i).found.None? && ViewOf(trace, i).answer == Some(Answered(i))
      modifies this
      ensures Valid() && OnlySlot(i) && OnlyViews(i) && MayDispatch() && Quiet(ViewOf(trace, i))
      ensures trace == old(trace) + [e] && Outcome(e, old(jobs), i) && Concludes(e, old(Answered(i)))
    {
      var connected := Connect(i);
      var inventory := InventoryRaised;
      if connected {
        inventory := Inspect(i);
      }
      e := Conclude(i, inventory);
    }

    method Conclude(i: nat, inventory: Inventory) returns (ghost e: Event)
      requires Valid() && IsFree(i) && MayDispatch()
      requires ViewOf(trace, i).found.None? && ViewOf(trace, i).answer == Some(inventory)
      requires inventory.Ready? ==> slots[i].connected
      modifies this
      ensures Valid() && OnlySlot(i) && OnlyViews(i) && MayDispatch() && Quiet(ViewOf(trace, i))
      ensures trace == old(trace) + [e] && Outcome(e, old(jobs), i) && Concludes(e, inventory)
    {
      match inventory {
        case InventoryRaised => e := Defer(i);
        case NotReady(retryAfter) => e := Postpone(i, retryAfter);
        case Ready => e := Submit(i);
      }
    }

    /** Changes of the slot's connection and inspection, which the trace does not record. */
    method Mark(i: nat, connected: bool, inspected: bool)
      requires Valid() && i < |slots|
      modifies this`slots
      ensures Valid() && OnlySlot(i)
      ensures slots[i] == old(slots[i]).(connected := connected, inspected := inspected)
    {
      slots := slots[i := slots[i].(connected := connected, inspected := inspected)];
    }

    method Connect(i: nat) returns (ok: bool)
      requires Valid() && i < |slots|
      modifies this`slots, this`tick
      ensures Valid() && OnlySlot(i)
      ensures slots[i] == old(slots[i]).(connected := ok)
      ensures ok <==> old(slots[i]).connected || env.connects(old(tick))
      ensures tick == old(tick) + if old(slots[i]).connected then 0 else 1
    {
      ok := true;
      if !slots[i].connected {
        ok := env.connects(tick);
        tick := tick + 1;
        Mark(i, ok, slots[i].inspected);
      }
    }

    method Inspect(i: nat) returns (inventory: Inventory)
      requires Valid() && i < |slots|
      modifies this`slots, this`tick
      ensures Valid() && OnlySlot(i)
      ensures inventory == env.inventory(old(tick))
      ensures slots[i] == old(slots[i]).(inspected := env.inspected(old(tick)))
    {
      inventory := env.inventory(tick);
      Mark(i, slots[i].connected, env.inspected(tick));
      tick := tick + 1;
    }

    /** At least the interval, and beyond it what was asked for, up to two minutes. */
    function RetryDelay(retryAfter: int): (delay: real)
      ensures interval <= delay && (delay == interval || delay <= 120.0)
      ensures retryAfter <= 120 ==> retryAfter as real <= delay && (delay == interval || delay == retryAfter as real)
      ensures retryAfter > 120 ==> 120.0 <= delay && (delay == interval || delay == 120.0)
    {
      Max(interval, if retryAfter < 120 then retryAfter as real else 120.0)
    }

    /** An inventory that is not ready: no backoff, but a failed run and a later look. */
    method Postpone(i: nat, retryAfter: int) returns (ghost e: Event)
      requires Valid() && IsFree(i) && ViewOf(trace, i).answer == Some(NotReady(retryAfter))
      modifies this
      ensures ViewOf(trace, i) == StepView(old(ViewOf(trace, i)), e, i)
      ensures Valid() && OnlySlot(i) && OnlyViews(i) && jobs == old(jobs) && failed
      ensures Stopped(trace) == old(Stopped(trace))
      ensures e == Unready(i, env.clock(old(tick)), RetryDelay(retryAfter)) && trace == old(trace) + [e]
      ensures slots[i] == old(slots[i]).(due := env.clock(old(tick)) + RetryDelay(retryAfter), finished := once)
    {
      var now := Clock();
      e := Unready(i, now, RetryDelay(retryAfter));
      assert Matches(slots[i], ViewOf(trace, i), once);
      Record(i, e, slots[i].(due := now + RetryDelay(retryAfter), finished := once), true);
    }

    method Submit(i: nat) returns (ghost e: Event)
      requires Valid() && IsFree(i) && MayDispatch() && ViewOf(trace, i).answer == Some(Ready)
      modifies this
      ensures ViewOf(trace, i) == StepView(old(ViewOf(trace, i)), e, i)
      ensures Valid() && OnlySlot(i) && OnlyViews(i) && jobs == old(jobs) + 1 && failed == old(failed)
      ensures Stopped(trace) == old(Stopped(trace))
      ensures e == Submitted(i, old(jobs)) && trace == old(trace) + [e]
      ensures slots[i] == old(slots[i]).(future := Some(old(jobs)))
    {
      // one clock reading for the start time
      tick := tick + 1;
      e := Submitted(i, jobs);
      var slot := slots[i].(future := Some(jobs));
      assert Matches(slots[i], ViewOf(trace, i), once);
      Recorded(trace, slots, once, drains, e, i, slot);
      slots := slots[i := slot];
      trace := trace + [e];
      jobs := jobs + 1;
    }

    /** Is the free slot due by a clock reading taken now? */
    method LookAt(i: nat) returns (due: bool)
      requires Valid() && IsFree(i) && Quiet(ViewOf(trace, i))
      modifies this`tick, this`slots, this`failed, this`trace
      ensures Valid() && slots == old(slots) && failed == old(failed) && tick == old(tick) + 1
      ensures due <==> slots[i].due <= env.clock(old(tick))
      ensures trace == if due then old(trace) + [Found(i, env.clock(old(tick)))] else old(trace)
      ensures OnlyViews(i) && Stopped(trace) == old(Stopped(trace))
      ensures if due then ViewOf(trace, i).found.Some? && ViewOf(trace, i).answer.None? else Quiet(ViewOf(trace, i))
    {
      var now := Clock();
      due := slots[i].due <= now;
      if due {
        assert Matches(slots[i], ViewOf(trace, i), once);
        Record(i, Found(i, now), slots[i], false);
        assert slots == old(slots);
      }
    }

    /** Looks at slot `i`, whose predecessors have been considered. */
    method Consider(idle: seq<nat>, i: nat, ghost first: nat) returns (more: seq<nat>)
      requires Valid() && i < |slots| && first <= tick
      requires Considered(env, slots, idle, i, first, tick)
      requires QuietBut(idle) && forall k :: 0 <= k < |idle| ==> idle[k] < i
      modifies this`tick, this`slots, this`failed, this`trace
      ensures Valid() && slots == old(slots) && failed == old(failed) && old(tick) <= tick && old(trace) <= trace
      ensures Stopped(trace) == old(Stopped(trace))
      ensures Considered(env, slots, more, i + 1, first, tick) && QuietBut(more)
      ensures more == idle || more == idle + [i]
    {
      more := idle;
      if IsFree(i) {
        LookedAt(env, slots, idle, i, first, tick);
        var due := LookAt(i);
        if due {
          assert forall m :: m in idle + [i] <==> m in idle || m == i;
          more := idle + [i];
        }
      }
    }

    /** The idle slots: free, unfinished and due at the moment each is looked at. */
    method IdleSlots() returns (idle: seq<nat>)
      requires Valid() && QuietBut([])
      modifies this`tick, this`slots, this`failed, this`trace
      ensures Valid() && slots == old(slots) && failed == old(failed) && old(tick) <= tick && old(trace) <= trace
      ensures Stopped(trace) == old(Stopped(trace))
      ensures Considered(env, slots, idle, |slots|, old(tick), tick) && Rising(idle) && QuietBut(idle)
    {
      idle := [];
      for i := 0 to |slots|
        invariant Valid() && slots == old(slots) && failed == old(failed) && old(tick) <= tick && old(trace) <= trace
        invariant Stopped(trace) == old(Stopped(trace))
        invariant Considered(env, slots, idle, i, old(tick), tick) && QuietBut(idle)
        invariant Rising(idle) && forall k :: 0 <= k < |idle| ==> idle[k] < i
      {
        idle := Consider(idle, i, old(tick));
      }
    }

    /** Preparation sees every free, connected and inspected slot, at most once in thirty seconds. */
    method Prepare()
      requires Valid() && MayDispatch()
      modifies this`tick, this`trace, this`slots, this`preparationAt
      ensures Valid() && old(tick) <= tick && MayDispatch() && old(trace) <= trace
      ensures forall k: nat :: ViewOf(trace, k) == old(ViewOf(trace, k))
      ensures |slots| == old(|slots|) && forall i: nat :: old(IsFree(i)) ==> IsFree(i)
      ensures old(PreparationDue()) ==>
                && trace == old(trace) + [Prepared(Available(old(slots)))]
                && preparationAt == env.clock(old(tick) + 1) + 30.0
                && slots == Reinstalled(old(slots), env.reinstalls(old(tick) + 2) * Available(old(slots)))
                && forall i: nat :: i < |slots| ==>
                     if i in env.reinstalls(old(tick) + 2) && i in Available(old(slots))
                     then !slots[i].inspected && slots[i].connected
                     else slots[i] == old(slots)[i]
      ensures !old(PreparationDue()) ==>
                trace == old(trace) && preparationAt == old(preparationAt) && slots == old(slots)
      ensures prepares && Available(old(slots)) != {} ==> old(tick) < tick
    {
      var available := Available(slots);
      if prepares && available != {} {
        var now := Clock();
        if now >= preparationAt {
          PrepareNow(available);
        }
      }
    }

    /** There is somebody to prepare, and the thirty seconds are over by the next clock reading. */
    predicate PreparationDue()
      reads this
    {
      prepares && Available(slots) != {} && env.clock(tick) >= preparationAt
    }

    method PrepareNow(available: set<nat>)
      requires Valid() && MayDispatch() && available == Available(slots)
      modifies this`tick, this`trace, this`slots, this`preparationAt
      ensures Valid() && old(tick) <= tick && MayDispatch()
      ensures trace == old(trace) + [Prepared(available)]
      ensures preparationAt == env.clock(old(tick)) + 30.0
      ensures slots == Reinstalled(old(slots), env.reinstalls(old(tick) + 1) * available)
      ensures |slots| == old(|slots|) && forall i: nat :: old(IsFree(i)) ==> IsFree(i)
      ensures forall k: nat :: ViewOf(trace, k) == old(ViewOf(trace, k))
    {
      var now := Clock();
      preparationAt := now + 30.0;
      RecordPrepared(available);
    }

    /** `preparation.once`; what it reports or raises is emitted without further effect on the slots. */
    method RecordPrepared(available: set<nat>)
      requires Valid() && MayDispatch() && available == Available(slots)
      modifies this`tick, this`trace, this`slots
      ensures Valid() && tick == old(tick) + 1 && MayDispatch()
      ensures trace == old(trace) + [Prepared(available)]
      ensures slots == Reinstalled(old(slots), env.reinstalls(old(tick)) * available)
      ensures |slots| == old(|slots|) && forall i: nat :: old(IsFree(i)) ==> IsFree(i)
      ensures forall k: nat :: ViewOf(trace, k) == old(ViewOf(trace, k))
    {
      PreparedKept(trace, slots, once, drains, env.reinstalls(tick) * available);
      trace := trace + [Prepared(available)];
      slots := Reinstalled(slots, env.reinstalls(tick) * available);
      tick := tick + 1;
    }

    /** The idle slots from the `n`-th on can still be dispatched, and nothing else is due an answer. */
    ghost predicate Waiting(idle: seq<nat>, n: nat)
      requires n <= |idle|
      reads this
    {
      (forall k :: n <= k < |idle| ==> IsFree(idle[k])) && QuietBut(idle[n..])
    }

    /** The first `n` idle slots have been touched since. */
    ghost predicate Served(idle: seq<nat>, n: nat, from: nat)
      requires n <= |idle|
      reads this
    {
      forall k :: 0 <= k < n ==> TouchedBetween(trace, from, |trace|, idle[k])
    }

    method DispatchNext(idle: seq<nat>, n: nat, ghost from: nat) returns (stopped: bool)
      requires Valid() && MayDispatch() && n < |idle| && Rising(idle) && from <= |trace|
      requires Waiting(idle, n) && Served(idle, n, from)
      modifies this
      ensures Valid() && |slots| == old(|slots|) && old(trace) <= trace && old(tick) <= tick
      ensures preparationAt == old(preparationAt)
      ensures if stopped then StoppedBetween(trace, from, |trace|) && QuietBut([])
              else MayDispatch() && Waiting(idle, n + 1) && Served(idle, n + 1, from)
    {
      assert idle[n..] == [idle[n]] + idle[n + 1..];
      stopped := Stop();
      if stopped {
        assert trace[|trace| - 1] == StopSeen;
      } else {
        TouchNext(idle, n, from);
      }
    }

    method TouchNext(idle: seq<nat>, n: nat, ghost from: nat)
      requires Valid() && MayDispatch() && n < |idle| && Rising(idle) && from <= |trace|
      requires Waiting(idle, n) && Served(idle, n, from)
      modifies this
      ensures Valid() && |slots| == old(|slots|) && old(trace) <= trace && old(tick) <= tick
      ensures preparationAt == old(preparationAt)
      ensures MayDispatch() && Waiting(idle, n + 1) && Served(idle, n + 1, from)
    {
      assert idle[n..] == [idle[n]] + idle[n + 1..];
      ghost var before := trace;
      ghost var e := DispatchOne(idle[n]);
      assert trace[|before|].Touched? && trace[|before|].slot == idle[n];
      assert forall k :: n < k < |idle| ==> idle[k] != idle[n];
    }

    /** Dispatches the idle slots in turn; a stop request seen before one of them ends it. */
    method Dispatch(idle: seq<nat>) returns (stopped: bool)
      requires Valid() && MayDispatch() && Rising(idle) && Waiting(idle, 0)
      modifies this
      ensures Valid() && |slots| == old(|slots|) && old(trace) <= trace && old(tick) <= tick && QuietBut([])
      ensures preparationAt == old(preparationAt)
      ensures StoppedBetween(trace, |old(trace)|, |trace|) || Served(idle, |idle|, |old(trace)|)
    {
      for n := 0 to |idle|
        invariant Valid() && |slots| == old(|slots|) && old(trace) <= trace && old(tick) <= tick && MayDispatch()
        invariant preparationAt == old(preparationAt)
        invariant Waiting(idle, n) && Served(idle, n, |old(trace)|)
      {
        stopped := DispatchNext(idle, n, |old(trace)|);
        if stopped {
          return;
        }
      }
      assert idle[|idle|..] == [];
      stopped := false;
    }

    /** Where the loop stands. */
    ghost function Now(): Moment
      reads this
    {
      Moment(slots, preparationAt, tick, |trace|)
    }

    /** Nothing is left to do but to wait for the jobs that are out. */
    ghost predicate Winding()
      reads this
    {
      (drains && Stopped(trace)) || (once && forall i: nat :: i < |slots| ==> slots[i].finished)
    }

    /** Prepares, with what it means for every available slot. */
    method PrepareAll(ghost a: Moment)
      requires Valid() && MayDispatch() && a.slots == slots && a.preparationAt == preparationAt
      requires a.length <= |trace| && a.tick <= tick
      modifies this`tick, this`trace, this`slots, this`preparationAt
      ensures Valid() && old(tick) <= tick && MayDispatch() && old(trace) <= trace
      ensures forall k: nat :: ViewOf(trace, k) == old(ViewOf(trace, k))
      ensures |slots| == old(|slots|) && forall i: nat :: old(IsFree(i)) ==> IsFree(i)
      ensures PreparedOrEarly(env, prepares, trace, a, tick)
    {
      ghost var from, at := |trace|, tick;
      ghost var due := PreparationDue();
      Prepare();
      if due {
        assert trace[from] == Prepared(Available(a.slots));
      } else if prepares && Available(a.slots) != {} {
        assert env.clock(at) < a.preparationAt;
      }
    }

    /** Looks for idle slots, prepares, and dispatches. */
    method Work()
      requires Valid() && QuietBut([]) && MayDispatch()
      modifies this
      ensures Valid() && QuietBut([]) && |slots| == old(|slots|) && old(trace) <= trace && old(tick) <= tick
      ensures FreeLaw(env, prepares, trace, old(Now()), Now())
    {
      ghost var a := Now();
      var idle := IdleSlots();
      ghost var looked := tick;
      PrepareAll(a);
      ghost var prepared, ready := trace, tick;
      assert idle[0..] == idle;
      var stopped := Dispatch(idle);
      assert AllTouched(trace, |prepared|, idle);
      WorkOfParts(env, prepares, prepared, trace, a, Now(), idle, looked, ready);
    }

    /** One pass of the endless loop; a result ends it. */
    method Pass() returns (r: Option<bool>)
      requires Valid() && QuietBut([])
      modifies this
      ensures Valid() && QuietBut([]) && |slots| == old(|slots|) && old(trace) <= trace
      ensures r.Some? ==> trace != [] && Last(trace) == Returned(r.value)
      ensures r.Some? && !Stopped(trace) ==> once && forall i :: 0 <= i < |slots| ==> slots[i].finished
      ensures old(Winding()) ==> (r.Some? <==> forall i: nat :: i < |slots| ==> slots[i].future.None?)
      ensures PassLaw(env, prepares, trace, old(Now()), Now())
    {
      CollectAll();
      ghost var asked, mid := trace, Now();
      r := WindOrWork();
      PassOfParts(env, prepares, asked, trace, old(Now()), mid, Now());
    }

    method WindOrWork() returns (r: Option<bool>)
      requires Valid() && QuietBut([])
      modifies this
      ensures Valid() && QuietBut([]) && |slots| == old(|slots|) && old(trace) <= trace
      ensures r.Some? ==> trace != [] && Last(trace) == Returned(r.value)
      ensures r.Some? && !Stopped(trace) ==> once && forall i :: 0 <= i < |slots| ==> slots[i].finished
      ensures old(Winding()) ==> (r.Some? <==> forall i: nat :: i < |slots| ==> slots[i].future.None?)
      ensures FreeLaw(env, prepares, trace, old(Now()), Now())
    {
      ghost var a := Now();
      var draining := Stop();
      ghost var stopped, at := trace, tick;
      if draining || (once && forall i | 0 <= i < |slots| :: slots[i].finished) {
        r := Finish();
        WoundLaw(stopped, a, draining);
        return;
      }
      Work();
      FreeLawEarlier(env, prepares, trace, a, a.(tick := at, length := |stopped|), Now());
      return None;
    }

    /** A pass that only winds down owes the slots nothing: a stop was seen, or all are finished. */
    lemma WoundLaw(stopped: seq<Event>, a: Moment, draining: bool)
      requires stopped <= trace && a.length <= |stopped| && a.tick <= tick && a.slots == slots
      requires if draining then |stopped| == a.length + 1 && stopped[a.length] == StopSeen
               else forall i :: 0 <= i < |slots| ==> slots[i].finished
      ensures FreeLaw(env, prepares, trace, a, Now())
    {
      if draining {
        assert trace[a.length] == StopSeen;
        assert StoppedBetween(trace, a.length, |trace|);
      }
    }

    /** Returns as soon as no job is outstanding. */
    method Finish() returns (r: Option<bool>)
      requires Valid() && QuietBut([])
      modifies this`trace
      ensures Valid() && QuietBut([])
      ensures r.Some? <==> forall i :: 0 <= i < |slots| ==> slots[i].future.None?
      ensures trace == match r case None => old(trace) case Some(ok) => old(trace) + [Returned(ok)]
    {
      if exists i | 0 <= i < |slots| :: slots[i].future.Some? {
        return None;
      }
      NobodyLive(trace, slots, once);
      Noted(trace, slots, once, drains, Returned(!failed));
      trace := trace + [Returned(!failed)];
      return Some(!failed);
    }

    /**
     * The loop, for as many passes as the caller watches it.  Whenever it returns, no job
     * is outstanding, every job was emitted exactly once, in once mode no slot ran twice,
     * and the result is true exactly when nothing failed.  Each pass does its work: `seen`
     * tells where the loop stood between them.
     */
    method Run(passes: nat) returns (r: Option<bool>, ghost seen: seq<Moment>)
      requires Valid() && QuietBut([])
      modifies this
      ensures Valid() && QuietBut([]) && old(trace) <= trace
      ensures r.Some? ==> Ended(trace) && (forall i :: Live(trace, i).None?) && (r.value <==> !Failed(trace))
      ensures r.Some? ==> forall job: nat :: Endings(trace, job) == if job < jobs then 1 else 0
      ensures once ==> forall i: nat :: i < |slots| ==> ViewOf(trace, i).submissions <= 1
      ensures drains ==> Drained(trace)
      ensures PassesLaw(env, prepares, trace, seen) && seen[0] == old(Now()) && seen[|seen| - 1] == Now()
      ensures r.None? ==> |seen| == passes + 1
    {
      r := None;
      seen := [Now()];
      for n := 0 to passes
        invariant Valid() && QuietBut([]) && old(trace) <= trace && r.None?
        invariant |seen| == n + 1 && seen[0] == old(Now()) && seen[n] == Now()
        invariant PassesLaw(env, prepares, trace, seen)
      {
        ghost var before := trace;
        r := Pass();
        PassesExtend(env, prepares, before, trace, seen, Now());
        seen := seen + [Now()];
        if r.Some? {
          AllEmitted(r.value);
          ReturnedIsQuiet(trace, drains);
          break;
        }
      }
      SubmittedOnce();
      if drains {
        NothingAfterStop(trace);
      }
    }

    lemma SubmittedOnce()
      requires Valid()
      ensures once ==> forall i: nat :: i < |slots| ==> ViewOf(trace, i).submissions <= 1
    {
    }

    lemma AllEmitted(ok: bool)
      requires Valid() && trace != [] && Last(trace) == Returned(ok)
      ensures forall job: nat :: Endings(trace, job) == if job < jobs then 1 else 0
    {
      forall job: nat ensures Endings(trace, job) == if job < jobs then 1 else 0 {
        EveryJobEmittedOnce(trace, drains, ok, job);
      }
    }
  }

  ghost predicate Ended(trace: seq<Event>) {
    trace != [] && Last(trace).Returned?
  }

  lemma ReturnedIsQuiet(trace: seq<Event>, drains: bool)
    requires WellFormed(trace, drains) && Ended(trace)
    ensures forall i :: Live(trace, i).None?
    ensures Last(trace).ok <==> !Failed(trace)
  {
    Appended(Init(trace), Last(trace), drains);
    assert trace == Init(trace) + [Last(trace)];
  }
}
