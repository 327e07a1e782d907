/**
 * The offline capacity simulator: a discrete-event loop over two priority queues.
 *
 * One queue holds the pending event of every slot, the other the accounts waiting for
 * their next read.  Times are exact reals; the random choice of a duration is any
 * choice.
 */
module CapacityModel {
  import opened Outcomes
  import opened Sequences
  import opened CapacityReport

  const WARMUP: real := 120.0
  const IMPORT_SECONDS: real := 30.0
  const POLL_SECONDS: real := 10.0

  datatype Params = Params(
    durations: seq<real>, accounts: nat, slots: nat, cadence: real, cooldown: real, initial: nat, finish: real)
  {
    predicate Valid() {
      && 0.0 < cadence && 0.0 <= cooldown && durations != []
      && forall i :: 0 <= i < |durations| ==> 0.0 <= durations[i]
    }
  }

  datatype Kind = Claim | Complete(account: nat) | InitialDone

  datatype Event = Event(time: real, slot: nat, kind: Kind)

  datatype Due = Due(time: real, account: nat)

  /** The variables of the loop; `imported` counts the finished first imports, which the source does not keep. */
  datatype Sim = Sim(
    events: seq<Event>,
    due: seq<Due>,
    last: map<nat, real>,
    claimed: map<nat, real>,
    readStarted: map<nat, real>,
    activeInitial: int,
    remainingInitial: nat,
    imported: nat,
    waits: seq<real>,
    gaps: seq<real>,
    bounds: seq<real>,
    completed: nat)

  // ------------------------------------------------------------------ priority queues

  /** Heap order of events.  Kinds and accounts would be compared only between equal slots. */
  predicate Sooner(a: Event, b: Event) {
    a.time < b.time || (a.time == b.time && a.slot < b.slot)
  }

  predicate DueSooner(a: Due, b: Due) {
    a.time < b.time || (a.time == b.time && a.account < b.account)
  }

  ghost predicate IsNext(events: seq<Event>, k: nat) {
    k < |events| && forall i :: 0 <= i < |events| && i != k ==> Sooner(events[k], events[i])
  }

  ghost predicate IsNextDue(due: seq<Due>, j: nat) {
    j < |due| && forall i :: 0 <= i < |due| && i != j ==> DueSooner(due[j], due[i])
  }

  method NextEvent(events: seq<Event>) returns (k: nat)
    requires events != []
    requires forall i, j :: 0 <= i < j < |events| ==> events[i].slot != events[j].slot
    ensures IsNext(events, k)
  {
    k := 0;
    for i := 1 to |events|
      invariant k < i
      invariant forall m :: 0 <= m < i && m != k ==> Sooner(events[k], events[m])
    {
      if Sooner(events[i], events[k]) {
        k := i;
      }
    }
  }

  method NextDue(due: seq<Due>) returns (j: nat)
    requires due != []
    requires forall i, j :: 0 <= i < j < |due| ==> due[i].account != due[j].account
    ensures IsNextDue(due, j)
  {
    j := 0;
    for i := 1 to |due|
      invariant j < i
      invariant forall m :: 0 <= m < i && m != j ==> DueSooner(due[j], due[m])
    {
      if DueSooner(due[i], due[j]) {
        j := i;
      }
    }
  }

  // ------------------------------------------------------------------ counting in a queue

  ghost function Total<T>(s: seq<T>, w: T -> nat): nat {
    if s == [] then 0 else w(s[0]) + Total(s[1..], w)
  }

  lemma {:induction false} TotalPush<T>(s: seq<T>, x: T, w: T -> nat)
    ensures Total(s + [x], w) == Total(s, w) + w(x)
  {
    if s == [] {
      assert s + [x] == [x];
    } else {
      TotalPush(s[1..], x, w);
      assert (s + [x])[1..] == s[1..] + [x];
    }
  }

  lemma {:induction false} TotalWithout<T>(s: seq<T>, k: nat, w: T -> nat)
    requires k < |s|
    ensures Total(s, w) == w(s[k]) + Total(Without(s, k), w)
  {
    if k == 0 {
      assert Without(s, k) == s[1..];
    } else {
      TotalWithout(s[1..], k - 1, w);
      assert Without(s, k)[1..] == Without(s[1..], k - 1);
    }
  }

  lemma TotalOfTwo<T>(s: seq<T>, i: nat, j: nat, w: T -> nat)
    requires i < j < |s|
    ensures w(s[i]) + w(s[j]) <= Total(s, w)
  {
    TotalWithout(s, j, w);
    TotalWithout(Without(s, j), i, w);
  }

  lemma TotalOfMember<T>(s: seq<T>, x: T, w: T -> nat)
    requires x in s
    ensures w(x) <= Total(s, w)
  {
    var i :| 0 <= i < |s| && s[i] == x;
    TotalWithout(s, i, w);
  }

  function OfSlot(slot: nat): Event -> nat {
    (e: Event) => if e.slot == slot then 1 else 0
  }

  /** Events that carry the account in flight. */
  function Flying(account: nat): Event -> nat {
    (e: Event) => if e.kind == Complete(account) then 1 else 0
  }

  function Waiting(account: nat): Due -> nat {
    (d: Due) => if d.account == account then 1 else 0
  }

  function Importing(): Event -> nat {
    (e: Event) => if e.kind.InitialDone? then 1 else 0
  }

  // ------------------------------------------------------------------ the branches of the loop

  function InitialDoneStep(p: Params, st: Sim, k: nat): Sim
    requires k < |st.events|
  {
    var e := st.events[k];
    st.(activeInitial := st.activeInitial - 1,
        imported := st.imported + 1,
        events := Without(st.events, k) + [Event(e.time + p.cooldown, e.slot, Claim)])
  }

  function CompleteStep(p: Params, st: Sim, k: nat): Sim
    requires k < |st.events| && st.events[k].kind.Complete?
    requires st.events[k].kind.account in st.claimed
    requires st.events[k].kind.account in st.last ==> st.events[k].kind.account in st.readStarted
  {
    var e := st.events[k];
    var now, a := e.time, e.kind.account;
    var measured := a in st.last && now >= WARMUP;
    st.(gaps := if measured then st.gaps + [now - st.last[a]] else st.gaps,
        bounds := if measured then st.bounds + [now - st.readStarted[a]] else st.bounds,
        last := st.last[a := now],
        readStarted := st.readStarted[a := st.claimed[a]],
        completed := st.completed + 1,
        due := st.due + [Due(now + p.cadence, a)],
        events := Without(st.events, k) + [Event(now + p.cooldown, e.slot, Claim)])
  }

  function ImportStep(p: Params, st: Sim, k: nat): Sim
    requires k < |st.events| && st.remainingInitial > 0
  {
    var e := st.events[k];
    st.(remainingInitial := st.remainingInitial - 1,
        activeInitial := st.activeInitial + 1,
        events := Without(st.events, k) + [Event(e.time + IMPORT_SECONDS, e.slot, InitialDone)])
  }

  function ServeStep(p: Params, st: Sim, k: nat, j: nat, duration: real): Sim
    requires k < |st.events| && j < |st.due|
  {
    var e, d := st.events[k], st.due[j];
    st.(due := Without(st.due, j),
        waits := if e.time >= WARMUP then st.waits + [e.time - d.time] else st.waits,
        claimed := st.claimed[d.account := e.time],
        events := Without(st.events, k) + [Event(e.time + duration, e.slot, Complete(d.account))])
  }

  function PollStep(p: Params, st: Sim, k: nat): Sim
    requires k < |st.events|
  {
    var e := st.events[k];
    st.(events := Without(st.events, k) + [Event(e.time + POLL_SECONDS, e.slot, Claim)])
  }

  predicate MayImport(st: Sim) {
    st.remainingInitial > 0 && st.activeInitial < 2
  }

  /** One iteration: `next` follows from popping the least event, which is not past the end. */
  ghost predicate Next(p: Params, st: Sim, next: Sim, now: real) {
    exists k: nat :: IsNext(st.events, k) && st.events[k].time == now && now <= p.finish && After(p, st, next, k)
  }

  ghost predicate After(p: Params, st: Sim, next: Sim, k: nat)
    requires k < |st.events|
  {
    var e := st.events[k];
    match e.kind
    case InitialDone => next == InitialDoneStep(p, st, k)
    case Complete(a) =>
      a in st.claimed && (a in st.last ==> a in st.readStarted) && next == CompleteStep(p, st, k)
    case Claim =>
      if MayImport(st) then next == ImportStep(p, st, k)
      else Served(p, st, next, k) || (next == PollStep(p, st, k) && NothingDue(st, e.time))
  }

  ghost predicate Served(p: Params, st: Sim, next: Sim, k: nat)
    requires k < |st.events|
  {
    exists j: nat, d: real ::
      IsNextDue(st.due, j) && st.due[j].time <= st.events[k].time && d in p.durations &&
      next == ServeStep(p, st, k, j, d)
  }

  predicate NothingDue(st: Sim, now: real) {
    forall d | d in st.due :: now < d.time
  }

  /** Slots `first`, `first + 1`, ... claim at once. */
  function FirstClaims(first: nat, count: nat): seq<Event>
    decreases count
  {
    if count == 0 then [] else [Event(0.0, first, Claim)] + FirstClaims(first + 1, count - 1)
  }

  function FirstDue(first: nat, count: nat): seq<Due>
    decreases count
  {
    if count == 0 then [] else [Due(0.0, first)] + FirstDue(first + 1, count - 1)
  }

  function Initial(p: Params): Sim {
    Sim(FirstClaims(0, p.slots), FirstDue(0, p.accounts),
        map[], map[], map[], 0, p.initial, 0, [], [], [], 0)
  }

  // ------------------------------------------------------------------ conservation

  /** Every slot owns exactly one pending event. */
  ghost predicate SlotsConserved(p: Params, events: seq<Event>) {
    forall slot: nat :: Total(events, OfSlot(slot)) == if slot < p.slots then 1 else 0
  }

  /** Every account is either waiting or in flight, exactly once. */
  ghost predicate AccountsConserved(p: Params, st: Sim) {
    forall a: nat :: Total(st.due, Waiting(a)) + Total(st.events, Flying(a)) == if a < p.accounts then 1 else 0
  }

  /** Active imports are the pending import events; no import is lost. */
  ghost predicate ImportsConserved(p: Params, st: Sim) {
    && st.activeInitial == Total(st.events, Importing())
    && st.activeInitial <= 2
    && st.remainingInitial + st.activeInitial + st.imported == p.initial
  }

  /** No event lies before the clock. */
  ghost predicate TimesAhead(st: Sim, now: real) {
    && 0.0 <= now
    && forall e :: e in st.events ==> now <= e.time
  }

  /** An account waits one cadence after its last completion; a read starts no earlier. */
  ghost predicate CadenceKept(p: Params, st: Sim, now: real) {
    && (forall d :: d in st.due ==>
          d.time == if d.account in st.last then st.last[d.account] + p.cadence else 0.0)
    && (forall e :: e in st.events && e.kind.Complete? ==>
          && e.kind.account in st.claimed && st.claimed[e.kind.account] <= now
          && (e.kind.account in st.last ==> st.last[e.kind.account] + p.cadence <= st.claimed[e.kind.account]))
    && (forall a :: a in st.last ==> st.last[a] <= now && a in st.readStarted && st.readStarted[a] <= st.last[a])
  }

  /** Each measured visibility bound covers its completion gap, which is at least the cadence. */
  ghost predicate StatisticsSound(p: Params, st: Sim) {
    && |st.gaps| == |st.bounds|
    && (forall i :: 0 <= i < |st.gaps| ==> p.cadence <= st.gaps[i] <= st.bounds[i])
    && (forall i :: 0 <= i < |st.waits| ==> 0.0 <= st.waits[i])
  }

  ghost predicate Inv(p: Params, st: Sim, now: real) {
    && SlotsConserved(p, st.events)
    && AccountsConserved(p, st)
    && ImportsConserved(p, st)
    && TimesAhead(st, now)
    && CadenceKept(p, st, now)
    && StatisticsSound(p, st)
  }

  lemma DistinctSlots(p: Params, events: seq<Event>)
    requires SlotsConserved(p, events)
    ensures forall i, j :: 0 <= i < j < |events| ==> events[i].slot != events[j].slot
    ensures forall e :: e in events ==> e.slot < p.slots
  {
    forall i, j | 0 <= i < j < |events| ensures events[i].slot != events[j].slot {
      TotalOfTwo(events, i, j, OfSlot(events[i].slot));
    }
    forall e | e in events ensures e.slot < p.slots {
      TotalOfMember(events, e, OfSlot(e.slot));
    }
  }

  lemma DistinctDue(p: Params, st: Sim)
    requires AccountsConserved(p, st)
    ensures forall i, j :: 0 <= i < j < |st.due| ==> st.due[i].account != st.due[j].account
  {
    forall i, j | 0 <= i < j < |st.due| ensures st.due[i].account != st.due[j].account {
      TotalOfTwo(st.due, i, j, Waiting(st.due[i].account));
    }
  }

  lemma Remaining<T>(s: seq<T>, k: nat)
    requires k < |s|
    ensures forall x :: x in Without(s, k) ==> x in s
  {
  }

  /** An account in flight is not waiting and has no second event. */
  lemma FlightIsUnique(p: Params, st: Sim, k: nat)
    requires AccountsConserved(p, st) && k < |st.events| && st.events[k].kind.Complete?
    ensures forall d :: d in st.due ==> d.account != st.events[k].kind.account
    ensures forall e :: e in Without(st.events, k) && e.kind.Complete? ==>
              e.kind.account != st.events[k].kind.account
    ensures st.events[k].kind.account < p.accounts
  {
    var a := st.events[k].kind.account;
    TotalWithout(st.events, k, Flying(a));
    assert Flying(a)(st.events[k]) == 1;
    assert Total(st.due, Waiting(a)) + Total(st.events, Flying(a)) <= 1;
    forall d | d in st.due ensures d.account != a {
      TotalOfMember(st.due, d, Waiting(a));
    }
    forall e | e in Without(st.events, k) && e.kind.Complete? ensures e.kind.account != a {
      TotalOfMember(Without(st.events, k), e, Flying(a));
    }
  }

  /** A waiting account waits once and is not in flight. */
  lemma DueIsUnique(p: Params, st: Sim, j: nat)
    requires AccountsConserved(p, st) && j < |st.due|
    ensures forall d :: d in Without(st.due, j) ==> d.account != st.due[j].account
    ensures forall e :: e in st.events && e.kind.Complete? ==> e.kind.account != st.due[j].account
  {
    var a := st.due[j].account;
    TotalWithout(st.due, j, Waiting(a));
    assert Total(st.due, Waiting(a)) + Total(st.events, Flying(a)) <= 1;
    forall d | d in Without(st.due, j) ensures d.account != a {
      TotalOfMember(Without(st.due, j), d, Waiting(a));
    }
    forall e | e in st.events && e.kind.Complete? ensures e.kind.account != a {
      TotalOfMember(st.events, e, Flying(a));
    }
  }

  // ------------------------------------------------------------------ every iteration conserves

  /** A queue in which `x` replaces the item at `k`. */
  function Replaced<T>(s: seq<T>, k: nat, x: T): seq<T>
    requires k < |s|
  {
    Without(s, k) + [x]
  }

  lemma ReplacedTotal<T>(s: seq<T>, k: nat, x: T, w: T -> nat)
    requires k < |s|
    ensures Total(Replaced(s, k, x), w) + w(s[k]) == Total(s, w) + w(x)
  {
    TotalWithout(s, k, w);
    TotalPush(Without(s, k), x, w);
  }

  /** The popped slot gets one new event, at or after the clock. */
  lemma SlotsKept(p: Params, st: Sim, k: nat, e: Event)
    requires SlotsConserved(p, st.events) && k < |st.events| && e.slot == st.events[k].slot
    ensures SlotsConserved(p, Replaced(st.events, k, e))
  {
    forall slot: nat ensures Total(Replaced(st.events, k, e), OfSlot(slot)) == if slot < p.slots then 1 else 0 {
      ReplacedTotal(st.events, k, e, OfSlot(slot));
    }
  }

  lemma TimesKept(st: Sim, k: nat, e: Event, before: real)
    requires TimesAhead(st, before) && IsNext(st.events, k) && st.events[k].time <= e.time
    ensures before <= st.events[k].time
    ensures forall x :: x in Replaced(st.events, k, e) ==> st.events[k].time <= x.time
  {
    assert st.events[k] in st.events;
    Remaining(st.events, k);
    forall x | x in Replaced(st.events, k, e) ensures st.events[k].time <= x.time {
      if x != e {
        var i :| 0 <= i < |st.events| && st.events[i] == x;
      }
    }
  }

  /** Branches that touch neither accounts nor statistics. */
  lemma IdleKept(p: Params, st: Sim, k: nat, e: Event, before: real, active: int, remaining: nat, imported: nat)
    requires Inv(p, st, before) && IsNext(st.events, k)
    requires st.events[k].time <= e.time && e.slot == st.events[k].slot
    requires !st.events[k].kind.Complete? && !e.kind.Complete?
    requires active == st.activeInitial + Importing()(e) - Importing()(st.events[k]) && active <= 2
    requires remaining + active + imported == p.initial
    ensures var after := st.(events := Replaced(st.events, k, e), activeInitial := active,
                             remainingInitial := remaining, imported := imported);
            Inv(p, after, st.events[k].time)
  {
    SlotsKept(p, st, k, e);
    TimesKept(st, k, e, before);
    ReplacedTotal(st.events, k, e, Importing());
    forall a: nat ensures Total(Replaced(st.events, k, e), Flying(a)) == Total(st.events, Flying(a)) {
      ReplacedTotal(st.events, k, e, Flying(a));
    }
    Remaining(st.events, k);
  }

  lemma InitialDoneKept(p: Params, st: Sim, k: nat, before: real)
    requires p.Valid() && Inv(p, st, before) && IsNext(st.events, k) && st.events[k].kind.InitialDone?
    ensures Inv(p, InitialDoneStep(p, st, k), st.events[k].time)
  {
    IdleKept(p, st, k, Event(st.events[k].time + p.cooldown, st.events[k].slot, Claim), before,
             st.activeInitial - 1, st.remainingInitial, st.imported + 1);
  }

  lemma PollKept(p: Params, st: Sim, k: nat, before: real)
    requires p.Valid() && Inv(p, st, before) && IsNext(st.events, k) && st.events[k].kind.Claim?
    ensures Inv(p, PollStep(p, st, k), st.events[k].time)
  {
    IdleKept(p, st, k, Event(st.events[k].time + POLL_SECONDS, st.events[k].slot, Claim), before,
             st.activeInitial, st.remainingInitial, st.imported);
  }

  lemma ImportKept(p: Params, st: Sim, k: nat, before: real)
    requires p.Valid() && Inv(p, st, before) && IsNext(st.events, k) && st.events[k].kind.Claim? && MayImport(st)
    ensures Inv(p, ImportStep(p, st, k), st.events[k].time)
  {
    IdleKept(p, st, k, Event(st.events[k].time + IMPORT_SECONDS, st.events[k].slot, InitialDone), before,
             st.activeInitial + 1, st.remainingInitial - 1, st.imported);
  }

  /** A completing account was claimed, and read before if it ever completed before. */
  lemma CompleteEnabled(p: Params, st: Sim, k: nat, now: real)
    requires CadenceKept(p, st, now) && k < |st.events| && st.events[k].kind.Complete?
    ensures st.events[k].kind.account in st.claimed
    ensures st.events[k].kind.account in st.last ==> st.events[k].kind.account in st.readStarted
  {
    assert st.events[k] in st.events;
  }

  lemma CompleteCadence(p: Params, st: Sim, k: nat, before: real)
    requires p.Valid() && Inv(p, st, before) && k < |st.events| && st.events[k].kind.Complete?
    requires before <= st.events[k].time
    ensures st.events[k].kind.account in st.claimed
    ensures st.events[k].kind.account in st.last ==> st.events[k].kind.account in st.readStarted
    ensures CadenceKept(p, CompleteStep(p, st, k), st.events[k].time)
    ensures StatisticsSound(p, CompleteStep(p, st, k))
  {
    CompleteEnabled(p, st, k, before);
    assert st.events[k] in st.events;
    FlightIsUnique(p, st, k);
    Remaining(st.events, k);
    var next := CompleteStep(p, st, k);
    forall x | x in next.events && x.kind.Complete? ensures x in Without(st.events, k) {
    }
  }

  lemma CompleteAccounts(p: Params, st: Sim, k: nat)
    requires AccountsConserved(p, st) && k < |st.events| && st.events[k].kind.Complete?
    ensures var now, a := st.events[k].time, st.events[k].kind.account;
            AccountsConserved(p, st.(due := st.due + [Due(now + p.cadence, a)],
              events := Replaced(st.events, k, Event(now + p.cooldown, st.events[k].slot, Claim))))
  {
    var now, a := st.events[k].time, st.events[k].kind.account;
    var e, d := Event(now + p.cooldown, st.events[k].slot, Claim), Due(now + p.cadence, a);
    forall b: nat
      ensures Total(st.due + [d], Waiting(b)) + Total(Replaced(st.events, k, e), Flying(b))
           == Total(st.due, Waiting(b)) + Total(st.events, Flying(b))
    {
      ReplacedTotal(st.events, k, e, Flying(b));
      TotalPush(st.due, d, Waiting(b));
    }
  }

  lemma CompleteKept(p: Params, st: Sim, k: nat, before: real)
    requires p.Valid() && Inv(p, st, before) && IsNext(st.events, k) && st.events[k].kind.Complete?
    ensures st.events[k].kind.account in st.claimed
    ensures st.events[k].kind.account in st.last ==> st.events[k].kind.account in st.readStarted
    ensures Inv(p, CompleteStep(p, st, k), st.events[k].time)
  {
    var e := Event(st.events[k].time + p.cooldown, st.events[k].slot, Claim);
    SlotsKept(p, st, k, e);
    TimesKept(st, k, e, before);
    ReplacedTotal(st.events, k, e, Importing());
    CompleteCadence(p, st, k, before);
    CompleteAccounts(p, st, k);
    assert CompleteStep(p, st, k).events == Replaced(st.events, k, e);
  }

  lemma ServeAccounts(p: Params, st: Sim, k: nat, j: nat, e: Event)
    requires AccountsConserved(p, st) && k < |st.events| && st.events[k].kind.Claim? && j < |st.due|
    requires e.kind == Complete(st.due[j].account)
    ensures AccountsConserved(p, st.(due := Without(st.due, j), events := Replaced(st.events, k, e)))
  {
    forall b: nat
      ensures Total(Without(st.due, j), Waiting(b)) + Total(Replaced(st.events, k, e), Flying(b))
           == Total(st.due, Waiting(b)) + Total(st.events, Flying(b))
    {
      ReplacedTotal(st.events, k, e, Flying(b));
      TotalWithout(st.due, j, Waiting(b));
    }
  }

  lemma ServeCadence(p: Params, st: Sim, k: nat, j: nat, duration: real, before: real)
    requires p.Valid() && Inv(p, st, before) && k < |st.events| && before <= st.events[k].time
    requires st.events[k].kind.Claim? && j < |st.due| && st.due[j].time <= st.events[k].time
    ensures CadenceKept(p, ServeStep(p, st, k, j, duration), st.events[k].time)
    ensures StatisticsSound(p, ServeStep(p, st, k, j, duration))
  {
    DueIsUnique(p, st, j);
    Remaining(st.due, j);
    Remaining(st.events, k);
    assert st.due[j] in st.due;
  }

  lemma ServeKept(p: Params, st: Sim, k: nat, j: nat, duration: real, before: real)
    requires p.Valid() && Inv(p, st, before) && IsNext(st.events, k) && st.events[k].kind.Claim?
    requires j < |st.due| && st.due[j].time <= st.events[k].time && duration in p.durations
    ensures Inv(p, ServeStep(p, st, k, j, duration), st.events[k].time)
  {
    var e := Event(st.events[k].time + duration, st.events[k].slot, Complete(st.due[j].account));
    SlotsKept(p, st, k, e);
    TimesKept(st, k, e, before);
    ReplacedTotal(st.events, k, e, Importing());
    ServeAccounts(p, st, k, j, e);
    ServeCadence(p, st, k, j, duration, before);
    assert ServeStep(p, st, k, j, duration).events == Replaced(st.events, k, e);
  }

  // ------------------------------------------------------------------ termination

  /** How many more cadences fit between `t` and the end, counting `t` itself. */
  function Periods(t: real, finish: real, period: real): nat
    requires 0.0 < period
  {
    if t > finish then 0
    else
      assert (finish - t) / period >= 0.0;
      ((finish - t) / period).Floor + 1
  }

  lemma QuotientGrows(x: real, y: real, d: real)
    requires 0.0 < d && x <= y
    ensures x / d <= y / d
  {
  }

  lemma QuotientSteps(x: real, d: real)
    requires 0.0 < d
    ensures (x - d) / d == x / d - 1.0
  {
    var z := x / d - 1.0;
    assert z * d == x - d;
    QuotientOfProduct(z, d);
    assert z * d / d == (x - d) / d;
  }

  lemma QuotientOfProduct(z: real, d: real)
    requires 0.0 < d
    ensures z * d / d == z
  {
  }

  lemma PeriodsShrink(t: real, u: real, finish: real, period: real)
    requires 0.0 < period && t <= u
    ensures Periods(u, finish, period) <= Periods(t, finish, period)
    ensures t + period <= u && t <= finish ==> Periods(u, finish, period) < Periods(t, finish, period)
  {
    if u <= finish {
      QuotientGrows(finish - u, finish - t, period);
      if t + period <= u {
        QuotientGrows(finish - u, finish - t - period, period);
        QuotientSteps(finish - t, period);
      }
    }
  }

  /** A pending event: its slot's remaining polls, and for a read its return and the account's later turns. */
  function EventWork(p: Params): Event -> nat
    requires p.Valid()
  {
    (e: Event) =>
      Periods(e.time, p.finish, POLL_SECONDS) +
      match e.kind
      case Claim => 0
      case InitialDone => 1
      case Complete(_) => 1 + 3 * Periods(e.time + p.cadence, p.finish, p.cadence)
  }

  function DueWork(p: Params): Due -> nat
    requires p.Valid()
  {
    (d: Due) => 3 * Periods(d.time, p.finish, p.cadence)
  }

  /** The work left: it drops with every iteration, even with zero durations and zero cooldown. */
  ghost function Work(p: Params, st: Sim): nat
    requires p.Valid()
  {
    Total(st.events, EventWork(p)) + Total(st.due, DueWork(p)) + 3 * st.remainingInitial
  }

  /** The popped event and its successor: a poll, an import and its end, a completion, a served claim. */
  lemma EventWorkDrops(p: Params, e: Event, later: real)
    requires p.Valid() && e.time <= p.finish && e.time <= later
    ensures e.kind.InitialDone? ==> EventWork(p)(Event(later, e.slot, Claim)) < EventWork(p)(e)
    ensures e.kind.Complete? ==>
              EventWork(p)(Event(later, e.slot, Claim)) +
              DueWork(p)(Due(e.time + p.cadence, e.kind.account)) < EventWork(p)(e)
    ensures e.kind.Claim? ==> EventWork(p)(Event(later, e.slot, InitialDone)) <= EventWork(p)(e) + 1
    ensures e.kind.Claim? && e.time + POLL_SECONDS <= later ==>
              EventWork(p)(Event(later, e.slot, Claim)) < EventWork(p)(e)
  {
    PeriodsShrink(e.time, later, p.finish, POLL_SECONDS);
  }

  lemma ServedWorkDrops(p: Params, e: Event, d: Due, later: real)
    requires p.Valid() && e.kind.Claim? && d.time <= e.time <= p.finish && e.time <= later
    ensures EventWork(p)(Event(later, e.slot, Complete(d.account))) < EventWork(p)(e) + DueWork(p)(d)
  {
    PeriodsShrink(e.time, later, p.finish, POLL_SECONDS);
    PeriodsShrink(d.time, later + p.cadence, p.finish, p.cadence);
  }

  lemma WorkDrops(p: Params, st: Sim, next: Sim, k: nat)
    requires p.Valid() && k < |st.events| && st.events[k].time <= p.finish && After(p, st, next, k)
    ensures Work(p, next) < Work(p, st)
  {
    var e := st.events[k];
    match e.kind
    case InitialDone => ReplacedWork(p, st, k, Event(e.time + p.cooldown, e.slot, Claim));
    case Complete(a) =>
      ReplacedWork(p, st, k, Event(e.time + p.cooldown, e.slot, Claim));
      TotalPush(st.due, Due(e.time + p.cadence, a), DueWork(p));
    case Claim => ClaimWorkDrops(p, st, next, k);
  }

  lemma ClaimWorkDrops(p: Params, st: Sim, next: Sim, k: nat)
    requires p.Valid() && k < |st.events| && st.events[k].time <= p.finish && After(p, st, next, k)
    requires st.events[k].kind.Claim?
    ensures Work(p, next) < Work(p, st)
  {
    var e := st.events[k];
    if MayImport(st) {
      ReplacedWork(p, st, k, Event(e.time + IMPORT_SECONDS, e.slot, InitialDone));
    } else if Served(p, st, next, k) {
      var j: nat, duration: real :|
        IsNextDue(st.due, j) && st.due[j].time <= e.time && duration in p.durations &&
        next == ServeStep(p, st, k, j, duration);
      ServeWorkDrops(p, st, k, j, duration);
    } else {
      ReplacedWork(p, st, k, Event(e.time + POLL_SECONDS, e.slot, Claim));
    }
  }

  lemma ServeWorkDrops(p: Params, st: Sim, k: nat, j: nat, duration: real)
    requires p.Valid() && k < |st.events| && st.events[k].kind.Claim? && st.events[k].time <= p.finish
    requires j < |st.due| && st.due[j].time <= st.events[k].time && 0.0 <= duration
    ensures Work(p, ServeStep(p, st, k, j, duration)) < Work(p, st)
  {
    var e := st.events[k];
    var f := Event(e.time + duration, e.slot, Complete(st.due[j].account));
    ReplacedTotal(st.events, k, f, EventWork(p));
    TotalWithout(st.due, j, DueWork(p));
    ServedWorkDrops(p, e, st.due[j], f.time);
  }

  lemma ReplacedWork(p: Params, st: Sim, k: nat, f: Event)
    requires p.Valid() && k < |st.events|
    requires var e := st.events[k]; e.time <= p.finish && e.time <= f.time && f.slot == e.slot
    ensures var e, w := st.events[k], EventWork(p);
            && Total(Without(st.events, k) + [f], w) + w(e) == Total(st.events, w) + w(f)
            && (e.kind.InitialDone? && f.kind.Claim? ==> w(f) < w(e))
            && (e.kind.Complete? && f.kind.Claim? ==>
                  w(f) + DueWork(p)(Due(e.time + p.cadence, e.kind.account)) < w(e))
            && (e.kind.Claim? && f.kind.InitialDone? ==> w(f) <= w(e) + 1)
            && (e.kind.Claim? && f.kind.Claim? && e.time + POLL_SECONDS <= f.time ==> w(f) < w(e))
  {
    ReplacedTotal(st.events, k, f, EventWork(p));
    EventWorkDrops(p, st.events[k], f.time);
  }

  // ------------------------------------------------------------------ runs

  lemma {:induction false} FirstClaimTotals(first: nat, count: nat, x: nat)
    ensures Total(FirstClaims(first, count), OfSlot(x)) == if first <= x < first + count then 1 else 0
    ensures Total(FirstClaims(first, count), Flying(x)) == 0
    ensures Total(FirstClaims(first, count), Importing()) == 0
    ensures forall e :: e in FirstClaims(first, count) ==> e.time == 0.0 && e.kind.Claim?
    decreases count
  {
    if count > 0 {
      FirstClaimTotals(first + 1, count - 1, x);
    }
  }

  lemma {:induction false} FirstDueTotals(first: nat, count: nat, x: nat)
    ensures Total(FirstDue(first, count), Waiting(x)) == if first <= x < first + count then 1 else 0
    ensures forall d :: d in FirstDue(first, count) ==> d.time == 0.0
    decreases count
  {
    if count > 0 {
      FirstDueTotals(first + 1, count - 1, x);
    }
  }

  lemma InitialInv(p: Params)
    requires p.Valid()
    ensures Inv(p, Initial(p), 0.0)
  {
    var st := Initial(p);
    forall x: nat
      ensures Total(st.events, OfSlot(x)) == if x < p.slots then 1 else 0
      ensures Total(st.due, Waiting(x)) + Total(st.events, Flying(x)) == if x < p.accounts then 1 else 0
    {
      FirstClaimTotals(0, p.slots, x);
      FirstDueTotals(0, p.accounts, x);
    }
    FirstClaimTotals(0, p.slots, 0);
    FirstDueTotals(0, p.accounts, 0);
  }

  lemma NextKept(p: Params, st: Sim, next: Sim, before: real, now: real)
    requires p.Valid() && Inv(p, st, before) && Next(p, st, next, now)
    ensures Inv(p, next, now) && before <= now && Work(p, next) < Work(p, st)
  {
    var k: nat :| IsNext(st.events, k) && st.events[k].time == now && now <= p.finish && After(p, st, next, k);
    assert st.events[k] in st.events;
    WorkDrops(p, st, next, k);
    match st.events[k].kind
    case InitialDone => InitialDoneKept(p, st, k, before);
    case Complete(_) => CompleteKept(p, st, k, before);
    case Claim =>
      if MayImport(st) {
        ImportKept(p, st, k, before);
      } else if Served(p, st, next, k) {
        var j: nat, duration: real :|
          IsNextDue(st.due, j) && st.due[j].time <= st.events[k].time && duration in p.durations &&
          next == ServeStep(p, st, k, j, duration);
        ServeKept(p, st, k, j, duration, before);
      } else {
        PollKept(p, st, k, before);
      }
  }

  /** One more iteration makes a longer run that still conserves, with less work left. */
  lemma RunExtends(p: Params, states: seq<Sim>, times: seq<real>, next: Sim, now: real)
    requires p.Valid() && Run(p, states, times) && Next(p, states[|times|], next, now)
    requires Inv(p, states[|times|], Clock(times, |times|))
    ensures Run(p, states + [next], times + [now])
    ensures Inv(p, next, Clock(times + [now], |times| + 1))
    ensures Work(p, next) < Work(p, states[|times|])
  {
    NextKept(p, states[|times|], next, Clock(times, |times|), now);
    RunOfExtension(p, states, times, next, now);
  }

  lemma RunOfExtension(p: Params, states: seq<Sim>, times: seq<real>, next: Sim, now: real)
    requires Run(p, states, times) && Next(p, states[|times|], next, now)
    ensures Run(p, states + [next], times + [now])
  {
    var longer, more := states + [next], times + [now];
    forall k | 0 <= k < |more| ensures Next(p, longer[k], longer[k + 1], more[k]) {
      if k < |times| {
        assert Next(p, states[k], states[k + 1], times[k]);
      }
    }
  }

  /** The states of a run and the times of its iterations. */
  ghost predicate Run(p: Params, states: seq<Sim>, times: seq<real>) {
    && |states| == |times| + 1
    && states[0] == Initial(p)
    && forall k :: 0 <= k < |times| ==> Next(p, states[k], states[k + 1], times[k])
  }

  function Clock(times: seq<real>, k: nat): real
    requires k <= |times|
  {
    if k == 0 then 0.0 else times[k - 1]
  }

  /** Every state of every run conserves slots, accounts and imports, and never looks back. */
  lemma {:induction false} RunConserves(p: Params, states: seq<Sim>, times: seq<real>, k: nat)
    requires p.Valid() && Run(p, states, times) && k < |states|
    ensures Inv(p, states[k], Clock(times, k))
    ensures k > 0 ==> Clock(times, k - 1) <= Clock(times, k) && Work(p, states[k]) < Work(p, states[k - 1])
  {
    if k == 0 {
      InitialInv(p);
    } else {
      RunConserves(p, states, times, k - 1);
      NextKept(p, states[k - 1], states[k], Clock(times, k - 1), times[k - 1]);
    }
  }

  lemma WorkFalls(p: Params, states: seq<Sim>, times: seq<real>, k: nat)
    requires p.Valid() && Run(p, states, times) && 0 < k < |states|
    ensures Work(p, states[k]) < Work(p, states[k - 1])
  {
    RunConserves(p, states, times, k);
  }

  /** No run is longer than the work it starts with. */
  lemma {:induction false} RunsAreShort(p: Params, states: seq<Sim>, times: seq<real>, k: nat)
    requires p.Valid() && Run(p, states, times) && k < |states|
    ensures k + Work(p, states[k]) <= Work(p, Initial(p))
  {
    if k > 0 {
      RunsAreShort(p, states, times, k - 1);
      WorkFalls(p, states, times, k);
    }
  }

  // ------------------------------------------------------------------ what happens in an iteration

  /** The event that is popped. */
  ghost function Head(events: seq<Event>): Option<Event> {
    if exists k: nat :: IsNext(events, k) then
      var k: nat :| IsNext(events, k);
      Some(events[k])
    else None
  }

  ghost function FirstWaiting(due: seq<Due>): Option<Due> {
    if exists j: nat :: IsNextDue(due, j) then
      var j: nat :| IsNextDue(due, j);
      Some(due[j])
    else None
  }

  lemma HeadIs(events: seq<Event>, k: nat)
    requires IsNext(events, k)
    ensures Head(events) == Some(events[k])
  {
    forall n: nat | IsNext(events, n) ensures n == k {
    }
  }

  lemma FirstWaitingIs(due: seq<Due>, j: nat)
    requires IsNextDue(due, j)
    ensures FirstWaiting(due) == Some(due[j])
  {
    forall n: nat | IsNextDue(due, n) ensures n == j {
    }
  }

  datatype Happening = Finished(account: nat) | Started(account: nat) | Imports | Imported | Polls

  /** Told by the two queues alone: which event is popped, and for a claim what there is to do. */
  ghost function HappeningAt(st: Sim, now: real): Happening {
    match Head(st.events)
    case None => Polls
    case Some(e) =>
      match e.kind
      case InitialDone => Imported
      case Complete(a) => Finished(a)
      case Claim =>
        if MayImport(st) then Imports
        else
          var first := FirstWaiting(st.due);
          if first.Some? && first.value.time <= now then Started(first.value.account) else Polls
  }

  function Lookup(m: map<nat, real>, a: nat): Option<real> {
    if a in m then Some(m[a]) else None
  }

  function Appended(list: seq<real>, item: Option<real>): seq<real> {
    if item.Some? then list + [item.value] else list
  }

  /** The measured distance of the two times, once the warm-up is over and both exist. */
  function Measured(now: real, since: Option<real>): Option<real> {
    if now >= WARMUP && since.Some? then Some(now - since.value) else None
  }

  /** When the account was due: at once, or one cadence after its last read. */
  function DueTime(p: Params, last: Option<real>): real {
    if last.Some? then last.value + p.cadence else 0.0
  }

  ghost predicate CompletesStep(st: Sim, next: Sim, a: nat, now: real) {
    && Lookup(next.last, a) == Some(now)
    && Lookup(next.readStarted, a) == Lookup(st.claimed, a)
    && next.claimed == st.claimed && next.waits == st.waits
    && next.gaps == Appended(st.gaps, Measured(now, Lookup(st.last, a)))
    && next.bounds == Appended(st.bounds, if a in st.last then Measured(now, Lookup(st.readStarted, a)) else None)
    && next.completed == st.completed + 1
    && forall b: nat :: b != a ==>
         Lookup(next.last, b) == Lookup(st.last, b) && Lookup(next.readStarted, b) == Lookup(st.readStarted, b)
  }

  ghost predicate StartsStep(p: Params, st: Sim, next: Sim, a: nat, now: real) {
    && Lookup(next.claimed, a) == Some(now)
    && next.last == st.last && next.readStarted == st.readStarted
    && next.gaps == st.gaps && next.bounds == st.bounds && next.completed == st.completed
    && next.waits == Appended(st.waits, Measured(now, Some(DueTime(p, Lookup(st.last, a)))))
    && forall b: nat :: b != a ==> Lookup(next.claimed, b) == Lookup(st.claimed, b)
  }

  ghost predicate IdleStep(st: Sim, next: Sim) {
    && next.last == st.last && next.readStarted == st.readStarted && next.claimed == st.claimed
    && next.gaps == st.gaps && next.bounds == st.bounds && next.waits == st.waits && next.completed == st.completed
  }

  /** What an iteration remembers and records follows from what happens in it. */
  lemma StepRecords(p: Params, st: Sim, next: Sim, before: real, now: real)
    requires CadenceKept(p, st, before) && Next(p, st, next, now)
    ensures match HappeningAt(st, now)
            case Finished(a) => CompletesStep(st, next, a, now)
            case Started(a) => StartsStep(p, st, next, a, now)
            case _ => IdleStep(st, next)
  {
    var k: nat :| IsNext(st.events, k) && st.events[k].time == now && now <= p.finish && After(p, st, next, k);
    HeadIs(st.events, k);
    match st.events[k].kind {
      case Complete(a) => FinishRecords(p, st, k);
      case InitialDone =>
      case Claim => if !MayImport(st) { ClaimRecords(p, st, next, k, before); }
    }
  }

  lemma FinishRecords(p: Params, st: Sim, k: nat)
    requires k < |st.events| && st.events[k].kind.Complete? && st.events[k].kind.account in st.claimed
    requires st.events[k].kind.account in st.last ==> st.events[k].kind.account in st.readStarted
    ensures CompletesStep(st, CompleteStep(p, st, k), st.events[k].kind.account, st.events[k].time)
  {
    var next, a, now := CompleteStep(p, st, k), st.events[k].kind.account, st.events[k].time;
    assert next.last == st.last[a := now] && next.readStarted == st.readStarted[a := st.claimed[a]];
    assert next.gaps == Appended(st.gaps, Measured(now, Lookup(st.last, a)));
  }

  lemma StartRecords(p: Params, st: Sim, k: nat, j: nat, d: real, before: real)
    requires CadenceKept(p, st, before) && k < |st.events| && j < |st.due|
    ensures StartsStep(p, st, ServeStep(p, st, k, j, d), st.due[j].account, st.events[k].time)
  {
    assert st.due[j] in st.due;
  }

  lemma ClaimRecords(p: Params, st: Sim, next: Sim, k: nat, before: real)
    requires CadenceKept(p, st, before) && IsNext(st.events, k) && After(p, st, next, k)
    requires st.events[k].kind.Claim? && !MayImport(st)
    ensures match HappeningAt(st, st.events[k].time)
            case Started(a) => StartsStep(p, st, next, a, st.events[k].time)
            case Polls => IdleStep(st, next)
            case _ => false
  {
    HeadIs(st.events, k);
    if Served(p, st, next, k) {
      var j: nat, d: real :|
        IsNextDue(st.due, j) && st.due[j].time <= st.events[k].time && d in p.durations &&
        next == ServeStep(p, st, k, j, d);
      FirstWaitingIs(st.due, j);
      StartRecords(p, st, k, j, d, before);
    } else {
      NobodyFirst(st.due, st.events[k].time);
    }
  }

  lemma NobodyFirst(due: seq<Due>, now: real)
    requires forall d :: d in due ==> now < d.time
    ensures FirstWaiting(due).Some? ==> now < FirstWaiting(due).value.time
  {
  }

  // ------------------------------------------------------------------ the history of a run

  /** The time of the last hit before iteration `k`. */
  ghost function LastTime(hit: nat -> bool, times: seq<real>, k: nat): Option<real>
    requires k <= |times|
  {
    if k == 0 then None else if hit(k - 1) then Some(times[k - 1]) else LastTime(hit, times, k - 1)
  }

  lemma {:induction false} LastTimeAdvances(hit: nat -> bool, times: seq<real>, i: nat, j: nat)
    requires i < j <= |times| && hit(i) && forall m, n :: 0 <= m <= n < |times| ==> times[m] <= times[n]
    ensures LastTime(hit, times, j).Some? && times[i] <= LastTime(hit, times, j).value
  {
    if i < j - 1 {
      LastTimeAdvances(hit, times, i, j - 1);
    }
  }

  /** The iterations that finish a read of the account. */
  ghost function Finishing(states: seq<Sim>, times: seq<real>, a: nat): nat -> bool {
    (i: nat) => i < |times| < |states| && HappeningAt(states[i], times[i]) == Finished(a)
  }

  ghost function Claiming(states: seq<Sim>, times: seq<real>, a: nat): nat -> bool {
    (i: nat) => i < |times| < |states| && HappeningAt(states[i], times[i]) == Started(a)
  }

  /** The last time before iteration `k` that a read of the account finished. */
  ghost function DoneBefore(states: seq<Sim>, times: seq<real>, a: nat, k: nat): Option<real>
    requires k <= |times| < |states|
  {
    LastTime(Finishing(states, times, a), times, k)
  }

  /** The last time before iteration `k` that the account was claimed. */
  ghost function ClaimedBefore(states: seq<Sim>, times: seq<real>, a: nat, k: nat): Option<real>
    requires k <= |times| < |states|
  {
    LastTime(Claiming(states, times, a), times, k)
  }

  /** When the last read that finished before iteration `k` had been claimed. */
  ghost function ReadBefore(states: seq<Sim>, times: seq<real>, a: nat, k: nat): Option<real>
    requires k <= |times| < |states|
  {
    if k == 0 then None
    else if HappeningAt(states[k - 1], times[k - 1]) == Finished(a) then ClaimedBefore(states, times, a, k - 1)
    else ReadBefore(states, times, a, k - 1)
  }

  /** The gap of iteration `k`: a read finished after the warm-up, and the account's one before it. */
  ghost function GapAt(states: seq<Sim>, times: seq<real>, k: nat): Option<real>
    requires k < |times| < |states|
  {
    match HappeningAt(states[k], times[k])
    case Finished(a) => Measured(times[k], DoneBefore(states, times, a, k))
    case _ => None
  }

  /** Its bound: from the claim of that earlier read. */
  ghost function BoundAt(states: seq<Sim>, times: seq<real>, k: nat): Option<real>
    requires k < |times| < |states|
  {
    match HappeningAt(states[k], times[k])
    case Finished(a) =>
      if DoneBefore(states, times, a, k).Some? then Measured(times[k], ReadBefore(states, times, a, k)) else None
    case _ => None
  }

  /** The wait of iteration `k`: a claim after the warm-up, since the account was due. */
  ghost function WaitAt(p: Params, states: seq<Sim>, times: seq<real>, k: nat): Option<real>
    requires k < |times| < |states|
  {
    match HappeningAt(states[k], times[k])
    case Started(a) => Measured(times[k], Some(DueTime(p, DoneBefore(states, times, a, k))))
    case _ => None
  }

  ghost function Gaps(states: seq<Sim>, times: seq<real>, k: nat): seq<real>
    requires k <= |times| < |states|
  {
    if k == 0 then [] else Appended(Gaps(states, times, k - 1), GapAt(states, times, k - 1))
  }

  ghost function Bounds(states: seq<Sim>, times: seq<real>, k: nat): seq<real>
    requires k <= |times| < |states|
  {
    if k == 0 then [] else Appended(Bounds(states, times, k - 1), BoundAt(states, times, k - 1))
  }

  ghost function Waits(p: Params, states: seq<Sim>, times: seq<real>, k: nat): seq<real>
    requires k <= |times| < |states|
  {
    if k == 0 then [] else Appended(Waits(p, states, times, k - 1), WaitAt(p, states, times, k - 1))
  }

  /** The reads finished before iteration `k`. */
  ghost function Finishes(states: seq<Sim>, times: seq<real>, k: nat): nat
    requires k <= |times| < |states|
  {
    if k == 0 then 0
    else Finishes(states, times, k - 1) + if HappeningAt(states[k - 1], times[k - 1]).Finished? then 1 else 0
  }

  lemma RunStep(p: Params, states: seq<Sim>, times: seq<real>, k: nat)
    requires p.Valid() && Run(p, states, times) && k < |times|
    ensures match HappeningAt(states[k], times[k])
            case Finished(a) => CompletesStep(states[k], states[k + 1], a, times[k])
            case Started(a) => StartsStep(p, states[k], states[k + 1], a, times[k])
            case _ => IdleStep(states[k], states[k + 1])
  {
    RunConserves(p, states, times, k);
    StepRecords(p, states[k], states[k + 1], Clock(times, k), times[k]);
  }

  /** What the loop remembers of an account is its history. */
  lemma {:induction false} HistoryKept(p: Params, states: seq<Sim>, times: seq<real>, a: nat, k: nat)
    requires p.Valid() && Run(p, states, times) && k <= |times|
    ensures Lookup(states[k].last, a) == DoneBefore(states, times, a, k)
    ensures Lookup(states[k].claimed, a) == ClaimedBefore(states, times, a, k)
    ensures Lookup(states[k].readStarted, a) == ReadBefore(states, times, a, k)
  {
    if k > 0 {
      HistoryKept(p, states, times, a, k - 1);
      RunStep(p, states, times, k - 1);
    }
  }

  /**
   * The recorded lists are the history: in order, every gap between two finished reads of
   * an account once the warm-up is over, its bound from the claim of the earlier read, and
   * every wait from the due time to the claim.
   */
  lemma {:induction false} ListsExact(p: Params, states: seq<Sim>, times: seq<real>, k: nat)
    requires p.Valid() && Run(p, states, times) && k <= |times|
    ensures states[k].gaps == Gaps(states, times, k)
    ensures states[k].bounds == Bounds(states, times, k)
    ensures states[k].waits == Waits(p, states, times, k)
    ensures states[k].completed == Finishes(states, times, k)
  {
    if k > 0 {
      ListsExact(p, states, times, k - 1);
      ListsStep(p, states, times, k - 1);
    }
  }

  lemma ListsStep(p: Params, states: seq<Sim>, times: seq<real>, k: nat)
    requires p.Valid() && Run(p, states, times) && k < |times|
    ensures states[k + 1].gaps == Appended(states[k].gaps, GapAt(states, times, k))
    ensures states[k + 1].bounds == Appended(states[k].bounds, BoundAt(states, times, k))
    ensures states[k + 1].waits == Appended(states[k].waits, WaitAt(p, states, times, k))
    ensures states[k + 1].completed ==
            states[k].completed + if HappeningAt(states[k], times[k]).Finished? then 1 else 0
  {
    RunStep(p, states, times, k);
    match HappeningAt(states[k], times[k]) {
      case Finished(a) => HistoryKept(p, states, times, a, k);
      case Started(a) => HistoryKept(p, states, times, a, k);
      case _ =>
    }
  }

  lemma TimeStep(p: Params, states: seq<Sim>, times: seq<real>, j: nat)
    requires p.Valid() && Run(p, states, times) && 0 < j < |times|
    ensures times[j - 1] <= times[j]
  {
    RunConserves(p, states, times, j + 1);
    assert Clock(times, j) == times[j - 1] && Clock(times, j + 1) == times[j];
  }

  lemma {:induction false} TimesRise(p: Params, states: seq<Sim>, times: seq<real>, i: nat, j: nat)
    requires p.Valid() && Run(p, states, times) && i <= j < |times|
    ensures times[i] <= times[j]
  {
    if i < j {
      TimesRise(p, states, times, i, j - 1);
      TimeStep(p, states, times, j);
    }
  }

  /** A read that finishes now was claimed a cadence after the account's last one. */
  lemma FinishAfterCadence(p: Params, st: Sim, before: real, now: real, a: nat)
    requires Inv(p, st, before) && HappeningAt(st, now) == Finished(a) && a in st.last
    ensures st.last[a] + p.cadence <= Head(st.events).value.time
  {
    var k: nat :| IsNext(st.events, k) && Head(st.events) == Some(st.events[k]);
    assert st.events[k] in st.events;
  }

  /** In every run two reads of one account finish at least one cadence apart. */
  lemma CompletionsSpaced(
      p: Params, states: seq<Sim>, times: seq<real>, a: nat, i: nat, j: nat)
    requires p.Valid() && Run(p, states, times) && i < j < |times|
    requires HappeningAt(states[i], times[i]) == Finished(a)
    requires HappeningAt(states[j], times[j]) == Finished(a)
    ensures times[i] + p.cadence <= times[j]
  {
    forall m, n | 0 <= m <= n < |times| ensures times[m] <= times[n] {
      TimesRise(p, states, times, m, n);
    }
    LastTimeAdvances(Finishing(states, times, a), times, i, j);
    HistoryKept(p, states, times, a, j);
    RunConserves(p, states, times, j);
    FinishAfterCadence(p, states[j], Clock(times, j), times[j], a);
    var f := StepContinues(p, states[j], states[j + 1], times[j]);
  }

  // ------------------------------------------------------------------ the life of a slot

  /** What the slot of a popped event does next: `f` follows `e`, by what happens. */
  ghost predicate Continues(p: Params, h: Happening, e: Event, f: Event) {
    && f.slot == e.slot
    && match h
       case Finished(_) => f.kind.Claim? && f.time == e.time + p.cooldown
       case Imported => f.kind.Claim? && f.time == e.time + p.cooldown
       case Imports => f.kind.InitialDone? && f.time == e.time + 30.0
       case Polls => f.kind.Claim? && f.time == e.time + 10.0
       case Started(a) => f.kind == Complete(a) && exists d :: d in p.durations && f.time == e.time + d
  }

  lemma StepContinues(p: Params, st: Sim, next: Sim, now: real) returns (f: Event)
    requires Next(p, st, next, now)
    ensures Head(st.events).Some? && Head(st.events).value.time == now && f in next.events
    ensures Continues(p, HappeningAt(st, now), Head(st.events).value, f)
    ensures forall e :: e in st.events && e != Head(st.events).value ==> e in next.events
  {
    var k: nat :| IsNext(st.events, k) && st.events[k].time == now && now <= p.finish && After(p, st, next, k);
    HeadIs(st.events, k);
    f := next.events[|next.events| - 1];
    Others(st.events, k, f);
    if st.events[k].kind.Claim? && !MayImport(st) {
      ClaimContinues(p, st, next, k);
    }
  }

  lemma ClaimContinues(p: Params, st: Sim, next: Sim, k: nat)
    requires IsNext(st.events, k) && After(p, st, next, k) && st.events[k].kind.Claim? && !MayImport(st)
    ensures next.events != []
    ensures var f := next.events[|next.events| - 1];
            && next.events == Without(st.events, k) + [f]
            && Continues(p, HappeningAt(st, st.events[k].time), st.events[k], f)
  {
    HeadIs(st.events, k);
    if Served(p, st, next, k) {
      var j: nat, d: real :|
        IsNextDue(st.due, j) && st.due[j].time <= st.events[k].time && d in p.durations &&
        next == ServeStep(p, st, k, j, d);
      FirstWaitingIs(st.due, j);
    } else {
      NobodyFirst(st.due, st.events[k].time);
    }
  }

  lemma Others(events: seq<Event>, k: nat, f: Event)
    requires k < |events|
    ensures forall e :: e in events && e != events[k] ==> e in Without(events, k) + [f]
  {
    forall e | e in events && e != events[k] ensures e in Without(events, k) + [f] {
      var i :| 0 <= i < |events| && events[i] == e;
      assert Without(events, k)[if i < k then i else i - 1] == e;
    }
  }

  ghost predicate Pops(st: Sim, slot: nat) {
    Head(st.events).Some? && Head(st.events).value.slot == slot
  }

  /** A pending event stays until it is popped. */
  lemma {:induction false} PendingStays(p: Params, states: seq<Sim>, times: seq<real>, f: Event, i: nat, j: nat)
    requires p.Valid() && Run(p, states, times) && i <= j < |states| && f in states[i].events
    requires forall m :: i <= m < j ==> !Pops(states[m], f.slot)
    ensures f in states[j].events
  {
    if i < j {
      PendingStays(p, states, times, f, i, j - 1);
      var g := StepContinues(p, states[j - 1], states[j], times[j - 1]);
    }
  }

  /**
   * Nothing but the stated times passes in a slot: between two events of a slot, with none
   * in between, lies the cooldown after a read or an import, a sampled duration for a read,
   * thirty seconds for an import, and ten for a poll that found nothing due.
   */
  lemma SlotContinues(p: Params, states: seq<Sim>, times: seq<real>, i: nat, j: nat)
    requires p.Valid() && Run(p, states, times) && i < j < |times|
    requires Head(states[i].events).Some? && Pops(states[j], Head(states[i].events).value.slot)
    requires forall m :: i < m < j ==> !Pops(states[m], Head(states[i].events).value.slot)
    ensures Head(states[i].events).value.time == times[i] && Head(states[j].events).value.time == times[j]
    ensures Continues(p, HappeningAt(states[i], times[i]), Head(states[i].events).value, Head(states[j].events).value)
  {
    var f := StepContinues(p, states[i], states[i + 1], times[i]);
    var g := StepContinues(p, states[j], states[j + 1], times[j]);
    PendingStays(p, states, times, f, i + 1, j);
    RunConserves(p, states, times, j);
    DistinctSlots(p, states[j].events);
    var k: nat :| IsNext(states[j].events, k) && Head(states[j].events) == Some(states[j].events[k]);
    var m :| 0 <= m < |states[j].events| && states[j].events[m] == f;
  }

  // ------------------------------------------------------------------ the simulator

  /** The report needs at least one gap: the maximum of an empty list is an error. */
  datatype Failure = NoGapMeasured

  /**
   * Runs the loop until the next event lies past the end and reports on it.  `choose`
   * stands for the random generator's choice of a duration in each iteration.
   */
  method Simulate(p: Params, choose: nat -> nat)
    returns (r: Result<Report, Failure>, ghost states: seq<Sim>, ghost times: seq<real>)
    requires p.Valid()
    ensures Run(p, states, times)
    ensures forall e :: e in states[|times|].events ==> p.finish < e.time
    ensures r.Err? <==> Gaps(states, times, |times|) == []
    ensures r.Ok? ==>
              && Consistent(r.value, p.cadence)
              && Reports(r.value, Finishes(states, times, |times|), Waits(p, states, times, |times|),
                         Gaps(states, times, |times|), Bounds(states, times, |times|))
  {
    var st := Initial(p);
    states, times := [st], [];
    InitialInv(p);
    var round := 0;
    while st.events != []
      invariant Run(p, states, times) && states[|times|] == st
      invariant Inv(p, st, Clock(times, |times|))
      decreases Work(p, st)
    {
      DistinctSlots(p, st.events);
      var k := NextEvent(st.events);
      var now := st.events[k].time;
      if now > p.finish {
        break;
      }
      CadenceNow(p, st, Clock(times, |times|));
      var next := Iterate(p, st, k, choose(round));
      assert Next(p, st, next, now);
      RunExtends(p, states, times, next, now);
      states, times, st, round := states + [next], times + [now], next, round + 1;
    }
    ListsExact(p, states, times, |times|);
    if st.gaps == [] {
      r := Err(NoGapMeasured);
    } else {
      ReportIsConsistent(st.completed, st.waits, st.gaps, st.bounds, p.cadence);
      ReportIsExact(st.completed, st.waits, st.gaps, st.bounds);
      r := Ok(ReportOf(st.completed, st.waits, st.gaps, st.bounds));
    }
  }

  /** Every read in flight can complete. */
  ghost predicate Completable(st: Sim) {
    forall e :: e in st.events && e.kind.Complete? ==>
      e.kind.account in st.claimed && (e.kind.account in st.last ==> e.kind.account in st.readStarted)
  }

  lemma CadenceNow(p: Params, st: Sim, now: real)
    requires CadenceKept(p, st, now)
    ensures Completable(st)
  {
  }

  method Iterate(p: Params, st: Sim, k: nat, choice: nat) returns (next: Sim)
    requires p.Valid() && AccountsConserved(p, st) && Completable(st) && k < |st.events|
    ensures After(p, st, next, k)
  {
    assert st.events[k] in st.events;
    match st.events[k].kind {
      case InitialDone =>
        next := InitialDoneStep(p, st, k);
      case Complete(_) =>
        next := CompleteStep(p, st, k);
      case Claim =>
        if MayImport(st) {
          next := ImportStep(p, st, k);
        } else {
          next := ClaimOrPoll(p, st, k, choice);
        }
    }
  }

  /** A free slot serves the account that is due first, if any is due; otherwise it polls later. */
  method ClaimOrPoll(p: Params, st: Sim, k: nat, choice: nat) returns (next: Sim)
    requires p.Valid() && AccountsConserved(p, st) && k < |st.events|
    ensures Served(p, st, next, k) || (next == PollStep(p, st, k) && NothingDue(st, st.events[k].time))
  {
    if st.due != [] {
      DistinctDue(p, st);
      var j := NextDue(st.due);
      if st.due[j].time <= st.events[k].time {
        var duration := p.durations[choice % |p.durations|];
        next := ServeStep(p, st, k, j, duration);
        return;
      }
    }
    next := PollStep(p, st, k);
  }
}
