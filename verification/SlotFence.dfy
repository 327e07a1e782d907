/**
 * The fence around one managed terminal slot.
 *
 * Three actors work on the slot: the pool thread that claims and collects, the
 * controller's main thread that recovers, reports and installs catalogues, and the
 * independent watchdog.  They share a re-entrant mutex, the API's record of the slot
 * (session generation, process identity, quarantine, lease) and the live processes.
 *
 * Every step of every actor is one label of `Step`; a run is any interleaving of
 * labels whose guards hold.  API calls are messages: once sent, a call may be
 * delivered late, more than once, or never, and its answer may be lost.  A held
 * mutex can be released at any program point, which stands for a raised exception;
 * while the native child collects, that is the kill of the child that was not
 * confirmed in time, and the child is left behind.
 *
 * The scheduler's rule is part of the guards: while a job of the slot is under way the
 * main thread neither connects, inspects nor reports for it.
 */
module SlotFence {
  import opened Outcomes

  /** PID plus creation time.  Identities are never reused, so they are numbered by creation. */
  type Identity = nat
  type Generation = nat

  /** `claim` is the identifier of the claim that was answered with the lease. */
  datatype Lease = Lease(token: nat, claim: nat, generation: Generation, identity: Identity)

  /** What the API stores for the slot. */
  datatype Api = Api(
    generation: Generation,
    identity: Option<Identity>,
    quarantine: Option<Identity>,
    lease: Option<Lease>)

  datatype Call =
    | Claim(generation: Generation, claim: nat)
    | Complete(lease: Lease)
    | Fail(lease: Lease, fences: bool)
    | Prepare(generation: Generation)
    | Session(issued: Generation, expected: Generation, identity: Option<Identity>)

  /** What the API does with a session report while a lease is active: the contract leaves it open. */
  datatype LeasePolicy = RefuseReport | DropLease

  datatype Actor = Pool | Main | Watchdog

  /** What the child leaves: its deals, or an error code, of which some quarantine the terminal. */
  datatype ChildResult = Collected | Failed(fences: bool)

  /** Program points of `SlotWorker.once`, run by the pool thread. */
  datatype PoolPoint =
    | PoolIdle
    | PoolLocked
    | PoolFound(identity: Identity, generation: Generation)
    | PoolClaiming(identity: Identity, generation: Generation, claim: nat)
    | PoolLeased(identity: Identity, lease: Lease)
    | Collecting(identity: Identity, lease: Lease, child: nat)
    | ChildEnded(identity: Identity, lease: Lease, result: ChildResult)
    | PoolFailing(identity: Identity, call: Call)
    | PoolReleasing

  /** Program points of the main thread and of the watchdog. */
  datatype Point =
    | Idle
    | Locked
    | Present(identity: Identity)
    | Absent
    | Preparing(identity: Identity, call: Call)
    | Stopping(identity: Identity)
    | Fenced(identity: Identity)
    | Confirmed(identity: Identity)
    | Starting
    | Launching
    | Reporting(held: bool, snapshot: Option<Identity>)
    | Opening(held: bool, call: Call)
    | Posting(held: bool)

  datatype LocalSession = LocalSession(generation: Generation, identity: Option<Identity>)

  /** One answer of `/config`, as its reader remembers it. */
  datatype Config = Unread | Config(generation: Generation, identity: Option<Identity>, quarantine: Option<Identity>)

  /** Live processes of the executable; whether anybody but the controller launched one. */
  datatype Processes = Processes(live: set<Identity>, next: Identity, outside: bool)

  datatype Mutex = Mutex(owner: Option<Actor>, depth: nat)

  /**
   * Where each actor is; the native children that were started are numbered, and
   * `orphans` are those that live on although nobody waits for them any more.
   */
  datatype Actors = Actors(pool: PoolPoint, main: Point, dog: Point, orphans: set<nat>, children: nat)

  /** The worker's session, last /config and restart intent, and the watchdog's last /config. */
  datatype Memory = Memory(session: Option<LocalSession>, remote: Config, restart: Option<Identity>, dogConfig: Config)

  /** Calls sent so far, those the API accepted, the leases granted, and fresh names. */
  datatype Network = Network(
    sent: set<Call>, applied: set<Call>, granted: set<Lease>,
    nextGeneration: Generation, nextToken: nat, nextClaim: nat)

  /**
   * The newest identity any actor found alone, the newest the API accepted, the identity
   * of every session, and every identity the API ever quarantined.
   */
  datatype Past = Past(
    observed: Identity, frontier: Identity, sessions: map<Generation, Option<Identity>>, quarantined: set<Identity>)

  datatype State = State(
    api: Api, os: Processes, mutex: Mutex, actors: Actors, memory: Memory, net: Network, past: Past)

  datatype Step =
    | Environment(event: Event)
    | PoolStep(once: Once)
    | ActorStep(actor: Actor, act: Act)
    | ReportStep(report: Report)

  datatype Event =
    | Spawn
    | Die(identity: Identity)
    | ExpireLease
    | Deliver(call: Call, policy: LeasePolicy)
    | OrphanExits(child: nat)
    | CrashWorker
    | CrashWatchdog

  /** `SlotWorker.once`. */
  datatype Once =
    | PoolAcquire
    | PoolFind(identity: Identity)
    | SendClaim
    | ReceiveLease(lease: Lease)
    | StartChild
    | ChildExits(result: ChildResult)
    | AbandonChild
    | SendComplete
    | SendFail
    | AckFail
    | PoolRelease

  /** `prepare_inventory`, `recover_quarantined`, `install_catalogue`, `fence_ui_failure` and what they call. */
  datatype Act =
    | Acquire
    | ReadConfig
    | FindPresent(identity: Identity)
    | FindAbsent
    | SendPrepare
    | BeginStop
    | CheckFence
    | ConfirmProcess
    | StopFindsNothing
    | Terminate
    | EnterStart
    | CheckStart
    | Launch
    | LeaveStart
    | Release

  /** `InventoryAgent.report_slot`, on the main thread.  An inspection that failed reports no process. */
  datatype Report =
    | Snapshot(found: Option<Identity>)
    | SendSession
    | AckSession
    | KeepSession
    | ReportDone
    | ReportRaises

  // ------------------------------------------------------------------ the API contract

  /**
   * The API's answer to one delivered call; an API that refuses stays as it is.
   * A lease is granted only to the current generation, with no quarantine and no
   * other lease.  Quarantine is set together with the release of the lease.  Only
   * the report of a different live process clears it; an absent one is refused.
   */
  function Serve(api: Api, call: Call, token: nat, policy: LeasePolicy): Api {
    if !Accepts(api, call, policy) then api
    else
      match call
      case Claim(g, claim) => api.(lease := Some(Lease(token, claim, g, api.identity.value)))
      case Complete(_) => api.(lease := None)
      case Fail(lease, fences) =>
        api.(lease := None, quarantine := if fences then Some(lease.identity) else api.quarantine)
      case Prepare(_) => api.(quarantine := api.identity)
      case Session(issued, _, identity) =>
        api.(generation := issued, identity := identity, lease := None,
             quarantine := if api.quarantine == identity then api.quarantine else None)
  }

  /** When a session report is accepted. */
  predicate Opens(api: Api, call: Call, policy: LeasePolicy) {
    && call.Session?
    && call.expected == api.generation
    && (api.lease.Some? ==> policy == DropLease)
    && (api.quarantine.Some? ==> call.identity.Some?)
  }

  /** The API takes the call: it is acknowledged even where it finds nothing left to change. */
  predicate Accepts(api: Api, call: Call, policy: LeasePolicy) {
    match call
    case Claim(g, _) => g == api.generation && api.quarantine.None? && api.lease.None? && api.identity.Some?
    case Complete(lease) => api.lease == Some(lease)
    case Fail(lease, _) => api.lease == Some(lease)
    case Prepare(g) => g == api.generation && api.lease.None? && api.identity.Some?
    case Session(_, _, _) => Opens(api, call, policy)
  }

  /** Lease expiry releases the lease and quarantines its process in one step. */
  function Expire(api: Api): Api
    requires api.lease.Some?
  {
    api.(lease := None, quarantine := Some(api.lease.value.identity))
  }

  function Members<T>(o: Option<T>): set<T> {
    if o.Some? then {o.value} else {}
  }

  // ------------------------------------------------------------------ shared vocabulary

  function PointOf(actors: Actors, a: Actor): Point {
    if a == Watchdog then actors.dog else actors.main
  }

  function At(actors: Actors, a: Actor, p: Point): Actors {
    if a == Watchdog then actors.(dog := p) else actors.(main := p)
  }

  predicate Holds(p: Point) {
    match p
    case Idle => false
    case Reporting(held, _) => held
    case Opening(held, _) => held
    case Posting(held) => held
    case _ => true
  }

  /** `find_process` raises unless at most one process matches. */
  predicate Finds(os: Processes, found: Option<Identity>) {
    if found.Some? then os.live == {found.value} else os.live == {}
  }

  function Observe(past: Past, found: Option<Identity>): Past {
    if found.Some? && found.value > past.observed then past.(observed := found.value) else past
  }

  function Create(os: Processes): Processes {
    os.(live := os.live + {os.next}, next := os.next + 1)
  }

  function Post(net: Network, call: Call): Network {
    net.(sent := net.sent + {call})
  }

  const FREE := Mutex(None, 0)

  // ------------------------------------------------------------------ environment

  predicate EventEnabled(s: State, e: Event) {
    match e
    case Spawn => true
    case Die(i) => i in s.os.live
    case ExpireLease => s.api.lease.Some?
    case Deliver(call, _) => call in s.net.sent
    case OrphanExits(child) => child in s.actors.orphans
    case CrashWorker => true
    case CrashWatchdog => true
  }

  function Delivered(s: State, call: Call, policy: LeasePolicy): State {
    var after := Serve(s.api, call, s.net.nextToken, policy);
    var opens := Opens(s.api, call, policy);
    s.(api := after,
       net := s.net.(applied := if Accepts(s.api, call, policy) then s.net.applied + {call} else s.net.applied,
                     granted := s.net.granted + Members(after.lease),
                     nextToken := s.net.nextToken + 1),
       past := s.past.(
         frontier := if opens && call.identity.Some? then call.identity.value else s.past.frontier,
         sessions := if opens then s.past.sessions[call.issued := call.identity] else s.past.sessions,
         quarantined := s.past.quarantined + Members(after.quarantine)))
  }

  /** The orphans once nobody waits for the current child any more. */
  function Orphaned(actors: Actors): set<nat> {
    if actors.pool.Collecting? then actors.orphans + {actors.pool.child} else actors.orphans
  }

  /** A killed worker abandons its mutex and leaves its native child, if any, running. */
  function WorkerCrashed(s: State): State {
    s.(actors := Actors(PoolIdle, Idle, s.actors.dog, Orphaned(s.actors), s.actors.children),
       memory := s.memory.(session := None, remote := Unread, restart := None),
       mutex := if s.mutex.owner == Some(Pool) || s.mutex.owner == Some(Main) then FREE else s.mutex)
  }

  function WatchdogCrashed(s: State): State {
    s.(actors := s.actors.(dog := Idle),
       memory := s.memory.(dogConfig := Unread),
       mutex := if s.mutex.owner == Some(Watchdog) then FREE else s.mutex)
  }

  function AfterEvent(s: State, e: Event): State
    requires EventEnabled(s, e)
  {
    match e
    case Spawn => s.(os := Create(s.os).(outside := true))
    case Die(i) => s.(os := s.os.(live := s.os.live - {i}))
    case ExpireLease =>
      s.(api := Expire(s.api),
         past := s.past.(quarantined := s.past.quarantined + {s.api.lease.value.identity}))
    case Deliver(call, policy) => Delivered(s, call, policy)
    case OrphanExits(child) => s.(actors := s.actors.(orphans := s.actors.orphans - {child}))
    case CrashWorker => WorkerCrashed(s)
    case CrashWatchdog => WatchdogCrashed(s)
  }

  // ------------------------------------------------------------------ SlotWorker.once

  predicate OnceEnabled(s: State, o: Once) {
    var p := s.actors.pool;
    match o
    case PoolAcquire => p.PoolIdle? && s.mutex.owner.None? && s.actors.main.Idle?
    case PoolFind(i) =>
      && p.PoolLocked? && Finds(s.os, Some(i))
      && s.memory.session.Some? && s.memory.session.value.identity == Some(i)
    case SendClaim => p.PoolFound?
    case ReceiveLease(l) => p.PoolClaiming? && l in s.net.granted && l.claim == p.claim && l.generation == p.generation
    case StartChild => p.PoolLeased?
    case ChildExits(_) => p.Collecting?
    case AbandonChild => p.Collecting?
    case SendComplete => p.ChildEnded? && p.result.Collected? && p.identity in s.os.live
    case SendFail => p.ChildEnded? && (p.result.Collected? ==> p.identity !in s.os.live)
    case AckFail => p.PoolFailing? && p.call in s.net.applied
    case PoolRelease => !p.PoolIdle? && !p.Collecting?
  }

  function AtPool(s: State, p: PoolPoint): State {
    s.(actors := s.actors.(pool := p))
  }

  function AfterOnce(s: State, o: Once): State
    requires OnceEnabled(s, o)
  {
    var p := s.actors.pool;
    match o
    case PoolAcquire => AtPool(s, PoolLocked).(mutex := Mutex(Some(Pool), 1))
    case PoolFind(i) =>
      AtPool(s, PoolFound(i, s.memory.session.value.generation)).(past := Observe(s.past, Some(i)))
    case SendClaim =>
      AtPool(s, PoolClaiming(p.identity, p.generation, s.net.nextClaim)).(
        net := Post(s.net, Claim(p.generation, s.net.nextClaim)).(nextClaim := s.net.nextClaim + 1))
    case ReceiveLease(l) => AtPool(s, PoolLeased(p.identity, l))
    case StartChild =>
      s.(actors := s.actors.(pool := Collecting(p.identity, p.lease, s.actors.children),
                             children := s.actors.children + 1))
    case ChildExits(result) => AtPool(s, ChildEnded(p.identity, p.lease, result))
    case AbandonChild => s.(actors := s.actors.(pool := PoolReleasing, orphans := Orphaned(s.actors)))
    case SendComplete => AtPool(s, PoolReleasing).(net := Post(s.net, Complete(p.lease)))
    case SendFail =>
      // a process that changed under a good result is TERMINAL_CHANGED, which fences
      var call := Fail(p.lease, p.result.Collected? || p.result.fences);
      AtPool(s, PoolFailing(p.identity, call)).(net := Post(s.net, call))
    case AckFail =>
      AtPool(s, PoolReleasing).(
        memory := if p.call.Fail? && p.call.fences
                  then s.memory.(restart := Some(p.identity)) else s.memory)
    case PoolRelease => AtPool(s, PoolIdle).(mutex := FREE)
  }

  // ------------------------------------------------------------------ main thread and watchdog

  /** The quarantine an actor acts on: the worker's restart intent, or the watchdog's last /config. */
  function Intent(m: Memory, a: Actor): Option<Identity> {
    if a == Main then m.restart
    else if m.dogConfig.Config? then m.dogConfig.quarantine
    else None
  }

  /** The guard before /prepare: the installer's session, or the watchdog's fresh /config, names the process. */
  predicate MayPrepare(m: Memory, a: Actor, i: Identity) {
    if a == Main
    then m.session.Some? && m.session.value.identity == Some(i)
    else m.dogConfig.Config? && m.dogConfig.quarantine.None? && m.dogConfig.identity == Some(i)
  }

  function PrepareCall(m: Memory, a: Actor, i: Identity): Call
    requires MayPrepare(m, a, i)
  {
    Prepare(if a == Main then m.session.value.generation else m.dogConfig.generation)
  }

  predicate ActEnabled(s: State, a: Actor, act: Act) {
    var p := PointOf(s.actors, a);
    && a != Pool
    && match act
       case Acquire => p.Idle? && s.mutex.owner.None?
       case ReadConfig => if a == Main then p.Idle? && s.actors.pool.PoolIdle? else p.Locked?
       case FindPresent(i) => p.Locked? && Finds(s.os, Some(i))
       case FindAbsent => p.Locked? && Finds(s.os, None)
       case SendPrepare => p.Present? && MayPrepare(s.memory, a, p.identity)
       case BeginStop =>
         || (p.Present? && Intent(s.memory, a) == Some(p.identity))
         || (a == Main && p.Preparing? && p.call in s.net.applied)
       case CheckFence => p.Stopping? && s.api.quarantine == Some(p.identity)
       case ConfirmProcess => p.Fenced? && Finds(s.os, Some(p.identity))
       case StopFindsNothing => p.Fenced? && Finds(s.os, None)
       case Terminate => p.Confirmed? && p.identity in s.os.live
       case EnterStart => p.Absent?
       case CheckStart => p.Starting? && Finds(s.os, None)
       case Launch => p.Launching? && s.mutex.depth == 2
       case LeaveStart => (p.Starting? || p.Launching?) && s.mutex.depth == 2
       case Release => Holds(p) && s.mutex.depth == 1
  }

  function ConfigRead(s: State, a: Actor): Memory {
    var config := Config(s.api.generation, s.api.identity, s.api.quarantine);
    if a == Main then s.memory.(remote := config, restart := s.api.quarantine)
    else s.memory.(dogConfig := config)
  }

  function AfterAct(s: State, a: Actor, act: Act): State
    requires ActEnabled(s, a, act)
  {
    var p := PointOf(s.actors, a);
    match act
    case Acquire => s.(actors := At(s.actors, a, Locked), mutex := Mutex(Some(a), 1))
    case ReadConfig => s.(memory := ConfigRead(s, a))
    case FindPresent(i) =>
      s.(actors := At(s.actors, a, Present(i)), past := Observe(s.past, Some(i)))
    case FindAbsent => s.(actors := At(s.actors, a, Absent))
    case SendPrepare =>
      var call := PrepareCall(s.memory, a, p.identity);
      s.(actors := At(s.actors, a, Preparing(p.identity, call)), net := Post(s.net, call))
    case BeginStop => s.(actors := At(s.actors, a, Stopping(p.identity)))
    case CheckFence => s.(actors := At(s.actors, a, Fenced(p.identity)))
    case ConfirmProcess =>
      s.(actors := At(s.actors, a, Confirmed(p.identity)), past := Observe(s.past, Some(p.identity)))
    case StopFindsNothing => s.(actors := At(s.actors, a, Absent))
    case Terminate =>
      s.(actors := At(s.actors, a, Absent), os := s.os.(live := s.os.live - {p.identity}))
    case EnterStart =>
      s.(actors := At(s.actors, a, Starting), mutex := s.mutex.(depth := s.mutex.depth + 1))
    case CheckStart => s.(actors := At(s.actors, a, Launching))
    case Launch =>
      s.(actors := At(s.actors, a, Locked), os := Create(s.os), mutex := s.mutex.(depth := s.mutex.depth - 1))
    case LeaveStart =>
      s.(actors := At(s.actors, a, Locked), mutex := s.mutex.(depth := s.mutex.depth - 1))
    case Release => s.(actors := At(s.actors, a, Idle), mutex := FREE)
  }

  // ------------------------------------------------------------------ InventoryAgent.report_slot

  /** The generation a new session names as its predecessor. */
  function Expected(m: Memory): Option<Generation> {
    if m.session.Some? then Some(m.session.value.generation)
    else if m.remote.Config? then Some(m.remote.generation)
    else None
  }

  predicate ReportEnabled(s: State, r: Report) {
    var p := s.actors.main;
    match r
    case Snapshot(found) =>
      (found.None? || Finds(s.os, found)) &&
      ((p.Idle? && s.actors.pool.PoolIdle?) || (p.Present? && s.memory.restart != Some(p.identity)))
    case SendSession =>
      && p.Reporting? && Expected(s.memory).Some?
      && (s.memory.session.None? || s.memory.session.value.identity != p.snapshot)
    case AckSession => p.Opening? && p.call.Session? && p.call in s.net.applied
    case KeepSession =>
      p.Reporting? && s.memory.session.Some? && s.memory.session.value.identity == p.snapshot
    case ReportDone => p.Posting?
    case ReportRaises => (p.Reporting? || p.Opening? || p.Posting?) && !Holds(p)
  }

  function AtMain(s: State, p: Point): State {
    s.(actors := s.actors.(main := p))
  }

  function AfterReport(s: State, r: Report): State
    requires ReportEnabled(s, r)
  {
    var p := s.actors.main;
    match r
    case Snapshot(found) =>
      AtMain(s, Reporting(Holds(p), found)).(past := Observe(s.past, found))
    case SendSession =>
      var call := Session(s.net.nextGeneration, Expected(s.memory).value, p.snapshot);
      AtMain(s, Opening(p.held, call)).(
        net := Post(s.net, call).(nextGeneration := s.net.nextGeneration + 1))
    case AckSession =>
      AtMain(s, Posting(p.held)).(
        memory := s.memory.(session := Some(LocalSession(p.call.issued, p.call.identity))))
    case KeepSession => AtMain(s, Posting(p.held))
    case ReportDone =>
      if p.held then AtMain(s, Locked).(memory := s.memory.(restart := None)) else AtMain(s, Idle)
    case ReportRaises => AtMain(s, Idle)
  }

  // ------------------------------------------------------------------ runs

  predicate Enabled(s: State, step: Step) {
    match step
    case Environment(e) => EventEnabled(s, e)
    case PoolStep(o) => OnceEnabled(s, o)
    case ActorStep(a, act) => ActEnabled(s, a, act)
    case ReportStep(r) => ReportEnabled(s, r)
  }

  function Apply(s: State, step: Step): State
    requires Enabled(s, step)
  {
    match step
    case Environment(e) => AfterEvent(s, e)
    case PoolStep(o) => AfterOnce(s, o)
    case ActorStep(a, act) => AfterAct(s, a, act)
    case ReportStep(r) => AfterReport(s, r)
  }

  /** A freshly provisioned slot: no session yet, no actor working, at most one process. */
  predicate Init(s: State) {
    && s.api == Api(0, None, None, None)
    && |s.os.live| <= 1 && (forall p :: p in s.os.live ==> 0 < p < s.os.next) && 0 < s.os.next
    && !s.os.outside
    && s.mutex == FREE
    && s.actors == Actors(PoolIdle, Idle, Idle, {}, 0)
    && s.memory == Memory(None, Unread, None, Unread)
    && s.net == Network({}, {}, {}, 1, 0, 0)
    && s.past == Past(0, 0, map[0 := None], {})
  }

  /** An interleaving: `steps[k]` leads from `states[k]` to `states[k + 1]`. */
  ghost predicate Run(states: seq<State>, steps: seq<Step>) {
    && |states| == |steps| + 1
    && Init(states[0])
    && forall k :: 0 <= k < |steps| ==>
         Enabled(states[k], steps[k]) && states[k + 1] == Apply(states[k], steps[k])
  }

  // ------------------------------------------------------------------ the inductive invariant

  predicate InStart(p: Point) {
    p.Starting? || p.Launching?
  }

  /** Exactly the actor inside a critical section owns the mutex, at the depth of its point. */
  predicate MutexInv(m: Mutex, c: Actors) {
    && (m.owner == Some(Pool) <==> !c.pool.PoolIdle?)
    && (m.owner == Some(Main) <==> Holds(c.main))
    && (m.owner == Some(Watchdog) <==> Holds(c.dog))
    && m.depth == (if m.owner.None? then 0 else if InStart(c.main) || InStart(c.dog) then 2 else 1)
    && !c.dog.Reporting? && !c.dog.Opening? && !c.dog.Posting?
    && (!c.pool.PoolIdle? ==> c.main.Idle?)
  }

  /** The claim that the job under way lives on. */
  function ClaimOf(p: PoolPoint): Option<nat> {
    match p
    case PoolClaiming(_, _, claim) => Some(claim)
    case PoolLeased(_, lease) => Some(lease.claim)
    case Collecting(_, lease, _) => Some(lease.claim)
    case ChildEnded(_, lease, _) => Some(lease.claim)
    case _ => None
  }

  predicate Ends(c: Call) {
    c.Complete? || c.Fail?
  }

  /** No call that ends a lease of the job under way has been sent. */
  predicate UnspentInv(net: Network, pool: PoolPoint) {
    && (forall c :: c in net.sent && Ends(c) ==> c.lease.claim < net.nextClaim && Some(c.lease.claim) != ClaimOf(pool))
    && (ClaimOf(pool).Some? ==> ClaimOf(pool).value < net.nextClaim)
  }

  /** Quarantine excludes a lease; every lease is on the session's process. */
  predicate ApiInv(api: Api, granted: set<Lease>, past: Past) {
    && (api.quarantine.Some? ==> api.lease.None? && api.identity == api.quarantine)
    && (api.lease.Some? ==>
          && api.lease.value in granted
          && api.identity == Some(api.lease.value.identity)
          && api.generation == api.lease.value.generation)
    && (api.identity.Some? ==> api.identity.value == past.frontier)
    && api.generation in past.sessions && past.sessions[api.generation] == api.identity
  }

  /** What was quarantined stays behind the session frontier, or is the quarantined frontier itself. */
  ghost predicate QuarantineInv(quarantine: Option<Identity>, frontier: Identity, quarantined: set<Identity>) {
    && (forall i :: i in quarantined ==> i <= frontier)
    && (frontier in quarantined <==> quarantine == Some(frontier))
    && (quarantine.Some? ==> quarantine.value == frontier)
  }

  /** Nothing alive is older than what was once found alone. */
  predicate IdentityInv(os: Processes, observed: Identity, frontier: Identity) {
    && frontier <= observed < os.next
    && forall p :: p in os.live ==> observed <= p < os.next
  }

  /** A session call that can still be accepted reports nothing older than the frontier. */
  predicate CallOk(c: Call, generation: Generation, next: Generation, past: Past) {
    c.Session? ==>
      && c.expected <= generation && c.expected < c.issued < next
      && (c.identity.Some? ==> c.identity.value <= past.observed)
      && (c.identity.Some? && c.expected == generation ==> past.frontier <= c.identity.value)
      && (c.issued in past.sessions ==> past.sessions[c.issued] == c.identity)
  }

  ghost predicate CallInv(generation: Generation, net: Network, past: Past) {
    && generation < net.nextGeneration
    && (forall g :: g in past.sessions ==> g <= generation)
    && (forall c :: c in net.sent ==> CallOk(c, generation, net.nextGeneration, past))
    && (forall c, d :: c in net.sent && d in net.sent && c.Session? && d.Session? && c.issued == d.issued ==> c == d)
    && (forall c :: c in net.applied && c.Session? ==> c in net.sent && c.issued in past.sessions)
  }

  /** The worker's memory repeats what the API once recorded. */
  predicate MemoryInv(m: Memory, generation: Generation, sessions: map<Generation, Option<Identity>>) {
    && (m.session.Some? ==>
          m.session.value.generation in sessions &&
          sessions[m.session.value.generation] == m.session.value.identity)
    && (m.remote.Config? ==> m.remote.generation <= generation)
    && (m.dogConfig.Config? ==>
          m.dogConfig.generation in sessions && sessions[m.dogConfig.generation] == m.dogConfig.identity)
  }

  /** A snapshot about to be reported is at least as new as every report under way. */
  ghost predicate ReportInv(main: Point, sent: set<Call>, past: Past) {
    && (main.Reporting? && main.snapshot.Some? ==>
          && past.frontier <= main.snapshot.value <= past.observed
          && forall c :: c in sent && c.Session? && c.identity.Some? ==>
               c.identity.value <= main.snapshot.value)
    && (main.Opening? ==> main.call.Session? && main.call in sent)
  }

  /** Every granted lease, and every lease in the pool's hands, is on the process of its generation. */
  ghost predicate LeaseInv(granted: set<Lease>, pool: PoolPoint, sessions: map<Generation, Option<Identity>>) {
    && (forall l :: l in granted ==> l.generation in sessions && sessions[l.generation] == Some(l.identity))
    && (pool.PoolFound? || pool.PoolClaiming? ==>
          pool.generation in sessions && sessions[pool.generation] == Some(pool.identity))
    && (pool.PoolLeased? || pool.Collecting? || pool.ChildEnded? ==>
          pool.lease in granted && pool.lease.identity == pool.identity)
    && (pool.PoolFailing? ==> pool.call.Fail? && pool.call.lease.identity == pool.identity)
  }

  /** Past the fence check, the process to stop has been quarantined. */
  predicate StopInv(c: Actors, quarantined: set<Identity>) {
    && (c.main.Fenced? || c.main.Confirmed? ==> c.main.identity in quarantined)
    && (c.dog.Fenced? || c.dog.Confirmed? ==> c.dog.identity in quarantined)
  }

  /** With no outside launch there is one process at most, and none while a launch is due. */
  predicate LaunchInv(os: Processes, c: Actors) {
    !os.outside ==>
      && |os.live| <= 1
      && (c.main.Launching? || c.dog.Launching? ==> os.live == {})
  }

  ghost predicate Inv(s: State) {
    && MutexInv(s.mutex, s.actors)
    && ApiInv(s.api, s.net.granted, s.past)
    && QuarantineInv(s.api.quarantine, s.past.frontier, s.past.quarantined)
    && IdentityInv(s.os, s.past.observed, s.past.frontier)
    && CallInv(s.api.generation, s.net, s.past)
    && MemoryInv(s.memory, s.api.generation, s.past.sessions)
    && ReportInv(s.actors.main, s.net.sent, s.past)
    && LeaseInv(s.net.granted, s.actors.pool, s.past.sessions)
    && UnspentInv(s.net, s.actors.pool)
    && StopInv(s.actors, s.past.quarantined)
    && LaunchInv(s.os, s.actors)
  }

  lemma InitInv(s: State)
    requires Init(s)
    ensures Inv(s)
  {
  }

  lemma EventKept(s: State, e: Event)
    requires Inv(s) && EventEnabled(s, e) && !e.Deliver?
    ensures Inv(AfterEvent(s, e))
  {
  }

  lemma DeliverKept(s: State, call: Call, policy: LeasePolicy)
    requires Inv(s) && call in s.net.sent
    ensures Inv(Delivered(s, call, policy))
  {
    if call.Session? { SessionKept(s, call, policy); } else { CallKept(s, call, policy); }
  }

  lemma SessionKept(s: State, call: Call, policy: LeasePolicy)
    requires Inv(s) && call in s.net.sent && call.Session?
    ensures Inv(Delivered(s, call, policy))
  {
  }

  lemma CallKept(s: State, call: Call, policy: LeasePolicy)
    requires Inv(s) && call in s.net.sent && !call.Session?
    ensures Inv(Delivered(s, call, policy))
  {
  }

  predicate IsClaiming(o: Once) {
    o.PoolAcquire? || o.PoolFind? || o.SendClaim? || o.ReceiveLease?
  }

  predicate IsCalling(o: Once) {
    o.SendComplete? || o.SendFail? || o.AckFail?
  }

  lemma ClaimingKept(s: State, o: Once)
    requires Inv(s) && OnceEnabled(s, o) && IsClaiming(o)
    ensures Inv(AfterOnce(s, o))
  {
  }

  lemma CallingKept(s: State, o: Once)
    requires Inv(s) && OnceEnabled(s, o) && IsCalling(o)
    ensures Inv(AfterOnce(s, o))
  {
  }

  lemma OnceKept(s: State, o: Once)
    requires Inv(s) && OnceEnabled(s, o)
    ensures Inv(AfterOnce(s, o))
  {
    if IsClaiming(o) { ClaimingKept(s, o); }
    else if IsCalling(o) { CallingKept(s, o); }
    else { ChildKept(s, o); }
  }

  lemma ChildKept(s: State, o: Once)
    requires Inv(s) && OnceEnabled(s, o) && !IsClaiming(o) && !IsCalling(o)
    ensures Inv(AfterOnce(s, o))
  {
  }

  predicate IsStop(act: Act) {
    act.BeginStop? || act.CheckFence? || act.ConfirmProcess? || act.StopFindsNothing? || act.Terminate?
  }

  predicate IsStart(act: Act) {
    act.EnterStart? || act.CheckStart? || act.Launch? || act.LeaveStart? || act.Release?
  }

  lemma StopKept(s: State, a: Actor, act: Act)
    requires Inv(s) && ActEnabled(s, a, act) && IsStop(act)
    ensures Inv(AfterAct(s, a, act))
  {
  }

  lemma StartKept(s: State, a: Actor, act: Act)
    requires Inv(s) && ActEnabled(s, a, act) && IsStart(act)
    ensures Inv(AfterAct(s, a, act))
  {
  }

  predicate IsFind(act: Act) {
    act.Acquire? || act.FindPresent? || act.FindAbsent?
  }

  lemma FindKept(s: State, a: Actor, act: Act)
    requires Inv(s) && ActEnabled(s, a, act) && IsFind(act)
    ensures Inv(AfterAct(s, a, act))
  {
  }

  lemma AskKept(s: State, a: Actor, act: Act)
    requires Inv(s) && ActEnabled(s, a, act) && !IsStop(act) && !IsStart(act) && !IsFind(act)
    ensures Inv(AfterAct(s, a, act))
  {
  }

  lemma OpeningKept(s: State, r: Report)
    requires Inv(s) && ReportEnabled(s, r) && (r.Snapshot? || r.SendSession?)
    ensures Inv(AfterReport(s, r))
  {
  }

  lemma ReportKept(s: State, r: Report)
    requires Inv(s) && ReportEnabled(s, r)
    ensures Inv(AfterReport(s, r))
  {
    if r.Snapshot? || r.SendSession? { OpeningKept(s, r); }
    else { PostingKept(s, r); }
  }

  lemma PostingKept(s: State, r: Report)
    requires Inv(s) && ReportEnabled(s, r) && !r.Snapshot? && !r.SendSession?
    ensures Inv(AfterReport(s, r))
  {
  }

  /** Every step of every actor and of the environment keeps the invariant. */
  lemma StepKept(s: State, step: Step)
    requires Inv(s) && Enabled(s, step)
    ensures Inv(Apply(s, step))
  {
    match step
    case Environment(e) =>
      if e.Deliver? { DeliverKept(s, e.call, e.policy); } else { EventKept(s, e); }
    case PoolStep(o) => OnceKept(s, o);
    case ActorStep(a, act) =>
      if IsStop(act) { StopKept(s, a, act); }
      else if IsStart(act) { StartKept(s, a, act); }
      else if IsFind(act) { FindKept(s, a, act); }
      else { AskKept(s, a, act); }
    case ReportStep(r) => ReportKept(s, r);
  }

  lemma {:induction false} RunInv(states: seq<State>, steps: seq<Step>, k: nat)
    requires Run(states, steps) && k < |states|
    ensures Inv(states[k])
  {
    if k == 0 {
      InitInv(states[0]);
    } else {
      RunInv(states, steps, k - 1);
      StepKept(states[k - 1], steps[k - 1]);
    }
  }

  // ------------------------------------------------------------------ safety over every run

  /** A live process that was ever quarantined is the quarantined process still. */
  lemma LiveFence(s: State, i: Identity)
    requires Inv(s) && i in s.past.quarantined && i in s.os.live
    ensures s.api.quarantine == Some(i)
  {
  }

  lemma StepRemembers(s: State, step: Step)
    requires Enabled(s, step)
    ensures s.past.quarantined <= Apply(s, step).past.quarantined
    ensures s.os.outside ==> Apply(s, step).os.outside
  {
  }

  lemma {:induction false} QuarantineRemembered(states: seq<State>, steps: seq<Step>, j: nat, k: nat)
    requires Run(states, steps) && j <= k < |states|
    ensures states[j].past.quarantined <= states[k].past.quarantined
  {
    if j < k {
      QuarantineRemembered(states, steps, j, k - 1);
      StepRemembers(states[k - 1], steps[k - 1]);
    }
  }

  lemma EverQuarantined(states: seq<State>, steps: seq<Step>, i: Identity, j: nat, k: nat)
    requires Run(states, steps) && j <= k < |states|
    requires states[j].api.quarantine == Some(i)
    ensures i in states[k].past.quarantined
  {
    RunInv(states, steps, j);
    QuarantineRemembered(states, steps, j, k);
  }

  /**
   * Termination is fenced.  Whoever terminates a managed terminal holds the slot mutex;
   * at that moment the API quarantines exactly that identity, no lease is active, and the
   * pool runs no native child.  Only that one process goes.
   */
  lemma TerminationIsFenced(states: seq<State>, steps: seq<Step>, k: nat, a: Actor)
    requires Run(states, steps) && k < |steps|
    requires steps[k] == ActorStep(a, Terminate)
    ensures PointOf(states[k].actors, a).Confirmed?
    ensures var s, i := states[k], PointOf(states[k].actors, a).identity;
            && s.api.quarantine == Some(i)
            && s.api.lease.None?
            && s.mutex.owner == Some(a)
            && s.actors.pool.PoolIdle?
            && states[k + 1].os.live == s.os.live - {i}
            && states[k + 1].api == s.api
  {
    RunInv(states, steps, k);
    LiveFence(states[k], PointOf(states[k].actors, a).identity);
  }

  /** An identity once quarantined never holds a lease again, whatever is delivered late or twice. */
  lemma QuarantinedNeverLeased(states: seq<State>, steps: seq<Step>, i: Identity, j: nat, k: nat)
    requires Run(states, steps) && j <= k < |states|
    requires states[j].api.quarantine == Some(i)
    ensures states[k].api.lease.Some? ==> states[k].api.lease.value.identity != i
  {
    EverQuarantined(states, steps, i, j, k);
    RunInv(states, steps, k);
  }

  /** The fence is lifted only over a dead process: while it lives, its quarantine stands. */
  lemma FenceOutlivesProcess(states: seq<State>, steps: seq<Step>, i: Identity, j: nat, k: nat)
    requires Run(states, steps) && j <= k < |states|
    requires states[j].api.quarantine == Some(i)
    requires i in states[k].os.live
    ensures states[k].api.quarantine == Some(i)
  {
    EverQuarantined(states, steps, i, j, k);
    RunInv(states, steps, k);
    LiveFence(states[k], i);
  }

  /** The child works under a lease the API granted for the very process found under the mutex. */
  lemma ChildServesItsLease(states: seq<State>, steps: seq<Step>, k: nat)
    requires Run(states, steps) && k < |states| && states[k].actors.pool.Collecting?
    ensures var p := states[k].actors.pool;
            && p.lease in states[k].net.granted
            && p.lease.identity == p.identity
            && states[k].mutex.owner == Some(Pool)
  {
    RunInv(states, steps, k);
  }

  /**
   * While the child collects, no other actor takes any step, and no call of this model leaves
   * the controller; the heartbeat of the running job only confirms the lease it has.
   */
  lemma CollectionIsExclusive(states: seq<State>, steps: seq<Step>, k: nat)
    requires Run(states, steps) && k < |steps| && states[k].actors.pool.Collecting?
    ensures steps[k].Environment? || (steps[k].PoolStep? && (steps[k].once.ChildExits? || steps[k].once.AbandonChild?))
    ensures states[k + 1].net.sent == states[k].net.sent
  {
    RunInv(states, steps, k);
  }

  lemma {:induction false} SilentWhileCollecting(states: seq<State>, steps: seq<Step>, j: nat, k: nat)
    requires Run(states, steps) && j <= k < |states|
    requires forall m :: j <= m <= k ==> states[m].actors.pool.Collecting?
    ensures states[k].net.sent == states[j].net.sent
  {
    if j < k {
      SilentWhileCollecting(states, steps, j, k - 1);
      CollectionIsExclusive(states, steps, k - 1);
    }
  }

  /** An API that drops leases for a report takes in one that names the current session as its predecessor. */
  ghost predicate LateReport(step: Step, generation: Generation, sent: set<Call>) {
    exists call :: step == Environment(Deliver(call, DropLease)) && call.Session? && call.expected == generation &&
                   call in sent
  }

  /**
   * The lease under a collecting child ends exactly by expiry, or by the delivery of a
   * report that was sent before the collection began, names the current session as its
   * predecessor, and reaches an API that drops leases for a report.
   */
  lemma LeaseEndsExactly(states: seq<State>, steps: seq<Step>, j: nat, k: nat)
    requires Run(states, steps) && j <= k < |steps|
    requires forall m :: j <= m <= k ==> states[m].actors.pool.Collecting?
    requires states[k].api.lease == Some(states[k].actors.pool.lease)
    ensures states[k + 1].api.lease != states[k].api.lease <==>
            || steps[k] == Environment(ExpireLease)
            || LateReport(steps[k], states[k].api.generation, states[j].net.sent)
  {
    RunInv(states, steps, k);
    CollectionIsExclusive(states, steps, k);
    SilentWhileCollecting(states, steps, j, k);
  }

  // ------------------------------------------------------------------ how a job ends, and what is remembered of it

  /** The call left the controller with this step. */
  predicate Sends(states: seq<State>, k: nat, call: Call)
    requires k + 1 < |states|
  {
    call in states[k + 1].net.sent && call !in states[k].net.sent
  }

  /**
   * A job is completed only while the process it was collected from lives, by the worker
   * that holds its lease and the mutex, and only on a good result.
   */
  lemma CompletedWhileAlive(states: seq<State>, steps: seq<Step>, k: nat, lease: Lease)
    requires Run(states, steps) && k < |steps| && Sends(states, k, Complete(lease))
    ensures lease.identity in states[k].os.live && lease in states[k].net.granted
    ensures states[k].mutex.owner == Some(Pool)
    ensures states[k].actors.pool == ChildEnded(lease.identity, lease, Collected)
  {
    RunInv(states, steps, k);
  }

  /**
   * Whatever ends the lease of a child whose process is gone is a failure, and one that
   * fences when the child had a good result; an error code alone decides otherwise.
   */
  lemma ChangedProcessFails(states: seq<State>, steps: seq<Step>, k: nat, call: Call)
    requires Run(states, steps) && k < |steps| && Ends(call) && Sends(states, k, call)
    requires call.lease.identity !in states[k].os.live
    ensures call.Fail? && states[k].actors.pool.ChildEnded? && states[k].actors.pool.lease == call.lease
    ensures call.fences <==> states[k].actors.pool.result != Failed(false)
  {
    RunInv(states, steps, k);
  }

  /** While the process lives, the child's result alone decides how its job ends. */
  lemma ResultDecides(states: seq<State>, steps: seq<Step>, k: nat, call: Call)
    requires Run(states, steps) && k < |steps| && Ends(call) && Sends(states, k, call)
    requires call.lease.identity in states[k].os.live
    ensures states[k].actors.pool.ChildEnded? && states[k].actors.pool.lease == call.lease
    ensures call == match states[k].actors.pool.result
                    case Collected => Complete(call.lease)
                    case Failed(fences) => Fail(call.lease, fences)
  {
    RunInv(states, steps, k);
  }

  /** The acknowledgement of a fencing failure leaves the restart intent for that very process. */
  lemma AcknowledgedFenceIsRemembered(states: seq<State>, steps: seq<Step>, k: nat)
    requires Run(states, steps) && k < |steps| && steps[k] == PoolStep(AckFail)
    ensures states[k].actors.pool.PoolFailing? && states[k].actors.pool.call.Fail?
    ensures var call := states[k].actors.pool.call;
            && call in states[k].net.applied
            && states[k + 1].memory.restart ==
                 if call.fences then Some(call.lease.identity) else states[k].memory.restart
  {
    RunInv(states, steps, k);
  }

  predicate FailingFence(pool: PoolPoint) {
    pool.PoolFailing? && pool.call.Fail? && pool.call.fences
  }

  /**
   * A restart intent is what the API says in a fresh /config, or the newest acknowledged
   * fence; a report under the mutex gives it up, and so does the end of the worker.
   */
  lemma IntentKept(states: seq<State>, steps: seq<Step>, k: nat)
    requires Run(states, steps) && k < |steps|
    ensures var s, step := states[k], steps[k];
            states[k + 1].memory.restart ==
              if step == ActorStep(Main, ReadConfig) then s.api.quarantine
              else if step == PoolStep(AckFail) && FailingFence(s.actors.pool)
                then Some(s.actors.pool.call.lease.identity)
              else if step == ReportStep(ReportDone) && s.mutex.owner == Some(Main) then None
              else if step == Environment(CrashWorker) then None
              else s.memory.restart
  {
    RunInv(states, steps, k);
  }

  /**
   * What a /prepare asks to fence is the process its sender found under the mutex: the
   * session it names is that process's.
   */
  lemma PrepareNamesFound(states: seq<State>, steps: seq<Step>, k: nat, generation: Generation)
    requires Run(states, steps) && k < |steps| && Sends(states, k, Prepare(generation))
    ensures exists a :: steps[k] == ActorStep(a, SendPrepare) && states[k].mutex.owner == Some(a) &&
              PointOf(states[k].actors, a).Present? && generation in states[k].past.sessions &&
              states[k].past.sessions[generation] == Some(PointOf(states[k].actors, a).identity) &&
              (a == Watchdog ==>
                 states[k].memory.dogConfig == Config(generation, Some(PointOf(states[k].actors, a).identity), None))
  {
    RunInv(states, steps, k);
    assert steps[k].ActorStep?;
  }

  // ------------------------------------------------------------------ launches

  lemma {:induction false} NoOutsider(states: seq<State>, steps: seq<Step>, k: nat)
    requires Run(states, steps) && k < |states|
    requires forall j :: 0 <= j < k ==> steps[j] != Environment(Spawn)
    ensures !states[k].os.outside
  {
    if k > 0 {
      NoOutsider(states, steps, k - 1);
      assert steps[k - 1] != Environment(Spawn);
    }
  }

  /** The controllers never start a second terminal: a launch finds none unless somebody else started one. */
  lemma LaunchIsExclusive(states: seq<State>, steps: seq<Step>, k: nat, a: Actor)
    requires Run(states, steps) && k < |steps|
    requires steps[k] == ActorStep(a, Launch)
    requires forall j :: 0 <= j < k ==> steps[j] != Environment(Spawn)
    ensures states[k].os.live == {} && |states[k + 1].os.live| == 1
  {
    NoOutsider(states, steps, k);
    RunInv(states, steps, k);
  }

  // ------------------------------------------------------------------ orphaned children

  predicate ChildAlive(s: State) {
    s.actors.pool.Collecting? || s.actors.orphans != {}
  }

  /** Nobody waits for the child any more: its worker was killed, or gave up on a kill that was not confirmed. */
  predicate Leaves(step: Step) {
    step == Environment(CrashWorker) || step == PoolStep(AbandonChild)
  }

  /** The child was left behind in mid-collection at `j` and has not ended before `k`. */
  predicate OrphanedAt(states: seq<State>, steps: seq<Step>, j: int, k: nat, child: nat)
    requires k < |states| <= |steps| + 1
  {
    && 0 <= j < k
    && Leaves(steps[j]) && states[j].actors.pool.Collecting? && states[j].actors.pool.child == child
    && forall m :: j < m < k ==> steps[m] != Environment(OrphanExits(child))
  }

  lemma {:induction false} OrphanHistory(states: seq<State>, steps: seq<Step>, k: nat, child: nat)
    requires Run(states, steps) && k < |states|
    ensures child in states[k].actors.orphans <==> exists j :: OrphanedAt(states, steps, j, k, child)
  {
    if k > 0 {
      var m := k - 1;
      OrphanHistory(states, steps, m, child);
      if child in states[k].actors.orphans {
        if child in states[m].actors.orphans && steps[m] != Environment(OrphanExits(child)) {
          var j :| OrphanedAt(states, steps, j, m, child);
          assert OrphanedAt(states, steps, j, k, child);
        } else {
          assert OrphanedAt(states, steps, m, k, child);
        }
      }
      if j :| OrphanedAt(states, steps, j, k, child) {
        assert j < m ==> OrphanedAt(states, steps, j, m, child);
      }
    }
  }

  ghost predicate SomeOrphan(states: seq<State>, steps: seq<Step>, k: nat)
    requires k < |states| <= |steps| + 1
  {
    exists j, child :: OrphanedAt(states, steps, j, k, child)
  }

  /**
   * A native child is alive at a termination if and only if one was left behind in
   * mid-collection and has not ended: by a killed worker, whose abandoned mutex lets
   * recovery in, or by a worker that released the mutex with the kill unconfirmed.
   */
  lemma ChildAtTermination(states: seq<State>, steps: seq<Step>, k: nat, a: Actor)
    requires Run(states, steps) && k < |steps|
    requires steps[k] == ActorStep(a, Terminate)
    ensures ChildAlive(states[k]) <==> SomeOrphan(states, steps, k)
  {
    TerminationIsFenced(states, steps, k, a);
    forall child: nat
      ensures child in states[k].actors.orphans <==> exists j :: OrphanedAt(states, steps, j, k, child)
    {
      OrphanHistory(states, steps, k, child);
    }
    if child :| child in states[k].actors.orphans {
      var j :| OrphanedAt(states, steps, j, k, child);
      assert SomeOrphan(states, steps, k);
    }
    if SomeOrphan(states, steps, k) {
      var j, child: nat :| OrphanedAt(states, steps, j, k, child);
      assert child in states[k].actors.orphans;
    }
  }

  predicate NoCrash(steps: seq<Step>) {
    forall k :: 0 <= k < |steps| ==> steps[k] != Environment(CrashWorker)
  }

  lemma Extend(states: seq<State>, steps: seq<Step>, step: Step) returns (longer: seq<State>, more: seq<Step>)
    requires Run(states, steps)
    requires Enabled(states[|steps|], step)
    ensures Run(longer, more) && more == steps + [step]
    ensures longer[|steps|] == states[|steps|]
    ensures longer[|more|] == Apply(states[|steps|], step)
    ensures NoCrash(steps) && step != Environment(CrashWorker) ==> NoCrash(more)
  {
    longer, more := states + [Apply(states[|steps|], step)], steps + [step];
  }

  /** Process 1 is live, found alone by the main thread, and about to be reported. */
  const FOUND := State(
    Api(0, None, None, None), Processes({1}, 2, false), FREE,
    Actors(PoolIdle, Reporting(false, Some(1)), Idle, {}, 0),
    Memory(None, Config(0, None, None), None, Unread),
    Network({}, {}, {}, 1, 0, 0), Past(1, 0, map[0 := None], {}))

  lemma FoundRun() returns (states: seq<State>, steps: seq<Step>)
    ensures Run(states, steps) && states[|steps|] == FOUND && NoCrash(steps)
  {
    states, steps := [State(Api(0, None, None, None), Processes({1}, 2, false), FREE,
                            Actors(PoolIdle, Idle, Idle, {}, 0), Memory(None, Unread, None, Unread),
                            Network({}, {}, {}, 1, 0, 0), Past(0, 0, map[0 := None], {}))], [];
    states, steps := Extend(states, steps, ActorStep(Main, ReadConfig));
    states, steps := Extend(states, steps, ReportStep(Snapshot(Some(1))));
  }

  /** Process 1 has been reported as session 1 of the slot. */
  const REPORTED := State(
    Api(1, Some(1), None, None), Processes({1}, 2, false), FREE,
    Actors(PoolIdle, Idle, Idle, {}, 0),
    Memory(Some(LocalSession(1, Some(1))), Config(0, None, None), None, Unread),
    Network({Session(1, 0, Some(1))}, {Session(1, 0, Some(1))}, {}, 2, 1, 0),
    Past(1, 1, map[0 := None, 1 := Some(1)], {}))

  lemma ReportedRun() returns (states: seq<State>, steps: seq<Step>)
    ensures Run(states, steps) && states[|steps|] == REPORTED && NoCrash(steps)
  {
    states, steps := FoundRun();
    states, steps := Extend(states, steps, ReportStep(SendSession));
    states, steps := Extend(states, steps, Environment(Deliver(Session(1, 0, Some(1)), RefuseReport)));
    states, steps := Extend(states, steps, ReportStep(AckSession));
    states, steps := Extend(states, steps, ReportStep(ReportDone));
  }

  /** The pool has sent its claim for process 1 under the mutex. */
  predicate Claimed(s: State) {
    && s.api == Api(1, Some(1), None, None)
    && s.os == Processes({1}, 2, false)
    && s.mutex == Mutex(Some(Pool), 1)
    && s.actors == Actors(PoolClaiming(1, 1, 0), Idle, Idle, {}, 0)
    && Claim(1, 0) in s.net.sent && s.net.nextToken == 1
  }

  lemma ClaimedRun() returns (states: seq<State>, steps: seq<Step>)
    ensures Run(states, steps) && Claimed(states[|steps|]) && NoCrash(steps)
  {
    states, steps := ReportedRun();
    states, steps := Extend(states, steps, PoolStep(PoolAcquire));
    states, steps := Extend(states, steps, PoolStep(PoolFind(1)));
    states, steps := Extend(states, steps, PoolStep(SendClaim));
  }

  const LEASE := Lease(1, 0, 1, 1)

  /** The child collects under its lease. */
  predicate Busy(s: State) {
    && s.api == Api(1, Some(1), None, Some(LEASE))
    && s.os == Processes({1}, 2, false)
    && s.mutex == Mutex(Some(Pool), 1)
    && s.actors == Actors(Collecting(1, LEASE, 0), Idle, Idle, {}, 1)
  }

  lemma BusyRun() returns (states: seq<State>, steps: seq<Step>)
    ensures Run(states, steps) && Busy(states[|steps|]) && NoCrash(steps)
  {
    states, steps := ClaimedRun();
    states, steps := Extend(states, steps, Environment(Deliver(Claim(1, 0), RefuseReport)));
    states, steps := Extend(states, steps, PoolStep(ReceiveLease(LEASE)));
    states, steps := Extend(states, steps, PoolStep(StartChild));
  }

  /** Nobody waits for the child; its lease has expired and the fence is up. */
  predicate LeftBehind(s: State, dog: Point) {
    && s.api == Api(1, Some(1), Some(1), None)
    && s.os == Processes({1}, 2, false)
    && s.actors == Actors(PoolIdle, Idle, dog, {0}, 1)
  }

  lemma StoppingRun(before: seq<State>, taken: seq<Step>) returns (states: seq<State>, steps: seq<Step>)
    requires Run(before, taken) && LeftBehind(before[|taken|], Idle) && before[|taken|].mutex == FREE
    ensures Run(states, steps) && LeftBehind(states[|steps|], Stopping(1)) && (NoCrash(taken) ==> NoCrash(steps))
  {
    states, steps := Extend(before, taken, ActorStep(Watchdog, Acquire));
    states, steps := Extend(states, steps, ActorStep(Watchdog, ReadConfig));
    states, steps := Extend(states, steps, ActorStep(Watchdog, FindPresent(1)));
    states, steps := Extend(states, steps, ActorStep(Watchdog, BeginStop));
  }

  lemma TerminatingRun(before: seq<State>, taken: seq<Step>) returns (states: seq<State>, steps: seq<Step>)
    requires Run(before, taken) && LeftBehind(before[|taken|], Idle) && before[|taken|].mutex == FREE
    ensures Run(states, steps) && |steps| > 0 && (NoCrash(taken) ==> NoCrash(steps))
    ensures steps[|steps| - 1] == ActorStep(Watchdog, Terminate)
    ensures ChildAlive(states[|steps| - 1])
  {
    states, steps := StoppingRun(before, taken);
    states, steps := Extend(states, steps, ActorStep(Watchdog, CheckFence));
    states, steps := Extend(states, steps, ActorStep(Watchdog, ConfirmProcess));
    states, steps := Extend(states, steps, ActorStep(Watchdog, Terminate));
  }

  /** It happens: the watchdog terminates the terminal under a child whose worker was killed. */
  lemma OrphanWitness() returns (states: seq<State>, steps: seq<Step>)
    ensures Run(states, steps) && |steps| > 0
    ensures steps[|steps| - 1] == ActorStep(Watchdog, Terminate)
    ensures ChildAlive(states[|steps| - 1])
  {
    states, steps := BusyRun();
    states, steps := Extend(states, steps, Environment(CrashWorker));
    states, steps := Extend(states, steps, Environment(ExpireLease));
    states, steps := TerminatingRun(states, steps);
  }

  /** It happens without any crash: the worker gives up on a child that its kill did not end in time. */
  lemma AbandonedWitness() returns (states: seq<State>, steps: seq<Step>)
    ensures Run(states, steps) && |steps| > 0 && NoCrash(steps)
    ensures steps[|steps| - 1] == ActorStep(Watchdog, Terminate)
    ensures ChildAlive(states[|steps| - 1])
  {
    states, steps := BusyRun();
    states, steps := Extend(states, steps, PoolStep(AbandonChild));
    states, steps := Extend(states, steps, PoolStep(PoolRelease));
    states, steps := Extend(states, steps, Environment(ExpireLease));
    states, steps := TerminatingRun(states, steps);
  }

  const LATE := Session(2, 1, None)

  /** A failed inspection was reported, the call was given up, and the pool has its claim out. */
  predicate ClaimedAfterLoss(s: State) {
    && s.api == Api(1, Some(1), None, None)
    && s.os == Processes({1}, 2, false)
    && s.mutex == Mutex(Some(Pool), 1)
    && s.actors == Actors(PoolClaiming(1, 1, 0), Idle, Idle, {}, 0)
    && Claim(1, 0) in s.net.sent && LATE in s.net.sent && s.net.nextToken == 1
  }

  lemma ClaimedAfterLossRun() returns (states: seq<State>, steps: seq<Step>)
    ensures Run(states, steps) && ClaimedAfterLoss(states[|steps|])
  {
    states, steps := ReportedRun();
    states, steps := Extend(states, steps, ReportStep(Snapshot(None)));
    states, steps := Extend(states, steps, ReportStep(SendSession));
    states, steps := Extend(states, steps, ReportStep(ReportRaises));
    states, steps := Extend(states, steps, PoolStep(PoolAcquire));
    states, steps := Extend(states, steps, PoolStep(PoolFind(1)));
    states, steps := Extend(states, steps, PoolStep(SendClaim));
  }

  /** The late report is a real exception: an API that drops leases for it takes the lease from under the child. */
  lemma LateReportWitness() returns (states: seq<State>, steps: seq<Step>)
    ensures Run(states, steps) && |steps| > 0
    ensures var before, after := states[|steps| - 1], states[|steps|];
            && before.actors.pool.Collecting? && before.api.lease == Some(before.actors.pool.lease)
            && after.actors.pool.Collecting? && after.api.lease.None?
            && steps[|steps| - 1] == Environment(Deliver(LATE, DropLease))
  {
    states, steps := ClaimedAfterLossRun();
    states, steps := Extend(states, steps, Environment(Deliver(Claim(1, 0), RefuseReport)));
    states, steps := Extend(states, steps, PoolStep(ReceiveLease(LEASE)));
    states, steps := Extend(states, steps, PoolStep(StartChild));
    states, steps := Extend(states, steps, Environment(Deliver(LATE, DropLease)));
  }
}
