# The MT5 collector, modelled and proved

This project models the controller under `app/collector` that runs a pool of MetaTrader 5
terminals, and the capacity simulator in `scripts/model_mt5_capacity.py`. The native
terminal, the API and the clock are the environment: whatever they answer is a parameter,
a nondeterministic step or a message that may be late, repeated or lost.

| file | what it models |
|---|---|
| `SlotFence.dfy`, `SlotIntents.dfy` | one slot as a transition system: pool thread, main thread and watchdog under a re-entrant mutex, the API's session, lease and quarantine, live processes, crashes; and why each actor does what it does |
| `Contracts.dfy`, `Normalization.dfy`, `FieldLaws.dfy`, `Ordering.dfy` | history windows and their second-aligned bounds, window planning, record validation and what each reported field is |
| `IdentityGuard.dfy`, `Collection.dfy`, `Paging.dfy` | `collect` from the settling caption on: identity and access checks, shrinking windows, counted reads, and chains of pages |
| `Scheduler.dfy` | `run_slots` with backoff, drain and once mode, and the traces it may leave |
| `CatalogueSync.dfy`, `CatalogueInstall.dfy`, `InventoryCache.dfy` | pair selection, convergence of catalogue spreading, crash-safe installs, the dialog-evidence cache |
| `CapacityModel.dfy`, `CapacityReport.dfy` | the two-queue event loop of the simulator and the figures it reports |
| `Spacing.dfy`, `RestartBudget.dfy`, `EvidenceRuns.dfy`, `UiRecovery.dfy`, `Telemetry.dfy` | durable throttles, evidence that must persist, the escalation of UI failures, the telemetry quota |
| `Sessions.dfy`, `OrphanUpdate.dfy`, `ClockObservation.dfy`, `Journal.dfy` | report generations and sequences, crash-safe archiving of dead and stalled updates, clock offsets, login-failure evidence |
| `Outcomes.dfy`, `Sequences.dfy` | optional values, results, sequences without repetition |

Assumptions about the environment, each visible in the model:

- API contract (docs/queue-worker.uk.md:20-36, docs/quarantine-recovery-20260925.md:55-57): a lease
  is granted only to the current generation, without quarantine or another lease; quarantine is set
  together with the release of the lease; `/prepare` refuses a slot with a lease; a session report
  names its predecessor and is refused otherwise; while a process is quarantined only the report of
  a live process is accepted, and only a different one clears the quarantine.
- The scheduler never connects, inspects or reports for a slot whose job is under way; `Scheduler.dfy` proves
  it, and the slot fence takes it as a guard.
- A process identity is PID plus creation time and is never reused; identities are numbered by creation.
- The native history query selects the deals whose whole second lies in an inclusive range.
- A durable store is a value that is replaced atomically or not at all.

Some properties are false of the code as one would first state them. Each has its exact condition and a
concrete failing case:

- A native child can be alive when its terminal is terminated: exactly when a child was left behind in
  mid-collection and has not ended since, either by a killed worker, whose abandoned mutex lets recovery
  in, or without any crash by a worker that released the mutex because its kill was not confirmed within
  five seconds (`ChildAtTermination`; `OrphanWitness`, `AbandonedWitness`).
- A lease can end under its collecting child otherwise than by expiry: exactly when a report that was sent
  before the collection, and names the current session as its predecessor, reaches an API that drops leases
  for a report (`LeaseEndsExactly`, `LateReportWitness`).
- A dense window can survive with a start below its floor when the terminal changes between two counts:
  exactly when it is longer than a second, starts off the second, and the rest of that second is longer
  than half the window (`FloorHeldExactly`, `FloorPassedWitness`; one cut alone: `FloorKeptExactly`,
  `FloorWitness`). On a stable history it never does (`SteadyKeepsFloor`).
- Backfill does not finish over every history that can be read: exactly the deals filed under the
  first second of the epoch keep the older history non-empty (`BackfillFinishesExactly`, `BackfillWitness`).
- One telemetry event per code in six hours: under a steady clock a code admitted less than six hours ago
  is admitted again exactly when the store that is consulted shows no entry of the last six hours. For the
  table that means every recent admission bypassed it (`RepeatedExactly`, `TwiceInASecond`).
- A refused event was sent in the last six hours: under a steady clock a code not admitted for six hours is
  refused exactly when the commit fails now, or the table is out of reach and the in-process copy holds the
  mark of a commit that failed less than six hours ago (`SwallowedExactly`, `NeverSent`).
- A catalogue install that every guard permits succeeds exactly when nothing obstructs it and nothing cuts
  it off (`CatalogueInstall.Slots.Install`). A temporary file left by an install cut off while writing
  obstructs its slot (`LeftoverBlocks`); an immutable copy cut off while it was filed obstructs its
  catalogue for every slot and is never replaced (`FrozenPartBlocks`).

## Model

| member | source | states |
|---|---|---|
| SlotFence.StepKept | app/collector/worker.py:93-204 | every step of pool, main thread, watchdog and environment keeps the slot invariant: mutex ownership and depth, quarantine excluding a lease, nothing alive older than what was found, quarantined identities at or behind the session frontier |
| SlotFence.TerminationIsFenced | app/collector/server_preparation.py:91-111 | in every interleaving a terminal is terminated only by the holder of the slot mutex, while the API quarantines exactly that identity, no lease is active and the pool is idle; no other process and nothing at the API changes |
| SlotFence.QuarantinedNeverLeased | docs/quarantine-recovery-20260925.md:55-57 | an identity once quarantined never holds a lease again, however late or often calls are delivered |
| SlotFence.FenceOutlivesProcess | app/collector/quarantine_recovery.py:11-25 | as long as a once quarantined process lives, it is the quarantined one: nobody clears the fence under it |
| SlotFence.ChildServesItsLease | app/collector/worker.py:160-184 | while the child collects, the pool holds the mutex and its lease was granted for the very process found under it |
| SlotFence.LeaseEndsExactly | app/collector/worker.py:170-184 | the lease under a collecting child ends if and only if it expires, or an API that drops leases for a report takes in one that was sent before the collection began and names the current session as its predecessor |
| SlotFence.LateReportWitness | app/collector/node_agent.py:174-182 | a concrete run in which such a late report takes the lease from under the child |
| SlotFence.CompletedWhileAlive | app/collector/worker.py:199-204 | a completion is sent only while the very process of its lease lives, by the pool under the mutex, after a good result |
| SlotFence.ChangedProcessFails | app/collector/worker.py:185-202 | the call that ends the lease of a vanished process is a failure, and a fencing one unless the child's own error says otherwise |
| SlotFence.ResultDecides | app/collector/worker.py:185-204 | while the process lives, a good result is completed and an error fails with exactly its own fencing |
| SlotFence.AcknowledgedFenceIsRemembered | app/collector/worker.py:186-202 | the acknowledged fencing failure leaves the restart intent for the process of its lease, and any other leaves the intent as it was |
| SlotFence.IntentKept | app/collector/worker.py:93-127 | after every step the restart intent is what a fresh /config says, the process of the fence just acknowledged, none after a report under the mutex or a crash, and what it was otherwise |
| SlotFence.PrepareNamesFound | app/collector/catalogue_sync.py:65-70 | every /prepare comes from an actor in the mutex and names a session of the very process it found; the watchdog's /config showed that session without quarantine |
| SlotIntents.StepJustified | app/collector/worker.py:93-204 | every step keeps a second invariant: ended leases are not active, acknowledged fences and remembered quarantines were set, what is to stop was quarantined, nothing is reported under the mutex of the process to be restarted |
| SlotIntents.EndedLeaseIsGone | app/collector/worker.py:186-204 | once the API acknowledged a completion or failure, its lease is never active again |
| SlotIntents.AcknowledgedFenceWasSet | docs/quarantine-recovery-20260925.md:55-57 | an acknowledged fencing failure or /prepare put the process it names into quarantine |
| SlotIntents.StopsOnlyQuarantined | app/collector/server_preparation.py:91-111 | a stop begins only for a process the API has quarantined: the watchdog's for what its /config showed, the worker's for its restart intent or its own acknowledged /prepare |
| SlotIntents.PointsAreSights | app/collector/server_preparation.py:55-111 | an actor goes on only from what it has just seen: one process or none, the fence before a stop, the process alone before its end, an empty slot before a launch |
| SlotIntents.SessionsAreSuccessors | app/collector/node_agent.py:171-180 | a session is opened only for another process than that of the current one, and names it, or the last /config, as its predecessor |
| SlotIntents.PostedUnderItsSession | app/collector/node_agent.py:171-188 | a report is posted only under an acknowledged session of the very process that was seen |
| SlotIntents.IntentEndsWithAnother | app/collector/worker.py:93-127 | a report under the mutex gives up a restart intent only with a session of another process, or of none |
| SlotFence.CollectionIsExclusive | app/collector/scheduler.py:30-33 | while the child collects, no other actor takes any step and no modelled call leaves the controller; only the child ends, is given up, or the environment moves |
| SlotFence.LaunchIsExclusive | app/collector/server_preparation.py:55-62 | unless somebody else launches one, a controller launch finds no live terminal and leaves exactly one |
| SlotFence.ChildAtTermination | app/collector/worker.py:69-73 | a native child is alive at a termination if and only if one was left behind in mid-collection, by a killed worker or by one whose kill was not confirmed in time, and has not ended since |
| SlotFence.OrphanWitness | app/collector/windows_inventory.py:220 | a concrete run in which the watchdog enters through the abandoned mutex and terminates the terminal under such a child |
| SlotFence.AbandonedWitness | app/collector/worker.py:71-73 | the same without any crash: the wait for the killed child times out and the mutex is released in order |
| Contracts.MakeWindow | app/collector/contracts.py:39-52 | a window exists exactly for millisecond-aligned instants from the epoch on, in order and at most 31 days apart |
| Contracts.Mt5Bounds | app/collector/contracts.py:62-71 | the bounds are the nearest whole seconds at or outside both ends, and fail exactly when rounding up leaves the calendar |
| History.PlanRecentHistory | app/collector/history.py:23-38 | the recent window exists exactly when it fits the calendar; it ends a day after the whole second of the observation and starts thirty days before it |
| History.PlanHistoryBefore | app/collector/history.py:41-45 | exactly the positive whole-second cursors inside the calendar are accepted; the window ends at the cursor and starts 31 days earlier or at the epoch |
| Normalization.NormalizeDeals | app/collector/normalization.py:85-121 | the loop returns the specified result; it succeeds exactly when the batch is within limits, every record readable and tickets of the window unambiguous, and then holds exactly the window's distinct deals strictly ordered by time and ticket; every error has its code |
| FieldLaws.DealsAreRecords | app/collector/normalization.py:96-121 | each reported deal is some record of the window, field by field: integers, enumerations and times equal, money the decimal text of its own field's number; and every record of the window is reported so |
| FieldLaws.MoneyField | app/collector/normalization.py:42-51 | a money field is read exactly when it is a number within limits, and its text denotes that number with its sign |
| Normalization.DependsOnRecordSet | app/collector/normalization.py:94-121 | permuting or duplicating records within the limit changes neither success nor output |
| Normalization.SplitsAtBoundary | app/collector/normalization.py:94-121 | at any inner boundary the output is the concatenation of the outputs of the two halves |
| Normalization.NormalizePositions | app/collector/normalization.py:124-158 | positions are accepted exactly when readable and injective in both identifier and ticket, and are then all reported, by identifier |
| FieldLaws.PositionsAreRecords | app/collector/normalization.py:130-158 | each reported position is some record, field by field, and every record is reported so |
| Collection.Halved | app/collector/gateway.py:222-223 | a cut keeps the upper bound, lands on a whole second and satisfies 2(w' - 1999) <= w - 1999 |
| Collection.Narrow | app/collector/gateway.py:215-225 | the 32-round loop computes the specified narrowing over whatever the terminal answers, query by query |
| Collection.NarrowedFits | app/collector/gateway.py:217-219 | the surviving window has the requested upper bound and its last count was at most 4000 |
| Collection.TooLargeMeansDense | app/collector/gateway.py:217-225 | for every window and any terminal the 32-round loop raises BATCH_TOO_LARGE only after some query counted over 4000 deals in a window of at most 2000 ms at the fixed cursor |
| Collection.TooLargeExactly | app/collector/gateway.py:215-225 | on a stable history, for every window reaching past the last seconds below its cursor, 32 rounds fail if and only if those seconds alone hold over 4000 deals |
| Collection.FloorKeptExactly | app/collector/gateway.py:222-223 | a cut stays at or above the window start if and only if the start is on a second or the rest of its second fits into half the window; aligned windows over one second strictly shrink |
| Collection.FloorWitness | app/collector/gateway.py:222-223 | the window from 1 ms to 1002 ms is cut below its start |
| Collection.Collect | app/collector/gateway.py:186-265 | the imperative flow equals the specified page with every error in its order; a page ends at its cursor or, without one, a day after the second of the clock; it starts where planned, thirty days before that second without a cursor, or is cut within that; all its identity checks passed, and a counted page is what one answer held between two counts that agree with it |
| IdentityGuard.Guard.Check | app/collector/gateway.py:139-161 | one check: its conditions in order, with trading mode and build remembered on the way |
| IdentityGuard.Guard.Settle | app/collector/gateway.py:186-194 | while the caption settles only an unverified investor is looked at again; the last look decides |
| IdentityGuard.OneLookDecides | app/collector/gateway.py:186-194 | one look decides: each before it found an unverified investor and nothing else, and what it finds is the outcome |
| IdentityGuard.WatchedIsConstant | app/collector/gateway.py:139-161 | no check fails exactly when every look is sound, without trading unless consented, and shows the build and trading mode first seen |
| IdentityGuard.FailureIs | app/collector/gateway.py:139-161 | each code is raised exactly under its own condition, the first one that fails, and the trading mode is remembered from then on |
| IdentityGuard.EveryLookCounts | app/collector/gateway.py:233-250 | no check before, between or after the reads fails exactly when each of the four looks is sound and of the terminal first seen |
| Collection.PageIsCounted | app/collector/gateway.py:238-247 | over any terminal, changing or not, a page holds exactly the deals of one answer whose count agrees with the counts right before and after, and older history is called empty exactly after two empty queries |
| Paging.StablePage | app/collector/gateway.py:238-247 | a counted page of a stable history is the full read of its window, and says exactly whether anything is filed at or before its first second |
| Paging.BackfillIsOneRead | app/collector/gateway.py:195-247 | pages chained by the previous start, each with its own clock, positions and looks, tile the range without gap or overlap, and joined oldest first they are the normalized whole back to the epoch |
| Paging.BackfillFinishesExactly | app/collector/gateway.py:243-247 | on a stable history without three dense seconds the backfill finishes if and only if nothing is filed under the first second of the epoch |
| Paging.BackfillWitness | app/collector/gateway.py:245-247 | one readable deal at the epoch keeps a backfill from ever finishing |
| Paging.RecentIsOneRead | app/collector/gateway.py:199-207 | resumed recent pages, from any cursor down to any kept floor, tile the window exactly and equal one read of it |
| Paging.RecentFromNowIsOneRead | app/collector/gateway.py:195-225 | the newest page together with the pages resumed below it tiles exactly the 31 days from thirty days before the second of its clock, and is one read of them |
| Paging.SteadyKeepsFloor | app/collector/gateway.py:215-225 | on a stable history a window cut below its floor stays too dense, so what survives never starts below the floor |
| Collection.AlignedKeepsFloor | app/collector/gateway.py:215-225 | a window that starts on a second never passes its start, whatever the terminal answers |
| Paging.FloorHeldExactly | app/collector/gateway.py:215-225 | whatever the terminal answers from query to query, what survives starts at or above the floor, if and only if the window is not cut or its first cut keeps the floor |
| Paging.FloorPassedWitness | app/collector/gateway.py:215-225 | 4001 deals of the first second that vanish after one query leave the window from 1 ms to 1002 ms starting at 0 |
| Scheduler.Loop.Run | app/collector/scheduler.py:51-111 | in every pass every job is asked about and taken if it is done, and unless a stop is seen every free, unfinished slot that is due is touched and every available one prepared when its thirty seconds are over; whenever the loop returns, no job is outstanding, each was emitted exactly once, in once mode no slot ran twice, and the result is true exactly when nothing failed; after a lasting stop was seen nothing is dispatched |
| Scheduler.FoundThenTouched | app/collector/scheduler.py:79-108 | between two readings that found a slot due lies a touch of it, or a stop was seen |
| Scheduler.TouchedThenConcluded | app/collector/scheduler.py:93-110 | what happens next to a touched slot is what its answer entails: a job exactly if it connected and is ready |
| Scheduler.Loop.Delay | app/collector/scheduler.py:60-65 | a collected job leaves its slot due at once, maintenance after a second at most, anything else after the interval |
| Scheduler.Loop.RetryDelay | app/collector/scheduler.py:103 | an inventory that is not ready is asked for again after what it asks for, no earlier than the interval and no later than two minutes unless the interval is longer |
| Scheduler.Loop.CollectOne | app/collector/scheduler.py:53-70 | a done future is taken once: success resets failures and sets the due time by its outcome, an exception defers |
| Scheduler.Loop.IdleSlots | app/collector/scheduler.py:79 | the idle slots are free, unfinished and were each due at a clock reading just taken; every other free slot was not |
| Scheduler.Loop.DispatchOne | app/collector/scheduler.py:93-110 | an idle slot is touched once and either gets the next job or is marked failed and left without one |
| Scheduler.Loop.Prepare | app/collector/scheduler.py:80-91 | preparation sees exactly the free, unfinished, connected, inspected slots, when its thirty seconds are over; a slot it installs on loses its inspection mark |
| Scheduler.EveryJobEmittedOnce | app/collector/scheduler.py:53-75 | from the trace alone: every submitted job ended exactly once before the return |
| Scheduler.LiveUntilEnded | app/collector/scheduler.py:53-108 | from its submission to its ending a job keeps its slot to itself: nothing happens to the slot but that ending, and no preparation includes it |
| Scheduler.BackoffLaw | app/collector/scheduler.py:39-49 | the delay is 10, 20, 40, 80, 160 and then 300 seconds and never falls with more failures |
| Scheduler.TouchedWhenDue | app/collector/scheduler.py:39-49 | between the event that sets a due time and the next touch of the slot a clock reading has reached it; after a failure that is the backoff delay for the failures in a row |
| CatalogueSync.ChoosePair | app/collector/catalogue_sync.py:25-36 | a pair is returned exactly when one verified set strictly contains another; its source is inclusion-maximal, its target inclusion-minimal, and ties follow size and slot id |
| CatalogueSync.EvidenceIs | app/collector/catalogue_sync.py:13-22 | a slot is verified exactly by a dialog reading under 90 s old, non-empty, of the current session's process and the current catalogue |
| CatalogueSync.LargerIsEarlier | app/collector/catalogue_sync.py:28-32 | a strictly containing catalogue sorts before the contained one |
| CatalogueSync.InstallSettlesTarget | app/collector/catalogue_sync.py:39-43 | an install makes exactly its target maximal and changes no other slot |
| CatalogueSync.SpreadingConverges | app/collector/catalogue_sync.py:90-112 | each slot is a target at most once, and the cycles end, with no set strictly inside another, after exactly as many installs as there were non-maximal slots |
| CatalogueSync.ChosenPairInstalls | app/collector/catalogue_sync.py:25-43 | what pair selection chooses, every slot being verified, is such an install |
| CatalogueSync.Spread | app/collector/catalogue_sync.py:90-112 | the loop of pair selection and install settles the pool after exactly that many installs and loses no name |
| CatalogueSync.NamesOnlyGrow | app/collector/catalogue_sync.py:39-43 | no slot ever loses a name and every final set was some slot's verified set |
| CatalogueSync.PartialCyclesEnd | app/collector/catalogue_sync.py:90-112 | with only some slots verified in each cycle, names still only grow and there are at most as many installs as pairs of a slot and an original set strictly above its own |
| CatalogueInstall.Slots.Install | app/collector/catalogue_sync.py:39-87 | the catalogue is replaced exactly when every guard holds, nothing is left over from an interrupted install and nothing cuts it off before, and the install succeeds if the restart does not raise either; at every moment the catalogue is the old one, or the new one with the old one backed up; no other slot is touched |
| CatalogueInstall.PermittedIs | app/collector/catalogue_sync.py:39-71 | the guards in full: fresh evidence, no name lost, verified and equal builds, at most 8 MiB, the process and file of the evidence, and the API's consent |
| CatalogueInstall.LeftoverBlocks | app/collector/catalogue_sync.py:77-79 | after an install cut off while writing, a restart and a fresh reading, an install that every guard permits is refused |
| CatalogueInstall.FrozenPartBlocks | app/collector/catalogue_sync.py:54-61 | an immutable copy cut off while it was filed blocks its catalogue for another slot that nothing is wrong with |
| CatalogueInstall.Slots.Freeze | app/collector/catalogue_sync.py:54-61 | the immutable copy passes exactly when it is the whole catalogue, and never changes |
| CatalogueInstall.Slots.Synchronize | app/collector/catalogue_sync.py:90-112 | a cycle installs exactly when the source is as its dialog reading said before and after its file was read and the install on the target passes; what it puts in place is that very catalogue, over that of the target's reading with strictly fewer names; everything else stays as it was |
| InventoryCache.Inventory.Collect | app/collector/windows_inventory.py:378-421 | dialog names come from a confirmed reading of the same process, build and bytes, made in this call or verified less than 300 s ago; hits do not renew it, and a failure or change forces a new reading; each status and each error is returned exactly under its condition |
| CapacityModel.RunConserves | scripts/model_mt5_capacity.py:34-68 | in every state of every run each slot owns one pending event, each account waits or is in flight exactly once, at most two imports are active and none is lost, and time never goes back |
| CapacityModel.WorkDrops | scripts/model_mt5_capacity.py:34-68 | every iteration uses up work, even with zero durations and zero cooldown |
| CapacityModel.RunsAreShort | scripts/model_mt5_capacity.py:34-37 | no run has more iterations than the work it starts with |
| CapacityModel.CompletionsSpaced | scripts/model_mt5_capacity.py:41-52 | two completions of one account are at least one cadence apart in every run |
| CapacityModel.DistinctSlots | scripts/model_mt5_capacity.py:26-35 | pending events have distinct slots, so heap comparisons never reach the kind or the account |
| CapacityModel.Simulate | scripts/model_mt5_capacity.py:19-79 | the loop stops with every pending event past the span; its figures are those of the gaps, bounds and waits of that run's history, it fails exactly when that history has no gap, and it counts the completions |
| CapacityModel.ListsExact | scripts/model_mt5_capacity.py:41-65 | in order, the gaps are the times between successive completions of an account from 120 s on, the bounds run from the claim of the earlier read, the waits from due time to claim, and the counter is the number of completions |
| CapacityModel.HistoryKept | scripts/model_mt5_capacity.py:41-60 | last completion, last claim and the claim behind it, of every account, are those of the history |
| CapacityModel.SlotContinues | scripts/model_mt5_capacity.py:34-68 | between two events of a slot lies exactly the cooldown, a sampled read, an import's thirty seconds or a poll's ten |
| CapacityReport.PercentileIsLeast | scripts/model_mt5_capacity.py:14-16 | a percentile is the least recorded value that more than the rank's number of values do not exceed |
| CapacityReport.PercentileDominates | scripts/model_mt5_capacity.py:44-47 | lists that dominate one another value by value do so in every percentile, although each is sorted on its own |
| CapacityReport.ReportIsConsistent | scripts/model_mt5_capacity.py:69-79 | cadence, gap percentiles and gap maximum are ordered, every visibility figure is at least its gap figure, and the share of long gaps is zero exactly when the maximum is at most 60 |
| CapacityReport.ReportIsExact | scripts/model_mt5_capacity.py:69-79 | each figure is the percentile, maximum or share of its own list, characterised by counting |
| RestartBudget.Budget.Reserve | app/collector/restart_budget.py:14-35 | one transaction: repeating the reserved identity changes nothing, anything else is admitted exactly when both cooldowns passed under any clock, and a failing store admits nothing |
| RestartBudget.AdmissionKept | app/collector/restart_budget.py:25-33 | the table keeps summarising the full admission log: last admission per slot, maximum equal to the last of all, spacing kept |
| RestartBudget.PoolRestartsInSpan | app/collector/restart_budget.py:28-30 | a span T holds at most T/120 + 1 restarts of the pool, at strictly rising times |
| RestartBudget.SlotRestartsInSpan | app/collector/restart_budget.py:28-31 | a span T holds at most T/900 + 1 restarts of one slot |
| UiRecovery.RecoveryBudget.Observe | app/collector/ui_recovery.py:19-37 | escalation is asked for exactly when the slot's current maximal run of fit samples has at least three members and spans at least 120 s |
| EvidenceRuns.ExtendKeeps | app/collector/ui_recovery.py:28-36 | the four stored numbers always describe the current maximal run of the whole trace |
| EvidenceRuns.CurrentRunIsUnique | app/collector/ui_recovery.py:31-37 | a trace has one current maximal run, so escalation is well defined |
| UiRecovery.RecoveryBudget.Reserve | app/collector/ui_recovery.py:39-52 | a recovery is reserved exactly when both durable cooldowns passed and the file could be read and written; a file that cannot raises, changes nothing, and counts again later |
| UiRecovery.ReservationKept | app/collector/ui_recovery.py:39-52 | reservations stay 120 s apart in the pool and 900 s apart per slot, and the file remembers the last of each |
| Telemetry.Transients.Accumulate | app/collector/telemetry.py:119-130 | a transient error passes exactly when the current run of its code and slot, since the last recovery, eviction or pause over 300 s, has at least three members and spans at least 180 s; at most the oldest entry is displaced |
| Telemetry.Transients.Recover | app/collector/telemetry.py:102-108 | a recovered slot loses exactly its own pending errors |
| Telemetry.Quota.Reserve | app/collector/telemetry.py:31-53 | the exact admission through the table, past it, and after a failed commit; under a steady clock it admits exactly when the consulted store shows no entry of the last six hours, and table and copy stay exactly what the trace says |
| Telemetry.RowSurvives | app/collector/telemetry.py:37-41 | the row just written or refused is never among the pruned ones |
| Telemetry.CommitKeeps | app/collector/telemetry.py:35-42 | after a committed question every row is the code's last durable admission unless that is a week old, and the copy holds exactly the row read |
| Telemetry.EvictionKeeps | app/collector/telemetry.py:47-53 | an admission past the table is noted exactly, and costs at most the oldest entry of the copy |
| Telemetry.RepeatedExactly | app/collector/telemetry.py:31-53 | a code admitted less than six hours ago is admitted again if and only if the consulted store shows no recent entry; for the table, if and only if every recent admission bypassed it |
| Telemetry.SwallowedExactly | app/collector/telemetry.py:36-49 | a code not admitted for six hours is refused if and only if the commit fails now, or the copy holds the recent mark of a failed commit |
| Telemetry.DurableSpaced | app/collector/telemetry.py:37-39 | two admissions through the table are six hours apart, whatever failed between them |
| Telemetry.TwiceInASecond | app/collector/telemetry.py:43-53 | an admission past an unreachable table is repeated a second later, when the table is back |
| Telemetry.NeverSent | app/collector/telemetry.py:40-49 | a code that was never sent is refused by a failed commit, and for its mark afterwards |
| Telemetry.Report | app/collector/telemetry.py:97-134 | an event leaves exactly when its error persists, or need not, and the quota admits it |
| Telemetry.QuotasDiffer | app/collector/telemetry.py:131 | every code, and every critical reason of a code, has a quota of its own |
| Sessions.InventoryAgent.ReportSlot | app/collector/node_agent.py:166-188 | a session is opened exactly when the process differs from the current session's, naming it as predecessor, and a report follows only under an adopted session |
| Sessions.NoPairTwice | app/collector/node_agent.py:183-186 | no generation and sequence pair is used for two report calls, across restarts of the agent too; within a generation sequences rise from one, whatever calls fail |
| Sessions.GenerationHasOneOwner | app/collector/node_agent.py:173-186 | all reports of a generation belong to one slot |
| Sessions.SuccessorNamesPredecessor | app/collector/node_agent.py:173-182 | a session opened after an adopted one carries a fresh generation, another process, and its predecessor's generation |
| Sessions.FirstNamesTheApis | app/collector/node_agent.py:174-176 | the first session since the agent started names the generation that the API gave for its slot in the last /config |
| OrphanUpdate.Leftovers.Archive | app/collector/update_recovery.py:69-84 | it is complete exactly if no rename of the package fails; after a failure at any rename exactly those before it are done, source and archives together are the package, and the updater has left only if every other file has |
| OrphanUpdate.Leftovers.Recover | app/collector/update_recovery.py:44-88 | a pass archives if and only if the same fingerprint was stored at least 60 s before with no other one seen since, nothing runs, all files are old and exclusively held, the name is free and no rename fails; it raises if and only if the name or the files are taken; archives are never lost |
| OrphanUpdate.FingerprintsAgree | app/collector/update_recovery.py:107-116 | two sights are the same exactly when paths, sizes and times agree |
| OrphanUpdate.Leftovers.RecoverStalled | app/collector/update_recovery.py:138-171 | a running updater is terminated if and only if the same process over the same files was stored at least 600 s before with nothing else seen since, no terminal and no window show, a second look agrees, and the process can be stopped; its package is kept whole |
| OrphanUpdate.Leftovers.ObserveBlocked | app/collector/update_recovery.py:91-104 | what blocks the launch unchanged is raised exactly from 600 s after its first sight |
| OrphanUpdate.Leftovers.LaunchBlocked | app/collector/server_preparation.py:36-45 | a launch is allowed if and only if the updater is absent or this pass archives the whole package; what blocks it unchanged for 600 s is raised for attention exactly when the pass itself came to nothing |
| OrphanUpdate.Leftovers.LaunchBlockedByProcess | app/collector/server_preparation.py:26-35 | with an updater running, a launch is allowed if and only if this pass stops it and archives its package; a visible updater unchanged for 600 s is raised for attention, and nothing else is |
| ClockObservation.Compare | app/collector/clock_observation.py:31-53 | an offset is reported if and only if the clocks are stable, at least two symbols qualify and all qualifying ones fit it; each other verdict is exact too |
| ClockObservation.RoundingFindsOffset | app/collector/clock_observation.py:41-46 | any nearest rounding finds a qualifying offset: ties never qualify |
| ClockObservation.OffsetIsUnique | app/collector/clock_observation.py:41-47 | two samples of a symbol admit at most one multiple of 15 minutes |
| Journal.LinesArePrefix | app/collector/gateway.py:64-69 | the lines of a truncated log are a prefix of the lines of the longer one |
| Journal.LinesAreTheText | app/collector/gateway.py:64-69 | the lines are those that a line feed ends, in order and without their trailing carriage returns; the rest is left out |
| Journal.Judge | app/collector/gateway.py:96-118 | one pass with flags and early return computes a verdict of the set of lines, refusal first |
| Journal.JudgedBySet | app/collector/gateway.py:98-111 | order and repetition of lines do not matter |
| Journal.JudgedUnderAppend | app/collector/gateway.py:95-118 | appending to the log keeps a refusal, and keeps transport evidence unless a refusal appears |
| Journal.LoginFailure | app/collector/gateway.py:78-122 | the first deciding look settles the code; without one in time the connection failed |

## Left out

- Win32 windows, dialogs, menus and captions, process enumeration, mutex names: foreign effects; what remains is the process identity, the mutex and a nondeterministic UI result.
- Native login and the symbol clocks of `collect`: login only aborts a collection, and the clocks are `ClockObservation`.
- Sessions.NoPairTwice: the HTTP client repeats the payload of one call up to three times; those repetitions are one call here.
- `scripts/report_mt5_inventory.py`: a manual report from another process, without the slot mutex.
- HTTP transport and retries, JSON, subprocess pipes, heartbeats and the child watchdog: calls that may fail, and a child that ends at some time.
- Lease deadlines and the 180 s clock in the slot fence: a lease may expire at any step, which covers every deadline.
- The worker, watchdog and installer code in the slot fence is modelled on values, one step at a time, because its properties are about interleavings; local exceptions appear as a release at any point.
- `ServerPreparation.once` and the builder terminal: the same fence and install steps with a different source of catalogue bytes.
- CatalogueInstall.Slots.Install: whether the stop and the restart work is an answer of the environment; their fencing is a part of `SlotFence`.
- Collection.Collect: cursors inside the calendar are exact milliseconds; `datetime.fromtimestamp` on a float loses them only for seconds beyond 2^33.
- Journal.LinesArePrefix: one log file, in whole 16-bit units; a file with an odd number of bytes yields no line at all in the code.
- CapacityModel.Simulate: times are exact reals; the rounding of the reported figures is not modelled.
- Telemetry.Quota.Reserve: one process uses the table; several would share it, each with a copy of its own.
- Telemetry event sanitising, diagnostics tables, broker directory, configuration parsing: only easy members.
- The legacy FastAPI, Redis and RQ server and the PowerShell scripts: thin plumbing being replaced.
- Liveness of scheduler and recovery: it depends on the API and Windows making progress.
