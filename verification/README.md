# SilenceWatch: verified model

SilenceWatch watches scheduled jobs through their silence: a job sends heartbeats, and a check whose next heartbeat does
not come within its deadline and grace goes DOWN, opens an incident and alerts people. This project models the parts of
the server and of the Python client where that promise is decided, and proves what they keep. `dafny verify
dfyconfig.toml` checks everything.

## How it is laid out

**The alerting protocol.** `AlertTables` has the rows that the writers share and every SQL statement as a function from
the table before to the table after. `AlertMachine` runs any number of instances over them: a step is one statement, one
message sent, one edit by a person, or time passing; a statement may read any earlier snapshot, while what it locks, or
what a unique index guards, is read in the present. A crash is a worker that never acts again. `LeaseSafety`
counts how often one alert can be sent and `LeaseReach` what a run can still come to; `AlertSafety` has the invariants
of every reachable state, `RecoveryReach` who can hear of a recovery, `NoFalseAlarm` the runs of a healthy check,
`PingHistory` and `IncidentHistory` where the columns of a check and the times in the tables come from.
`Database` is the same statements as methods for one undisturbed instance; `Detection` and `NotificationQueue` are the
two loops over it, and `TickRuns` and `PassRuns` show that these are runs of the machine. `DetectionLaws` has the single
statements of detection, `Convergence` whole ticks in a row, `Lateness` what becomes of an overdue check;
`CeilingLaws` the passes of one delivery worker, `CeilingOverlap` those of several, `QueueFairness` who waits.

**Plans.** `CheckSyncLaws`, `Declarations` and `CheckSync` are the declaration endpoint of the client libraries,
`PlanCeiling` the ceiling under concurrent requests, `ChecksService` the edits people make, `QuotaLaws` and `QuotaEnforcer` the
reconciler, `WatchHistory` one check under all of these, and `StripeEvents`, `StripeWire`, `BillingLaws` and
`BillingRepository` the subscription events.

**Structures in memory.** `RateLimiter` against the unbounded `FixedWindow`, `MetadataCache` (both over `OrderedMap`, a
JavaScript `Map` with its insertion order), `IntervalRunner`, and the Python client's `HeartbeatSender`.

**Data at rest and text.** `ChannelConfigVault`, `ResealLaws` and `ChannelConfigResealer`; `CronCompact`, the client's
writer of cron fields, against `CronFields`, the server's validator, with its language in
`CronGrammar`; `Network` and `NetworkLaws`, the buckets of a sign-up. `Text` and `Prelude` are shared vocabulary.

Where the original changes things step by step, the model is a class with the same fields, or a method with the same
loop, proved against a function; the laws are about that function.

## What the code does not keep

Things that its comments or documentation say, or that one would expect, and that do not hold of the code as it is. Each
comes with inputs that show it, and with the exact condition under which it does hold.

- Two instances can send one alert twice: before more time passes, exactly when two claims are pledged to it; ever,
  exactly unless it is settled (`DoubleNowWhen`, `DoubleWhen`). How often is budgeted, and the budget can be spent
  (`SendsAreBudgeted`, `BudgetIsReached`).
- A recovery can reach a channel that was never told of the outage, except when nobody was told or every listening
  channel was (`RecoveryReachesOnlyTheToldWhen`, `RecoveryCanReachTheUntold`).
- Workers that count before any of them marks can exceed the hourly ceiling of a channel, unless their shares fit
  together (`OverlapKeepsCeilingWhen`, `TwoWorkersExceed`).
- Syncs that outlive the transaction holding their lock exceed the plan's ceiling by what they write, under every limit
  but 0 (`TimeOutsAreHarmlessWhen`, `LateSyncsBreakTheCeiling`).
- A check paused on purpose is started by the reconciler after a plan went down and up again, if enough counted checks
  are before it and it fits the higher plan (`TwoPassesStartPausedByHandWhen`).
- A check resumed by hand after a quota pause is watched without being counted, so that the plan bounds what is watched
  exactly while nobody does so (`PlanBoundsTheWatchedWhen`, `ResumedByHandIsNotCounted`).
- A check that a plan paused and gives back has no deadline and is watched by nobody until it gets one
  (`UnwatchedWhen`, `GivenBackUnwatched`).
- The reconciler does not always leave the oldest checks running (`PassLeavesTheOldestWhen`, `OutOfOrderStays`).
- The plan after a set of Stripe events can depend on the order they arrive in (`PlanIsOrderIndependentWhen`,
  `UnsettledInSomeOrder`).
- An edit can be hidden from the ingestion cache for a whole time to live, exactly when a lookup that began before it
  is in flight at the invalidation (`EditIsLostWhen`).
- `jul` is refused as the name of a month (`JulyIsRefused`), every other name is accepted (`NameIsAcceptedWhen`).
- A limit of n per window allows 2n - 1 in the span of one (`LessThanTwiceTheLimit`, `TheBoundIsReached`).

## Assumptions

- Instants are integers in milliseconds, from one clock that the server and the database share and that does not go
  back. Integers are unbounded; the widths of the columns play no part in what is proved.
- A SQL statement is one atomic step. Rows that another worker has locked are skipped, as `FOR UPDATE SKIP LOCKED` does.
- Every project has one owner, who stays its owner, and a plan's limits do not change while a request runs.
- AES-256-GCM is ideal authenticated encryption. Two different keys may share the eight characters of their key id.
- The cron library is a parameter that either refuses an expression or names an instant.
- An environment is never the empty string, which the request schema sees to.

## Model

| member | source | states |
|---|---|---|
| `LeaseSafety.SendsAreBudgeted` | packages/server/src/notifications/notification-queue.service.ts:39-54 | In every run of any number of instances, with late writes and crashes anywhere, one delivery is sent successfully at most once more than the number of its claims whose outcome was not recorded before the 5-minute lease ended. |
| `LeaseSafety.ClaimsAreBudgeted` | packages/server/src/notifications/notification-queue.service.ts:97-102 | One delivery is claimed at most `maxAttempts` times plus once per abandoned claim: only RETRY_SQL compares `attempts` with the maximum, so a claim that ends without it buys another. |
| `LeaseSafety.PunctualWorkersNeverDouble` | packages/server/src/notifications/notification-queue.service.ts:230-298 | With no abandoned claim, a delivery is held by at most one worker, sent at most once, and never sent while another worker holds it, although the three outcome statements do not look at the status the row has. |
| `LeaseReach.LaterSendsAreBudgeted` | packages/server/src/notifications/notification-queue.service.ts:39-54 | From any state of any run on, sends stay within what that state still pledges, plus the claims abandoned since: each further send is paid for with a further abandoned claim. |
| `LeaseReach.LateWorkerSendsAgain` | README.md:225-226 | "Running two instances never doubles an alert" fails after every run that leaves an alert up for another claim while an earlier claim may still send it: the run goes on, with no time passing, to two sends. |
| `LeaseReach.DoubleNowWhen` | README.md:225-226 | After any run, an alert can be sent a second time before more time passes exactly when the claims that sent it or still could, and the one that could be made at once, are two or more. |
| `LeaseReach.DoubleWhen` | packages/server/src/notifications/notification-queue.service.ts:71-117 | After any run, an alert can ever come to be sent twice exactly unless it is out of the queue, at most one claim sent it or could, and no open claim could put it back. |
| `LeaseReach.BudgetIsSpent` | packages/server/src/notifications/notification-queue.service.ts:39-54 | From every run that leaves an alert up for its first claim, and for every n, a run that abandons n claims of it and sends it n + 1 times. |
| `LeaseReach.BudgetIsReached` | packages/server/src/notifications/notification-queue.service.ts:39-54 | So the bound is met for every n, in runs that start from nothing. |
| `LeaseSafety.StepKeepsLeases` | packages/server/src/notifications/notification-queue.service.ts:71-117 | The budget is kept by every single step: claim, send, retry, refuse, mark, time passing, and everything the other writers do. |
| `LeaseSafety.RetriedRowWaits` | packages/server/src/notifications/notification-queue.service.ts:97-102 | A recorded failure puts the row up for another claim exactly from its backoff on, and never after the last attempt; no other row changes. |
| `IncidentHistory.ClaimHidesForFiveMinutes` | packages/server/src/notifications/notification-queue.service.ts:71-95 | In every run a claim hides its alert, and counts as an attempt: unless it is claimed again or a failure of it is recorded, it is up again, if still pending, from exactly 300,000 milliseconds later on. |
| `PassRuns.PassIsARun` | packages/server/src/notifications/notification-queue.service.ts:230-298 | The delivery loop is one of the workers of the protocol: from any state of any run, a pass with whatever outcomes, some of them not recorded, is more of the run and leaves the alerts as the pass does, so that everything proved of runs holds of it. |
| `LeaseSafety.BackoffDoubles` | packages/server/src/notifications/notification-queue.service.ts:97-102 | Half a minute after the first failure, then twice as long each time, up to an hour. |
| `AlertSafety.NothingIsDoubled` | packages/server/prisma/migrations/20260730120000_init/migration.sql:302-304 | In every reachable state of many instances acting on stale snapshots, interleaved with pings and edits: at most one open incident per check and at most one delivery per (incident, channel, kind). |
| `AlertSafety.ResolvedStaysResolved` | packages/server/src/detection/detection.service.ts:87-101 | A resolved incident stays resolved, at the instant it was resolved. |
| `AlertSafety.RecoveriesFollowAnnouncements` | packages/server/src/notifications/notification-queue.service.ts:22-37 | Every `up` delivery that a run queues belongs to an incident that was resolved, and of which a `down` delivery had been marked sent, before the statement that queued it. |
| `AlertSafety.EveryChannelIsQueued` | packages/server/src/notifications/notification-queue.service.ts:187-208 | Once an instance queues the alerts of an incident it opened, every enabled channel of the project, as its statement saw them, has a `down` delivery for it for ever. |
| `AlertSafety.EnqueueAddsExactly` | packages/server/src/notifications/notification-queue.service.ts:22-37 | ENQUEUE_SQL leaves every row there was, leaves a row for every (incident, channel, kind) asked for, and adds only pending rows that were asked for and were not there. |
| `AlertSafety.RecoveryReachesOnlyTheToldWhen` | README.md:229-231 | The promise "only to people who were told" is kept exactly when nobody was told of the incident or every listening channel was: the statement asks per incident, not per channel. |
| `AlertSafety.EnqueueCounts` | packages/server/src/notifications/notification-queue.service.ts:187-208 | The table grows by the rows asked for that were not there, each counted once. |
| `RecoveryReach.ListeningChannelHears` | packages/server/src/notifications/notification-queue.service.ts:22-37 | After any run, a channel that listens gets the recovery of a resolved incident that anybody was told of, told itself or not. |
| `RecoveryReach.RecoveryCanReachTheUntold` | packages/server/src/notifications/notification-queue.service.ts:30-35 | A run of the machine in which one channel is sent the alert, the other one is refused, the check comes back, and both are queued the recovery. |
| `AlertSafety.StepKeepsAlerts` | packages/server/src/detection/detection.service.ts:58-101 | Each statement keeps the protocol invariant even when its snapshot is any earlier state of the run. |
| `IncidentHistory.IncidentTimesAreTrue` | packages/server/src/detection/detection.service.ts:58-101 | Every incident of every run started at the instant of a statement that found its check DOWN, and if it has ended it ended at that of a later one that found the check UP or PAUSED. |
| `IncidentHistory.SentAtIsTrue` | packages/server/src/notifications/notification-queue.service.ts:89-95 | An alert with a time of sending was marked sent at that time, a worker having sent it before. |
| `PingHistory.LatestEndIsInTheRow` | packages/server/src/ingest/ingest.service.ts:40-52 | In every run, while a check is neither edited nor paused, `last_ping_at` and the deadline are those of its latest success or failure, and a failure keeps it DOWN until the next one. |
| `PingHistory.LatestStartIsInTheRow` | packages/server/src/ingest/ingest.service.ts:40-52 | And `last_started_at` is that of the latest heartbeat if that is a `start`, and null once the run has ended. |
| `PingHistory.PausedTakesNone` | packages/server/src/ingest/ingest.service.ts:15-25 | No heartbeat changes anything of a paused check. |
| `NoFalseAlarm.NeverDown` | packages/server/src/ingest/ingest.service.ts:40-52 | A check on an interval whose success pings each arrive less than period + grace after the previous one is never DOWN and never gets an incident, wherever detection statements, `start` pings and stale snapshots fall. |
| `NoFalseAlarm.NeverLate` | packages/server/src/schedule/next-due.ts:20-27 | With success pings at most a period apart it is never even LATE. |
| `NoFalseAlarm.StepStaysQuiet` | packages/server/src/detection/detection.service.ts:27-56 | The step behind it: a statement that runs before the deadline and the grace are over cannot move the watched check past LATE, nor open an incident for it. |
| `DetectionLaws.AdvanceDescends` | packages/server/src/detection/detection.service.ts:27-56 | Every row a batch selects goes strictly down in NEW/UP, LATE, DOWN and nothing else of it changes; rows not selected are left alone. |
| `DetectionLaws.AdvanceSheds` | packages/server/src/detection/detection.service.ts:174-202 | The transitions left shrink by at least the size of the batch. |
| `DetectionLaws.BacklogIsFinite` | packages/server/src/detection/detection.service.ts:174-202 | n active checks fill at most 2n / batch full batches, whatever the instants these run at. |
| `DetectionLaws.BatchesAddUp` | packages/server/src/detection/detection.service.ts:27-56 | At one instant a batch leaves exactly the rest of the overdue checks, so draining in batches is the rule without batches. |
| `DetectionLaws.BatchesCompose` | packages/server/src/detection/detection.service.ts:174-202 | Two batches at one instant are one batch of both, in whatever way the rows were split. |
| `DetectionLaws.SpentGraceIsDown` | packages/server/src/schedule/next-due.ts:54-56 | A check whose deadline and grace are over is DOWN after the drain, from whichever state it was in. |
| `Lateness.DrainedRow` | packages/server/src/detection/detection.service.ts:27-56 | A drain that ends short, its batches at whatever rising instants, leaves every row as its columns have it at the last one: paused, DOWN, without a deadline or not past it, as it was; past it, LATE until 1000 * grace milliseconds later and DOWN from then on. |
| `Lateness.OverdueIsLate` | packages/server/src/detection/detection.service.ts:163-202 | Over whole ticks, a check that is past its deadline and within its grace is LATE, and otherwise unchanged, after ticks enough for the backlog. |
| `DetectionLaws.OpenShrinksMissing` | packages/server/src/detection/detection.service.ts:58-85 | Opening incidents closes exactly the gaps it selected and makes no incident stale. |
| `DetectionLaws.ResolveShrinksStale` | packages/server/src/detection/detection.service.ts:87-101 | Resolving removes exactly the stale incidents it selected and opens no gap. |
| `DetectionLaws.TickConverges` | packages/server/src/detection/detection.service.ts:204-219 | The statements after the drain shrink each kind of disagreement between states and incidents by min(batch, backlog). |
| `Convergence.TickReports` | packages/server/src/detection/detection.service.ts:163-219 | A whole tick, its own drain included, never loses a check that is DOWN and reported; and if one is left unreported it added a full batch of reported ones. |
| `Convergence.TickResolves` | packages/server/src/detection/detection.service.ts:163-219 | A whole tick makes no incident stale; and if one is left it resolved a full batch. |
| `Convergence.TickAgreesWhen` | packages/server/src/detection/detection.service.ts:163-219 | A tick ends in agreement exactly when neither kind of disagreement was larger, after its drain, than one batch. |
| `Convergence.AllButFewTicksAgree` | packages/server/src/detection/detection.service.ts:163-219 | Convergence: of however many ticks, whatever goes LATE and DOWN meanwhile, at most (checks + stale incidents) / batch end without states and incidents agreeing. |
| `Convergence.NothingLeftIsAgreement` | packages/server/src/detection/detection.service.ts:58-101 | No gap and no stale incident is exactly: one and only one open incident for every DOWN check, none for an UP or PAUSED one. |
| `Convergence.AgreementIsStable` | packages/server/src/detection/detection.service.ts:163-219 | In agreement, with nothing overdue, a whole tick writes nothing and queues nothing. |
| `Convergence.DownIsReported` | packages/server/src/detection/detection.service.ts:163-219 | A check that is DOWN at some tick has exactly one open incident checks / batch ticks later and for ever after, whatever else goes down meanwhile. |
| `Convergence.OutageIsReported` | packages/server/src/detection/detection.service.ts:163-219 | No missed outage: a check whose deadline and grace are spent has exactly one open incident after ticks enough to drain the overdue checks and to report those that are down, however many there are. |
| `Convergence.FailureIsReported` | packages/server/src/ingest/ingest.service.ts:40-52 | A job that says it failed has exactly one open incident after checks / batch ticks, deadline or not. |
| `Convergence.SuccessEndsTheOutage` | packages/server/src/ingest/ingest.service.ts:40-52 | A success heartbeat leaves no open incident of its check, once ticks before its next deadline were enough for the stale incidents. |
| `Convergence.RecoveriesAreReported` | packages/server/src/detection/detection.service.ts:87-101 | After stale / batch ticks no check that is then UP or PAUSED has an open incident. |
| `NoFalseAlarm.UnwatchedUntilWritten` | packages/server/src/quotas/quota-enforcer.service.ts:174-201 | In every run, a check without a deadline, which is how a quota pause and resume leave it, keeps its state and its missing deadline until a heartbeat that ends a run of the job, or an edit, reaches it. |
| `Database.Tables.Advance` | packages/server/src/detection/detection.service.ts:27-56 | The statement on the table: at most `limit` due rows, the earliest deadlines first, all of them if they fit; the rows returned are those that changed, with both states. |
| `Database.Earliest` | packages/server/src/detection/detection.service.ts:27-56 | `ORDER BY next_due_at LIMIT n`: distinct rows, none of them due later than one left behind. |
| `Database.Tables.Enqueue` | packages/server/src/notifications/notification-queue.service.ts:187-208 | Afterwards every row of the fan-out is there, every row that was is as it was, and nothing else was added; `queued` is how many of the fan-out were not there. |
| `Detection.DetectionService.AdvanceOverdueChecks` | packages/server/src/detection/detection.service.ts:174-202 | Batch after batch at whatever instants, until one is short or there were 25: the table ends as those batches leave it, and the two counters grow by the rows that went LATE and DOWN in them. |
| `Detection.ShortDrainIsTheRule` | packages/server/src/detection/detection.service.ts:174-202 | A drain at one instant that ends in a short batch is the rule applied to every overdue check at once, whatever the size of a batch and whatever each one picked. |
| `Detection.WentsAreTransitions` | packages/server/src/detection/detection.service.ts:184-193 | `wentDown` grows by exactly the checks that are DOWN afterwards and were not, and both counters together by no more transitions than there were to make. |
| `Detection.DetectionService.Tick` | packages/server/src/detection/detection.service.ts:163-167 | Drain, then open, then resolve, each enqueueing what it did: the tables end as one whole tick of the laws leaves them, and `recovered` grows by the incidents resolved. |
| `TickRuns.TickIsARun` | packages/server/src/detection/detection.service.ts:163-219 | The detection loop is one of the workers of the protocol: from any state of any run a whole tick is more of the run and ends in its tables. |
| `TickRuns.AnybodyMayAct` | packages/server/src/ingest/ingest.service.ts:40-52 | So is, at any time, any edit, any set of channels, any heartbeat received by then, and any worker losing what it alone knew: the runs leave none of them out. |
| `CeilingLaws.CeilingHolds` | packages/server/src/notifications/notification-queue.service.ts:246-298 | With one worker at a time and every mark recorded, no channel has more than the ceiling of deliveries with `sent_at` in any window of 3,600,000 milliseconds, although a pass counts once and marks at its end. |
| `Database.Tables.CountSent` | packages/server/src/notifications/notification-queue.service.ts:105-111 | What a pass counts for a channel is exactly its rows marked sent less than 3,600,000 milliseconds ago. |
| `CeilingLaws.PassKeepsCeiling` | packages/server/src/notifications/notification-queue.service.ts:246-298 | One pass keeps every window of every channel within the ceiling, whatever was queued before it and whenever it marks. |
| `CeilingOverlap.OverlapKeepsCeilingWhen` | packages/server/src/notifications/notification-queue.service.ts:105-111 | Any number of workers that all count before any of them marks keep the ceiling, whatever the providers accept, exactly when on every channel the hour that ends at each mark has room for the shares of all the passes that mark in it. |
| `CeilingOverlap.TwoKeepCeilingWhen` | packages/server/src/notifications/notification-queue.service.ts:105-111 | Two workers at one instant do exactly when, on every channel, their shares fit together in the room each believes it has. |
| `CeilingOverlap.TwoWorkersExceed` | packages/server/src/notifications/notification-queue.service.ts:105-111 | Wherever one more delivery would reach the ceiling and two alerts are up on the channel, two workers that take one each exceed it, each within it by its own count. |
| `CeilingOverlap.MostIsReached` | packages/server/src/notifications/notification-queue.service.ts:255-290 | If every provider accepts, overlapping passes deliver to each channel in each hour exactly the sum of their shares. |
| `CeilingOverlap.WorkersShareTheExcess` | packages/server/src/notifications/notification-queue.service.ts:105-111 | However they overlap, w workers deliver at most w times the ceiling to a channel in an hour. |
| `QueueFairness.NoAlertStarves` | packages/server/src/notifications/notification-queue.service.ts:71-95 | An alert that is up is claimed within n passes once n batches hold more than what is up no later, whatever is queued, fails or is refused meanwhile. |
| `QueueFairness.AheadShrinks` | packages/server/src/notifications/notification-queue.service.ts:71-102 | A pass that does not take it takes a full batch of those ahead of it, and none of them comes back before it. |
| `NotificationQueue.NotificationQueueService.Drain` | packages/server/src/notifications/notification-queue.service.ts:230-298 | The pass over a claimed batch, earliest first: refusals only on a channel whose deliveries of the last 3,600,000 milliseconds and of this pass reach the ceiling, deliveries only what the provider took, failures rescheduled or given up, marks at the end; the table and the two counters end as that says. |
| `NotificationQueue.NotificationQueueService.One` | packages/server/src/notifications/notification-queue.service.ts:255-290 | One row of it: exactly one of refused, delivered or failing, with the running total of its channel. |
| `IntervalRunner.IntervalRunner.Run` | packages/server/src/common/interval-runner.ts:58-71 | Starts a tick or joins the one in flight: calls = starts + joined, and a second tick never starts before the first is over. |
| `IntervalRunner.IntervalRunner.Complete` | packages/server/src/common/interval-runner.ts:78-95 | A tick that fails is counted and the loop goes on: starts = ticks + failures + in flight, and the spans of the ticks follow one another without overlap. |
| `PlanCeiling.CeilingHolds` | packages/server/src/quotas/quota.service.ts:81-134 | With a fixed limit, any interleaving of creations, syncs that write on another connection while the lock is held, aborts and deletions keeps an owner's checks within max(limit, what there was at the start), when no sync outlives its transaction. |
| `PlanCeiling.CeilingIsReached` | packages/server/src/checks/checks.service.ts:31-68 | And it is no lower: from any start below the limit, creations one after the other reach exactly the limit. |
| `PlanCeiling.CreationIsRefused` | packages/server/src/quotas/quota.service.ts:101-115 | At the ceiling a creation is refused, its transaction aborts, and nothing has changed. |
| `PlanCeiling.OnlyLateWritesExceed` | packages/server/src/quotas/quota.service.ts:81-134 | And when some do: within that bound besides the checks they wrote late. |
| `PlanCeiling.StepIsBounded` | packages/server/src/checks/checks.service.ts:31-68 | The step behind it: but for late writes, what was counted under the lock can only have shrunk when it is written against. |
| `PlanCeiling.UpsertFits` | packages/server/src/checks/check-sync.service.ts:103-113 | A sync adds to what was counted no more than there was room for, even when checks it takes for existing were deleted meanwhile and come back with it, or were written late. |
| `PlanCeiling.LateSyncsBreakTheCeiling` | packages/server/src/quotas/quota.service.ts:89-95 | For every limit and start with room: any syncs that each fit by themselves time out, another one uses up the room, and all of them still write, on connections the time-out does not reach: the bound is met. |
| `PlanCeiling.TimeOutsAreHarmlessWhen` | packages/server/src/quotas/quota.service.ts:89-95 | From any start, the ceiling holds in all runs with time-outs exactly under a limit of 0. |
| `CheckSyncLaws.SkippedIsTheTail` | packages/server/src/checks/check-sync.service.ts:146-169 | A key is held back exactly when it is new and as many new keys as there is room for come before it in payload order. |
| `CheckSyncLaws.RoomIsUsedUp` | packages/server/src/checks/check-sync.service.ts:146-169 | What is created is the smaller of the room and the new keys: no more, and no room is left while a key is held back. |
| `CheckSyncLaws.DeclaredAreWritten` | packages/server/src/checks/check-sync.repository.ts:18-63 | After a sync every declared check that existed is updated, every new one is created exactly while there is room, each from the row as it was; the deadline moves only with the schedule. |
| `CheckSyncLaws.UndeclaredAreFlagged` | packages/server/src/checks/check-sync.repository.ts:65-76 | Outside the whole payload, held back keys included in it, exactly the declared, not yet orphaned checks of that project and environment are flagged, and nothing else changes. |
| `CheckSyncLaws.OrphansAreReported` | packages/server/src/checks/check-sync.repository.ts:65-76 | The orphans of the response are exactly those. |
| `CheckSyncLaws.TheResponseIsRight` | packages/server/src/checks/check-sync.service.ts:115-134 | `created` and `skipped` say of each declared check what happened to it in the table. |
| `CheckSyncLaws.SyncIsIdempotent` | packages/server/src/checks/check-sync.service.ts:47-134 | Repeating a payload, read at whatever later time, leaves the same table, creates nothing, flags nothing, moves no deadline and holds back the same keys in the same order. |
| `CheckSyncLaws.HeldBackAgain` | packages/server/src/checks/check-sync.service.ts:146-169 | What is new the second time is what was held back the first time. |
| `CheckSyncLaws.SyncKeepsCeiling` | packages/server/src/checks/check-sync.service.ts:103-113 | One sync leaves the owner within max(limit, before), and at the limit when it held something back. |
| `CheckSyncLaws.ReadTwice` | packages/server/src/checks/check-sync.service.ts:52-101 | The same declarations read at two times are the same rows but for the deadlines, with distinct keys. |
| `CheckSync.CheckSyncService.ReadRows` | packages/server/src/checks/check-sync.service.ts:52-101 | The loop over the payload: every declared check becomes a row, or the first one at fault, a key met before or a schedule that cannot be evaluated, refuses the whole payload. |
| `CheckSync.CheckSyncRepository.Upsert` | packages/server/src/checks/check-sync.repository.ts:124-148 | The upsert row by row, then the flagging: the table, the lines returned and the orphans are those of the two statements. |
| `CheckSync.CheckSyncService.Sync` | packages/server/src/checks/check-sync.service.ts:47-134 | A payload at fault changes nothing; otherwise every declared check in the table is as declared, everything else as it was or flagged, and the response says so. |
| `Declarations.SyncedAsDeclared` | packages/server/src/checks/check-sync.repository.ts:18-63 | Field by field: name, schedule, grace (300 by default), tags and zone (UTC) as declared, and not orphaned; a new check is NEW, marked as declared and due a period from now or when the cron library says; one that was there keeps its state, and its deadline exactly if the schedule is the one it had. |
| `Declarations.SyncedAsUndeclared` | packages/server/src/checks/check-sync.repository.ts:65-76 | What is not declared keeps every field but the flag, and no check disappears. |
| `Declarations.RefusedWhen` | packages/server/src/checks/check-sync.service.ts:52-101 | A payload is refused exactly when it declares a key twice, or no usable schedule: no positive interval, an empty expression, or one the cron library refuses; and for the first such declaration, its key before its schedule. |
| `QuotaLaws.PassMeetsThePlan` | packages/server/src/quotas/quota-enforcer.service.ts:73-101 | One pass leaves exactly min(limit, total) checks not quota-paused, and all of them without a ceiling. |
| `QuotaLaws.PassMeetsItsPlan` | packages/server/src/quotas/quota.service.ts:46-57 | By name: with no plan, one that nobody configured, or one without a ceiling, a pass leaves nothing quota-paused; with a configured ceiling n exactly min(n, total) are not. A row is left alone, stopped without a deadline, or given back as NEW. |
| `QuotaLaws.SecondPassChangesNothing` | packages/server/src/quotas/quota-enforcer.service.ts:65-114 | A second pass changes nothing. |
| `QuotaLaws.PassKeepsTheOldest` | packages/server/src/quotas/quota-enforcer.service.ts:157-205 | From a state where every active check is older than every quota-paused one, a pass is the rule "keep the oldest min(limit, total)", row by row, and leads to such a state. |
| `QuotaLaws.RoomForAllRestoresTheOldest` | packages/server/src/quotas/quota-enforcer.service.ts:181-205 | When the total fits the limit a pass restores that order from any state. |
| `QuotaLaws.PassLeavesTheOldestWhen` | packages/server/src/quotas/quota-enforcer.service.ts:73-101 | After a pass the oldest run exactly when everything fits, or none of the oldest `limit` was quota-paused where it pauses, or none past them active where it resumes. |
| `QuotaLaws.OutOfOrderStays` | packages/server/src/quotas/quota-enforcer.service.ts:157-178 | Otherwise not: two checks of which the older stays paused for ever. |
| `QuotaLaws.OnePassStartsNothingPausedByHand` | packages/server/src/quotas/quota-enforcer.service.ts:181-205 | A single pass never starts a check that people paused. |
| `QuotaLaws.TwoPassesStartPausedByHandWhen` | packages/server/src/quotas/quota-enforcer.service.ts:159-163 | Two passes can, against "a check somebody paused on purpose stays paused": from any state, lowering the plan takes over the pause of, and raising it starts, exactly the checks with at least the lower limit of counted ones before them that fit the higher one. |
| `QuotaLaws.PlanBoundsTheWatched` | packages/server/src/quotas/quota-enforcer.service.ts:157-205 | While nobody resumes a quota-paused check by hand, a pass leaves at most `limit` checks watched. |
| `QuotaLaws.PlanBoundsTheWatchedWhen` | packages/server/src/quotas/quota-enforcer.service.ts:157-205 | Whatever the limit, a pass leaves at most that many checks watched exactly while every quota-paused check is paused. |
| `QuotaLaws.ResumedByHandIsNotCounted` | packages/server/src/checks/checks.service.ts:90-99 | A check resumed by hand keeps its reason: it is watched, not counted, and no pass stops it. |
| `QuotaEnforcer.QuotaEnforcerService.OwnersWithChecks` | packages/server/src/quotas/quota-enforcer.service.ts:124-154 | One row for every account that owns a check, with what runs and what quota paused. |
| `QuotaEnforcer.QuotaEnforcerService.Reconcile` | packages/server/src/quotas/quota-enforcer.service.ts:65-114 | The loop over the owners, on counts read once: every account ends where its plan, by name, puts it, the totals are the checks stopped and given back and the accounts touched, and nothing happens with quotas off. |
| `QuotaEnforcer.QuotaEnforcerService.ReconcileOwner` | packages/server/src/quotas/quota-enforcer.service.ts:73-101 | One owner's turn: the account ends where its plan puts it, and the answer is how many checks were stopped and given back. |
| `QuotaEnforcer.PassingTwice` | packages/server/src/quotas/quota-enforcer.service.ts:65-114 | Two undisturbed passes over all accounts are one. |
| `ChecksService.ChecksService.Update` | packages/server/src/checks/checks.service.ts:70-104 | What was asked for is as asked and the rest as it was, field by field; a missing check or a schedule that cannot be evaluated writes nothing and drops nothing from the cache. |
| `WatchHistory.DeadlineIsOfTheLatest` | packages/server/src/checks/checks.service.ts:80-99 | Over any history of a check, its deadline is that of the latest event that wrote one: what the heartbeat brought, a period after the edit or when the cron library says, what was declared with another schedule, none after a quota pause. |
| `WatchHistory.ScheduleIsOfTheLatest` | packages/server/src/checks/checks.service.ts:80-88 | And its schedule that of the latest accepted edit or declaration that gave one. |
| `WatchHistory.UnwatchedWhen` | packages/server/src/checks/checks.service.ts:80-99 | Over any history of edits, heartbeats, detection, quota passes and declarations, a check runs without a deadline, watched by nobody, exactly when a quota resume or a heartbeat with an unusable schedule took it away and nothing since gave it one or paused it. |
| `WatchHistory.GivenBackUnwatched` | packages/server/src/quotas/quota-enforcer.service.ts:174-201 | Every check that a plan paused and gives back is unwatched, unless it got a deadline in between, until it gets one or is paused again. |
| `StripeEvents.GrantedWhen` | packages/server/src/billing/stripe-events.ts:111-120 | A plan is granted exactly by a live subscription at one of its prices, and by the first plan listed at that price. |
| `StripeWire.ReadingGivesBack` | packages/server/src/billing/stripe-events.ts:63-97 | However Stripe writes an event, references bare or expanded, the end of the period on the subscription or its first item, other properties among them, reading it gives back what it says; it is of no use exactly if it is about something else or names no customer or no subscription. |
| `StripeWire.StatusDecides` | packages/server/src/billing/stripe-events.ts:111-120 | By status: four end the plan, three grant the first plan at the price or say that it is unknown, every other decides nothing. |
| `StripeEvents.DeletedMeansEnded` | packages/server/src/billing/stripe-events.ts:72-76 | A deleted subscription ends, whatever status its event carries. |
| `StripeEvents.BareOrExpanded` | packages/server/src/billing/stripe-events.ts:52-54 | An object sent bare or expanded is read the same. |
| `BillingLaws.RepeatsAreHarmless` | packages/server/src/billing/billing.repository.ts:59-70 | Any sequence of deliveries with repeats does exactly what its duplicate-free form does. |
| `BillingLaws.AgainIsNothing` | packages/server/src/billing/billing.repository.ts:66-70 | Of an event delivered before, nothing is left to do: it is answered as a duplicate and the state stays. |
| `BillingLaws.TimeNeverGoesBack` | packages/server/src/billing/billing.repository.ts:75-76 | No history of deliveries moves `lastEventAt` back, or takes a customer's row away. |
| `BillingLaws.LiveIsNotReplaced` | packages/server/src/billing/billing.repository.ts:78-86 | A live subscription is replaced by another only after an event made it not live. |
| `BillingLaws.EndedNeverGrants` | packages/server/src/billing/billing.repository.ts:99-109 | In every history an ended status implies a null subscription plan. |
| `BillingLaws.DeletionTakesThePlanAway` | packages/server/src/billing/stripe-events.ts:63-120 | Reading and applying a deletion leaves no paid plan and the account on the default one. |
| `BillingLaws.NewestWins` | packages/server/src/billing/billing.repository.ts:104-114 | For one subscription with distinct times, whatever the order, the row ends with what the newest event says. |
| `BillingLaws.OrderDoesNotMatter` | packages/server/src/billing/billing.repository.ts:59-128 | Any two orders of the same events leave the same status, period, flag and time. |
| `BillingLaws.NewestDecides` | packages/server/src/billing/billing.repository.ts:94-102 | When the newest event grants or ends, both plans are what it says, in every order. |
| `BillingLaws.PlanIsOrderIndependentWhen` | packages/server/src/billing/billing.repository.ts:94-117 | The plans are the same in every order exactly when the newest event grants or ends, or no event that is new says anything else than what the plans already are. |
| `BillingLaws.UnsettledInSomeOrder` | packages/server/src/billing/billing.repository.ts:75-102 | Otherwise two orders that leave different plans: the newest event first, or second. |
| `BillingRepository.BillingRepository.Apply` | packages/server/src/billing/billing.repository.ts:59-128 | The transaction branch by branch: the rows and the outcome are those of the specification the laws are about. |
| `BillingRepository.BillingRepository.Deliver` | packages/server/src/billing/billing.repository.ts:59-128 | A whole sequence of deliveries leaves what its duplicate-free form leaves. |
| `FixedWindow.SpentIsRefused` | packages/server/src/common/rate-limiter.ts:48-51 | `exceeded` holds exactly when the next `hit` is refused, and a refused hit leaves the window as it is. |
| `FixedWindow.DelayIsEnough` | packages/server/src/common/rate-limiter.ts:23-40 | A hit after the returned delay is allowed, and a whole second less is not enough unless the delay is one second. |
| `FixedWindow.LessThanTwiceTheLimit` | packages/server/src/common/rate-limiter.ts:23-40 | In any span of one window length a key gets at most 2 * max(1, limit) - 1 allowed hits. |
| `FixedWindow.TheBoundIsReached` | packages/server/src/common/rate-limiter.ts:23-40 | For every limit and every window of two milliseconds or more, hits that get exactly that many. |
| `FixedWindow.AgreeingWindowsAnswerAlike` | packages/server/src/common/rate-limiter.ts:63-66 | A window dropped after it expired is as good as kept. |
| `RateLimiter.EvictedHasRoom` | packages/server/src/common/rate-limiter.ts:63-76 | Eviction always makes room. |
| `RateLimiter.EvictionIsExact` | packages/server/src/common/rate-limiter.ts:63-76 | A full limiter loses exactly the expired windows, or if there are none the ones created first until nine tenths of its bound, rounded down, are left; the rest stays in its order. |
| `RateLimiter.HitKeepsBound` | packages/server/src/common/rate-limiter.ts:23-40 | The number of windows never exceeds `maxKeys`. |
| `RateLimiter.HitAgrees` | packages/server/src/common/rate-limiter.ts:23-76 | After a hit every key that was not force-evicted has the window of the unbounded limiter, or neither has an open one. |
| `RateLimiter.RateLimiter.Hit` | packages/server/src/common/rate-limiter.ts:23-40 | The bounded limiter refines the unbounded one: same delay for every key that did not lose an open window; the map afterwards, its order included, and the keys that lost one are stated exactly. |
| `RateLimiter.SpansAreBounded` | packages/server/src/common/rate-limiter.ts:23-76 | In any run of hits on any keys, a key that loses no open window is allowed at most 2 * max(1, limit) - 1 hits in any span of one window length. |
| `RateLimiter.AllowedAsIdeal` | packages/server/src/common/rate-limiter.ts:23-76 | And exactly what the unbounded limiter allows it. |
| `RateLimiter.FewKeysLoseNothing` | packages/server/src/common/rate-limiter.ts:63-76 | No key loses a window while no more than `maxKeys` keys ever call. |
| `RateLimiter.RateLimiter.Exceeded` | packages/server/src/common/rate-limiter.ts:48-51 | True exactly when the next hit would be refused. |
| `RateLimiter.RateLimiter.Evict` | packages/server/src/common/rate-limiter.ts:63-76 | The two loops drop the expired windows and, if that frees nothing, those created first. |
| `MetadataCache.CheckMetadataCache.Get` | packages/server/src/ingest/check-metadata.cache.ts:67-82 | Every cached answer was the row at an instant between its lookup's start and its store, was stored less than 300 s ago (5 s if absent), and is not from before an invalidation that found no lookup in flight; a lookup starts only if none of that key is running. |
| `MetadataCache.CheckMetadataCache.Finish` | packages/server/src/ingest/check-metadata.cache.ts:103-132 | Storing an answer is the landing of a lookup in the machine of the laws: bound, expiry and order of the entries included. |
| `MetadataCache.CheckMetadataCache.Invalidate` | packages/server/src/ingest/check-metadata.cache.ts:95-97 | The entry goes, and with no lookup in flight what is answered from now on is read after this instant. |
| `MetadataCache.StoringKeepsBound` | packages/server/src/ingest/check-metadata.cache.ts:126-148 | The size never exceeds the bound, the new answer is there, and every other entry is as it was or gone. |
| `MetadataCache.EvictionIsExact` | packages/server/src/ingest/check-metadata.cache.ts:134-148 | A full cache loses exactly the expired entries, or if there are none the oldest tenth of its bound, rounded up; the rest stays in its order. |
| `MetadataCache.CachedIsRecent` | packages/server/src/ingest/check-metadata.cache.ts:67-82 | What an unexpired entry answers is recent in that sense. |
| `MetadataCache.EditIsLostWhen` | packages/server/src/ingest/check-metadata.cache.ts:67-124 | After an invalidation, some run of the cache answers with a row that has been no row since, exactly when a lookup of the key was in flight and the row had been something else since that lookup began. |
| `MetadataCache.LookupUndoesClear` | packages/server/src/ingest/check-metadata.cache.ts:95-124 | Whatever a lookup in flight read before the invalidation, it can land after it and is then served. |
| `HeartbeatSender.HeartbeatSender.Submit` | clients/python/src/silencewatch/heartbeat.py:74-87 | A job without a ping key changes nothing; otherwise the item is queued, at the cost of the oldest one, which is counted as dropped. Every method keeps: accepted = dropped + delivered + failed + unroutable + lost with the thread + queued + in flight, the queue is the newest suffix of what was accepted, at most one item is in flight. |
| `HeartbeatSender.HeartbeatSender.Deliver` | clients/python/src/silencewatch/heartbeat.py:109-125 | One outcome per item: through, failed, no longer routable, or fatal to the thread. |
| `HeartbeatSender.HeartbeatSender.Run` | clients/python/src/silencewatch/heartbeat.py:96-107 | The thread left to itself attempts everything queued, in the order it was submitted, and ends with nothing in flight. |
| `HeartbeatSender.SubmittingKeepsOrder` | clients/python/src/silencewatch/heartbeat.py:82-84 | Dropping the oldest keeps the queue the newest suffix of what was accepted. |
| `HeartbeatSender.HeartbeatSender.Idle` | clients/python/src/silencewatch/heartbeat.py:127-135 | What `flush` waits for is exactly: everything accepted was dropped or attempted. |
| `CronCompact.TextMeansTheValues` | clients/python/src/silencewatch/cron.py:36-67 | The written field stands for exactly the values it was given, read as `*`, `*/n`, numbers, spans and lists. |
| `CronCompact.RunsCover` | clients/python/src/silencewatch/cron.py:54-59 | The runs cover the values and nothing else. |
| `CronCompact.TextIsAccepted` | packages/shared/src/cron.ts:74-112 | The server's field validator accepts what was written, for every field whose bounds cover the client's. |
| `CronCompact.TheSpecsAreSane` | clients/python/src/silencewatch/integrations/celery.py:49-56 | The five fields the Celery integration writes are such fields. |
| `CronCompact.SundayTwice` | packages/shared/src/cron.ts:51-58 | In the server's day of the week, where 7 is Sunday again, the field still stands for the same days. |
| `CronCompact.Compact` | clients/python/src/silencewatch/cron.py:36-67 | The whole writer: an error exactly on no values, otherwise the text of the specification, with that meaning and acceptance. |
| `CronCompact.RunsOf` | clients/python/src/silencewatch/cron.py:54-59 | The loop that builds the runs in place. |
| `CronFields.MeaningOfList` | packages/shared/src/cron.ts:78-111 | A list stands for what its parts stand for together. |
| `CronGrammar.AcceptedWhen` | packages/shared/src/cron.ts:74-112 | Each of the six fields accepts exactly its language: lists of values, spans and stars with steps of one to three digits, the last day, the last and the first to fifth of a day where the field knows days, and `?`; but nothing of the first kind that ends in the letter L. |
| `CronGrammar.NameIsAcceptedWhen` | packages/shared/src/cron.ts:12 | Month and day names are accepted, against what the dialect says, exactly if they do not end in an L. |
| `CronGrammar.JulyIsRefused` | packages/shared/src/cron.ts:84-88 | That is every month name in any case but `jul`, which is read as the last of a day `ju`; its number is accepted. |
| `ChannelConfigVault.OpensOnlyWhereSealed` | packages/server/src/notifications/channel-config.vault.ts:48-82 | A sealed configuration opens under its key for its channel, and under no other key or for no other channel. |
| `ChannelConfigVault.RefusedWhen` | packages/server/src/notifications/channel-config.vault.ts:48-82 | Why something does not open: no vault made it, a key of another name did, or it was made for another channel or under another key of that name; what is not sealed opens as it is. |
| `ResealLaws.VisitKeepsMeaning` | packages/server/src/notifications/channel-config.resealer.ts:48-82 | A visit keeps what a row opens to, leaves it opening under the current key exactly when either key could read it, and leaves every other row as it is. |
| `ResealLaws.SecondVisitWritesNothing` | packages/server/src/notifications/channel-config.resealer.ts:48-82 | A second visit writes nothing. |
| `ResealLaws.MeaningIsKept` | packages/server/src/notifications/channel-config.resealer.ts:77-81 | Under any interleaving of resealers that read and swap at different times, with anyone else writing or removing configurations, every row opens to what was last written by others. |
| `ResealLaws.VisitReseals` | packages/server/src/notifications/channel-config.resealer.ts:48-82 | In any interleaving, an instance that read a row and comes to write it leaves it sealed under the current key exactly if anybody can read it, when nobody wrote the row in between, and otherwise leaves the table as it is. |
| `ResealLaws.ResealersAloneChangeNoMeaning` | packages/server/src/notifications/channel-config.resealer.ts:35-82 | With only resealers, every channel opens for ever to what it opened to at the start. |
| `ResealLaws.KindsAddUp` | packages/server/src/notifications/channel-config.resealer.ts:9-18 | Every row is of one of the four kinds. |
| `ResealLaws.KindSays` | packages/server/src/notifications/channel-config.resealer.ts:48-71 | Which kind: plain, opening under the current key, under the previous one only, or readable by neither. |
| `ChannelConfigResealer.ChannelConfigResealer.NextBatch` | packages/server/src/notifications/channel-config.resealer.ts:39-42 | The cursor query: the next 200 ids in order, none left out in between, and none only at the end. |
| `ChannelConfigResealer.ChannelConfigResealer.One` | packages/server/src/notifications/channel-config.resealer.ts:48-82 | One row as it was read, whatever became of it since: at most one write, the swap of the interleaving laws, and the counter of what it was found to be; a row that changed or vanished is left and not counted. |
| `ChannelConfigResealer.ChannelConfigResealer.Run` | packages/server/src/notifications/channel-config.resealer.ts:35-46 | The walk ends, visits each row once, and its counts are the rows that were plain, opened under the current key, and that nobody can read; the four sum to the rows there are. |
| `ChannelConfigResealer.SecondRunWritesNothing` | packages/server/src/notifications/channel-config.resealer.ts:20-26 | A second run writes nothing, and every row anybody could read opens under the current key. |
| `NetworkLaws.EveryFormIsRead` | packages/server/src/auth/signup/network.ts:56-72 | Every hexadecimal text form of section 2.2 of RFC 4291, whatever its `::`, case and leading zeros, expands to the eight groups of its address. |
| `NetworkLaws.OnlyFormsAreRead` | packages/server/src/auth/signup/network.ts:56-72 | And nothing else does, but for a `::` that leaves out no group. |
| `NetworkLaws.SameAddressSameGroups` | packages/server/src/auth/signup/network.ts:56-72 | Two texts expand to the same groups exactly when they denote the same address. |
| `NetworkLaws.GroupsAreCanonical` | packages/server/src/auth/signup/network.ts:71 | A group comes out as its number in lower case without leading zeros. |
| `NetworkLaws.BucketsAreGroups` | packages/server/src/auth/signup/network.ts:7-47 | Two IPv6 texts share a network exactly when their first three groups agree, and an address bucket exactly when the first four do. |
| `NetworkLaws.OneLineOneNetwork` | packages/server/src/auth/signup/network.ts:7-47 | For every two inputs, malformed ones included, equal `addressOf` implies equal `networkOf`. |
| `NetworkLaws.HatsDoNotMatter` | packages/server/src/auth/signup/network.ts:10-12 | An IPv4 address counts as itself when it is written as an IPv4-mapped IPv6 address, in any case. |
| `NetworkLaws.DottedBuckets` | packages/server/src/auth/signup/network.ts:22-24 | A text without a colon has the network of its first three numbers, and is its own line, exactly if it is four numbers up to 255 of one to three digits with dots between them; any other is unknown. |
| `NetworkLaws.UnreadIsUnknown` | packages/server/src/auth/signup/network.ts:14-17 | A text with a colon is unknown exactly if it does not expand. |

## Left out

- HTTP, authentication, Nest, Prisma and pg plumbing, LISTEN reconnection, senders, templates, email, audit, Stripe's REST calls, logging and health pages.
- The web client, the CLI, configuration schemas, and the totals of the admin pages.
- The ping table, run durations, and the cause recorded on an incident: they are written beside the rows modelled and read by nothing in the protocol.
- Deleting checks and channels during a protocol run, retention purges and the cascades of deleted projects.
- COUNT_SENT_SQL, which only feeds a counter on the incident.
- A provider that accepted a message and then raised: the model counts it as not sent, as the code does.
- What happens to a heartbeat around INGEST_SQL: its admission by the two limiters and the cache, each of which is modelled, and the clamping and truncation of what it carries.
- Slugs, and their uniqueness within a project, in the sync.
- A null owner, or quotas off, in `PlanCeiling`: the code then takes no lock and has no ceiling to keep.
- AlertMachine.Enabled: a step of a run is atomic, so that a statement's own row-by-row progress is not visible to others.
- QuotaEnforcer.QuotaEnforcerService.Reconcile: nothing else writes between the count and the last owner's turn; what a pass does to an account that changed meanwhile is what `PauseExcess` and `Resume` do with the older counts.
- NetworkLaws.EveryFormIsRead: the forms of RFC 4291 that end in an IPv4 address are only read as `::ffff:` followed by one, and IPv4 octets keep their leading zeros, so that canonicity is stated for IPv6 groups only.
- CronCompact.TextIsAccepted: per field; a whole expression longer than 200 characters is refused by the server for its length.
- MetadataCache.EvictionIsExact: the tenth of the bound that eviction frees is computed with integers instead of floating point.
- RateLimiter.SpansAreBounded: a key that lost an open window to eviction starts another one, and how often that happens in a span is not bounded; `reset` is not modelled.
- FixedWindow.TheBoundIsReached: a window of one millisecond has no end and start to meet in one span, and is left out.
- CeilingOverlap.OverlapKeepsCeilingWhen: the passes overlap in that all count before any marks; a pass that counts between the marks of two others is not covered.
- QueueFairness.NoAlertStarves: the passes of one worker; what is queued meanwhile is up later than the alert in question, which is queued already.
- HeartbeatSender.HeartbeatSender.Submit: a process that forks, the flush at exit, and the warning once a minute are not modelled.
- IntervalRunner.IntervalRunner.Run: the timer that calls it, and `settle`, which waits for it, are not modelled.
- Sign-in, projects, members, channels' own limits, and APScheduler's and Django's readers of schedules.
