# Verification of Runnerly's restart limits, credentials and job bookkeeping

Runnerly keeps self-hosted GitHub runners going. An agent supervises the runner
process and reports to a control plane. This project models the parts of both
whose promises span several functions, processes or machines, and proves those
promises: for every history of the outside world, every interleaving, every run.

| file | models |
|---|---|
| `Backoff.dfy` | restart delays over exact reals |
| `RestartFlag.dfy` | `Run` against concurrent `Restart` calls, one critical section at a time |
| `RunHistory.dfy` | what a run goes through, and the two restart limits stated over the whole history, without counters |
| `RunOutcomes.dfy` | how a run ends and what counts against it, in terms of what happened in each round |
| `RunTheorems.dfy` | what the two limits guarantee over whole runs |
| `RestartCeiling.dfy`, `RestartPlans.dfy` | how many restarts one window can see, exactly, for every policy |
| `DefaultPolicy.dfy` | what that comes to for the default policy |
| `RunLog.dfy` | what a run reports and does to its children, and an observer that accepts only disciplined sequences |
| `RunReports.dfy` | what each round of a run reports and does, act by act, and how long a streak waits |
| `Supervisor.dfy` | the supervisor as a class: the loop, the flag under the mutex, the array compacted in place |
| `RateLimit.dfy`, `RateTheorems.dfy`, `RateBounds.dfy` | the token-bucket limiter and its sweep, against a limiter that never forgets |
| `Credentials.dfy`, `Protocol.dfy` | machine tokens, and agents and server exchanging requests over a network that loses them |
| `LostRotations.dfy`, `AbandonedBeat.dfy` | whether an agent has its runner's live credential, and what a lost rotation does to it |
| `IssuingTransactions.dfy` | issuing a credential as the two statements it is |
| `Commands.dfy`, `CommandRuns.dfy` | the life of a queued command |
| `Exchange.dfy` | one whole heartbeat: agent, handlers and both tables together |
| `EventQueue.dfy` | the reporter's bounded queue and its loop |
| `Enrollment.dfy` | enrollment tokens and the register handler |
| `DockerCleanup.dfy` | snapshot, difference and removal around a job |
| `ShellQuote.dfy` | the hook scripts, read back by the shell's own rules |

How the outside world enters: a run of the supervisor is a sequence of rounds,
each holding everything the world decides in one turn of the loop (whether the
launch works, how the child ends, the clock readings, how many `Restart` calls
lock in which gap, whether a delay is cancelled). Everything concurrent is a
sequence of atomic steps: one critical section, one SQL statement or
transaction, one channel operation. Theorems quantify over all such sequences.
Failures of docker commands, files and the network are parameters.

## Where the code does less than it says

Each of these is a lemma or the contract of a method, with the exact condition where
there is one.

- *Ten restarts an hour* (internal/supervisor/supervisor.go:88-89, 107-113). A
  retry after a failed launch is not charged to the window. Over the runs that wait
  out every backoff, and for every policy with a budget, MaxRestartsPerWindow is a
  ceiling on the retries of every window with at most k failed launches exactly if
  k is zero, or the delays and the streak limit leave no room for one failure more
  within the window (`RestartPlans.CeilingHoldsExactlyWhen`; the room is computed
  by `RestartPlans.Soonest`, `RestartPlans.RoomIsComputed`). How many a window can
  see is exact too (`RestartPlans.RoomIsExact`): fifty-five an hour by default
  (`DefaultPolicy.FiftyFiveAnHourIsExact`, `DefaultPolicy.TenAnHourExactlyWhenNoLaunchFails`).
- *Excused exits and returned `Restart` calls.* Excused exits never outnumber
  the calls that have locked. They never outnumber the calls that have returned
  exactly when none is still on its way back
  (`RestartFlag.ExcusesArePaidFor`, `RestartFlag.ExcusesWithinReturnedExactlyWhenAllAreBack`).
- *Forgetting a bucket is harmless* only while a bucket refills within the idle
  time less twice the skew between clock readings, which `Allow` takes before
  its lock; `New` accepts limits for which it does not
  (`RateTheorems.ForgettingIsInvisibleExactlyWhen`). The throughput bound stands and
  falls with the same condition (`RateBounds.ThroughputBoundExactlyWhen`).
- *A snapshot that fails cleans up nothing* (internal/cli/hook.go:74-75). It is
  recorded as an empty one, so at the end everything on the machine counts as
  added (`DockerCleanup.SparedExactlyWhenRecorded`).
- *The oldest events are dropped* (internal/agent/report.go:17-18). The code
  drops the newest (`EventQueue.Reporter.Enqueue`, `EventQueue.EventsAreConserved`).
- *A result sent in the beat of a rotation authenticates* exactly unless an
  earlier heartbeat the agent gave up on rotates once more in between
  (`LostRotations.ResultsOfARotatingBeat`, `AbandonedBeat.AResultCanBeRefused`).
- *Never a moment with two live credentials or none* (internal/store/tokens.go:221-224)
  exactly unless a transaction that issues one commits after another of the same
  runner has since its UPDATE (`IssuingTransactions.OneLiveExactlyUnlessOverlapped`).
- *A command never sits delivered* (internal/agent/report.go:348-349). Over every
  run, one that was handed out, with neither reply nor result on its way, stays
  delivered exactly if its reply was lost, or its result lost or refused, and it has
  not expired (`Commands.DeliveredExactlyWhenMissed`,
  `CommandRuns.RefusedResultStaysDelivered`, `Exchange.Agent.RunCommands`).
- *A button pressed twice does not restart twice* (internal/store/commands.go:53-55).
  `QueueCommand` looks and inserts in two statements, and two calls can both look
  first. Over every run no runner ever has two open commands exactly if no insert
  lands while another command, queued since its own look-up, is still open
  (`CommandRuns.TwoCallsCanBothQueue`, `Commands.OneOpenExactlyUnlessAnInsertIsLate`).

## Model

| member | source | states |
|---|---|---|
| Backoff.DelayIsCappedGeometric | internal/supervisor/supervisor.go:127-148 | the delay is the smaller of the cap and Initial times Factor to the power n-1, truncated; never negative, never above the cap or MaxInt64 |
| Backoff.DelayIsMonotone | internal/supervisor/supervisor.go:127-148 | later attempts of a streak never wait less, for any policy and any attempt numbers |
| Backoff.StreakWaitIsGeometricallyBounded | internal/supervisor/supervisor.go:127-148 | all the waiting of a streak of n restarts is at most the geometric sum of the schedule |
| Backoff.GeometricSumClosedForm | internal/supervisor/supervisor.go:127-148 | that sum in closed form, also for a factor of exactly 1 |
| Backoff.DefaultStreakWaits155Seconds | internal/supervisor/supervisor.go:80-83 | the default schedule, 5s 10s 20s 40s 80s, waits 155 seconds in all |
| RestartFlag.FlagMeansRequestedForThisChild | internal/supervisor/supervisor.go:401-447 | over every interleaving: while a child is up and its flag not taken, the flag is set iff a Restart call locked since that child was installed |
| RestartFlag.ExcusedExactlyWhenRequested | internal/supervisor/supervisor.go:244-258 | an exit is excused iff a Restart call locked while that very child was current; a flag set in the gap, or while nothing runs, swallows no later exit |
| RestartFlag.SameChildSinceInstall | internal/supervisor/supervisor.go:428-437 | from installation until its flag is taken one child stays current |
| RestartFlag.ExcusesArePaidFor | internal/supervisor/supervisor.go:401-417 | excused exits never outnumber Restart calls that returned true or are still delivering their stop |
| RestartFlag.ExcusesWithinReturnedExactlyWhenAllAreBack | internal/supervisor/supervisor.go:401-417 | for every c: on all interleavings ending with c Restart calls yet to return, excused exits are within the calls that returned true, iff c is zero |
| RunHistory.StreakStep | internal/supervisor/supervisor.go:236-304 | the failures since and including the last forgiving exit change per round exactly as the loop's counter does |
| RunHistory.NothingForgivenSince | internal/supervisor/supervisor.go:288-296 | the streak starts at the last exit with a long enough uptime: nothing later forgives |
| RunHistory.EndsOnce | internal/supervisor/supervisor.go:222-310 | a history decides where and how a run of it ends: nowhere earlier, later or otherwise |
| RunOutcomes.ChargedIsACount | internal/supervisor/supervisor.go:316-335 | what a span is charged with is the number of exits charged in it that nobody asked for and that were not the clean exit of an ephemeral process with its work done |
| RunOutcomes.FailuresAreACount | internal/supervisor/supervisor.go:228-304 | what counts as a failure is a launch that fails, or such an exit, and nothing else |
| RunOutcomes.StreakExceedsExactlyWhen | internal/supervisor/supervisor.go:288-296 | the streak exceeds a limit iff some stretch up to now holds more failures than that with no long enough run after its first |
| RunOutcomes.StreakGrowsExactlyOnFailures | internal/supervisor/supervisor.go:288-304 | a failure adds one to the streak, or makes it one after a run of at least ResetAfter; nothing else touches it |
| RunOutcomes.UnfinishedWorkIsAFailure | internal/supervisor/supervisor.go:419-426 | the clean exit of an ephemeral process whose job is not done is charged to the streak and to every window that holds it |
| RunOutcomes.CompletedExactlyWhen | internal/supervisor/supervisor.go:281-286 | a run is completed iff its last round is an unasked clean exit of an ephemeral process whose work, if that is asked, is done |
| RunOutcomes.GaveUpExactlyWhen | internal/supervisor/supervisor.go:298-343 | a run is given up on iff its last round is a failure that makes more of them than allowed, in the window that ends as it is charged or in a stretch with nothing forgiven |
| RunTheorems.BudgetHoldsAtEveryInstant | internal/supervisor/supervisor.go:298-335 | for every instant, not only when the budget is looked at: at most MaxRestartsPerWindow unasked exits let through in the window ending there, whatever ResetAfter forgave |
| RunTheorems.StreakWithinLimit | internal/supervisor/supervisor.go:304-343 | a run that goes on never has more than MaxRestarts unforgiven failures |
| RunTheorems.RetriesForExits | internal/supervisor/supervisor.go:228-342 | a stretch with at most so many unasked exits holds at most MaxRestarts * (that + 1) retries, failed launches included |
| RunTheorems.FastFailuresStayWithinBudget | internal/supervisor/supervisor.go:298-335 | a process any budget-and-one of whose exits fall in one window is let go on at most MaxRestartsPerWindow times |
| RunTheorems.BrokenProcessIsGivenUpOn | internal/supervisor/supervisor.go:88-104 | such a process, with nobody restarting it, is launched at most MaxRestarts * (MaxRestartsPerWindow + 1) + 1 times even if every uptime clears the streak |
| RunTheorems.RareExitsAreNeverGivenUpOn | internal/supervisor/supervisor.go:107-113 | a process that exits only after long runs and rarely is never given up on |
| RunTheorems.AskedRoundsLeaveNoTrace | internal/supervisor/supervisor.go:274-279 | deleting every operator-requested exit changes neither the streak nor any window's count |
| RunTheorems.OperatorRestartsAreTransparent | internal/supervisor/supervisor.go:274-279 | deleting every operator-requested exit from a history changes neither whether the run survives it nor what any other round does |
| RestartCeiling.RetriesInAnyWindow | internal/supervisor/supervisor.go:228-342 | at every instant of every run the window ending there has seen at most MaxRestarts * (1 + the forgiving uptimes it has room for, MaxRestartsPerWindow at most) retries, those after failed launches included |
| RestartPlans.RoomIsExact | internal/supervisor/supervisor.go:228-353 | over the runs that wait out every backoff, no window sees more than a given number of retries iff there is no allowed plan of that many further failures, every delay and every forgiving uptime included, within the window of the first |
| RestartPlans.CeilingHoldsExactlyWhen | internal/supervisor/supervisor.go:88-104 | over those runs, for every policy with a budget and every k: every window with at most k failed launches sees at most MaxRestartsPerWindow retries, iff k is zero or there is no room for that many after a first failure |
| RestartPlans.RoomIsComputed | internal/supervisor/supervisor.go:127-148 | whether there is room is one recursion over the policy's numbers: the soonest that many failures can follow the first is before the window ends |
| DefaultPolicy.FiftyFiveAnHourIsExact | internal/supervisor/supervisor.go:107-124 | over the runs of the default policy that wait out every backoff, fifty-five retries an hour is the least bound |
| DefaultPolicy.TenAnHourExactlyWhenNoLaunchFails | internal/supervisor/supervisor.go:107-113 | on those runs the promised ten holds of every hour with at most k failed launches iff k is zero |
| RunLog.RunsAreDisciplined | internal/supervisor/supervisor.go:222-310 | every run's report follows the grammar and ends in exactly one of stopped, completed, gave up: the one the limits dictate |
| RunLog.OneChildAtATime | internal/supervisor/supervisor.go:222-310 | at every point at most one child is alive, and each is reaped before the next launch and before the return |
| RunLog.KillsFollowTheStopTimeout | internal/supervisor/supervisor.go:362-391 | a kill is sent only after a stop request and then a whole stop timeout |
| RunReports.ChildIsHandledExactlySo | internal/supervisor/supervisor.go:362-391 | each round launches once and, if that works, reaps once; it sends a stop iff the context is cancelled, and a kill iff the child then lets the whole stop timeout pass |
| RunReports.LifeIsReportedExactlySo | internal/supervisor/supervisor.go:222-272 | each round reports its attempt, its start, its exit with the uptime, and what a shutdown takes, each exactly when it happens and once |
| RunReports.VerdictIsReportedExactlySo | internal/supervisor/supervisor.go:281-343 | it reports a forgiven streak, the end of the work, the limit exceeded and by how much, or that the run is stopped, each exactly when that is so |
| RunReports.RetriesAreReportedWithTheirDelay | internal/supervisor/supervisor.go:339-358 | a failure that leaves the run going ends its report with the number of failures since the last forgiving exit, and the capped geometric delay for that number |
| RunReports.RetriesAreAnnouncedExactlySo | internal/supervisor/supervisor.go:274-353 | a retry is announced exactly after an exit an operator asked for, without delay and at the attempt it was, and after a failure within both limits, with the delay of its attempt |
| RunReports.StreakWaits | internal/supervisor/supervisor.go:339-358 | the delays reported over an unbroken streak of k failures add up to those of attempts 1 to k, whatever operators ask for in between |
| RunReports.DefaultGivesUpAfter155Seconds | internal/supervisor/supervisor.go:80-124 | by default a process that never stays up a minute is given up on at its sixth failure, after 155 seconds of waiting |
| Supervisor.PruningLosesNothing | internal/supervisor/supervisor.go:316-335 | pruning what was already pruned leaves exactly what scanning every spend ever made would, and counts the same |
| Supervisor.PrunedIsSorted | internal/supervisor/supervisor.go:191-193 | what is kept is always oldest first |
| Supervisor.New | internal/supervisor/supervisor.go:198-215 | no supervisor without a command; otherwise a policy with neither initial delay nor factor becomes the default, a stop timeout that is not positive becomes thirty seconds, and nothing is running or spent |
| Supervisor.Supervisor.Restart | internal/supervisor/supervisor.go:401-417 | the locked part: marks the exit of what is running as asked for, or answers false and changes nothing |
| Supervisor.Supervisor.SetCurrent | internal/supervisor/supervisor.go:428-437 | installing a child clears the flag, clearing one leaves it |
| Supervisor.Supervisor.TakeRestartFlag | internal/supervisor/supervisor.go:441-447 | reads and clears the flag in one step |
| Supervisor.Supervisor.SpendRestart | internal/supervisor/supervisor.go:316-335 | compacts the array over itself to what is later than the cutoff, adds this restart, and returns how many that is |
| Supervisor.Supervisor.AppendAt | internal/supervisor/supervisor.go:332 | append after compaction: in place while there is room, otherwise into a larger array |
| Supervisor.Supervisor.AwaitExit | internal/supervisor/supervisor.go:362-391 | what is reported and done until the child is gone, on an exit and on a shutdown |
| Supervisor.Supervisor.WaitBeforeRetry | internal/supervisor/supervisor.go:339-358 | gives up exactly when the streak exceeds the limit, otherwise reports and waits out the capped geometric delay of that attempt, or stops |
| Supervisor.Supervisor.HandleFailure | internal/supervisor/supervisor.go:288-308 | forgiving, charging and retrying an unasked exit does to the run what the two limits over the whole history say |
| Supervisor.Supervisor.LiveAndDie | internal/supervisor/supervisor.go:244-258 | only Restart calls that lock while this child is current make its exit an asked one |
| Supervisor.Supervisor.FollowExit | internal/supervisor/supervisor.go:268-308 | an exit that was asked for is followed at once, one with the work done ends the run, any other is forgiven, charged and retried as the two limits say |
| Supervisor.Supervisor.TakeTurn | internal/supervisor/supervisor.go:225-309 | one turn of the loop ends as the history dictates, completed only by a clean unasked exit with the work done, and keeps the counter and the array equal to it |
| Supervisor.Supervisor.Loop | internal/supervisor/supervisor.go:222-310 | takes the rounds of a history one by one to where it ends, reports exactly its trace, and keeps in the array what the full history would show |
| Supervisor.Supervisor.Run | internal/supervisor/supervisor.go:222-310 | completed, given up on or stopped exactly when what happened in its last round and before says so; a failure it survives is reported with its delay, and what an unforgiven run waits is the schedule; never holds more than MaxRestartsPerWindow + 1 spends |
| RateLimit.Limiter.constructor | internal/ratelimit/ratelimit.go:52-64 | a limit that is not positive is made so, and nothing is remembered |
| RateLimit.Limiter.Allow | internal/ratelimit/ratelimit.go:74-105 | answers and updates as a capped refill in exact integer credit does, after the sweep |
| RateLimit.Limiter.ForgetIdle | internal/ratelimit/ratelimit.go:108-118 | drops exactly the buckets not used within the idle time, at most once per idle time |
| RateTheorems.ForgettingInvisible | internal/ratelimit/ratelimit.go:74-118 | on every run the limiter answers as one that never forgets a bucket, when a bucket refills within the idle time less twice the skew |
| RateTheorems.ForgettingIsInvisibleExactlyWhen | internal/ratelimit/ratelimit.go:24-118 | forgetting shows in no answer of any run iff that condition holds |
| RateTheorems.PerMinuteForgetsInvisibly | internal/ratelimit/ratelimit.go:24-29 | the limits the server builds meet it exactly up to 60 * 10^9 requests a minute |
| RateTheorems.PerMinuteIsThatMany | internal/ratelimit/ratelimit.go:24-29 | the limiter built for n requests a minute allows a burst of n and refills n a minute, to within rounding of the refill interval |
| RateBounds.CreditPaysForAdmissions | internal/ratelimit/ratelimit.go:90-104 | what is admitted in an interval is paid for by one bucketful and the time that passes, whatever the order of readings |
| RateBounds.ThroughputBound | internal/ratelimit/ratelimit.go:74-118 | any interval of any run admits at most Burst + (t - s) / Every requests of a key, evictions and re-creations included |
| RateBounds.ThroughputBoundExactlyWhen | internal/ratelimit/ratelimit.go:24-118 | that bound holds on all runs with readings at most d out of order iff a bucket refills within the idle time less twice d |
| RateBounds.RefusedExactlyWhenSpent | internal/ratelimit/ratelimit.go:74-105 | on every run with readings at most d out of order and a refill within the idle time less twice d: a call is refused iff since some earlier call of its key the admissions leave less than a token of one burst and what time has refilled |
| RateBounds.RefusalsAreTransparent | internal/ratelimit/ratelimit.go:90-104 | taking a refused call out of a run or putting one in changes no other answer |
| RateBounds.WaitIsExact | internal/ratelimit/ratelimit.go:97-101 | after a refusal naming w, however often the key asks meanwhile, its calls are refused until w later and admitted from then on |
| Credentials.IssueLeavesOneLive | internal/store/tokens.go:162-188 | after issuing, exactly the new credential of the runner is live and nobody else's changed |
| Credentials.DueExactlyWhenOld | internal/store/tokens.go:225-256 | the only live credential is due for replacement iff it was issued at least maxAge ago, a day for a maxAge that is not positive |
| Credentials.TokenStore.IssueMachineToken | internal/store/tokens.go:162-188 | revokes what there was and inserts the new one, leaving it the only live one |
| Credentials.TokenStore.AuthenticateMachine | internal/store/tokens.go:192-210 | resolves exactly the live credentials, each to its own runner |
| Credentials.TokenStore.RotateMachineTokenIfOld | internal/store/tokens.go:225-256 | replaces the credential exactly when the newest live one, or the only one, was issued at least maxAge ago, a day for a maxAge that is not positive |
| Credentials.TokenStore.NewestLive | internal/store/tokens.go:232-237 | the newest live credential of the runner, or none iff it has none |
| Credentials.TokenStore.RevokeMachineTokens | internal/store/tokens.go:259-267 | leaves the runner without a live credential and everyone else's as they were |
| IssuingTransactions.AtOnceIsIssue | internal/store/tokens.go:162-188 | UPDATE and INSERT with nothing in between revoke and issue exactly as the one step of the other modules does |
| IssuingTransactions.OneLiveExactlyUnlessOverlapped | internal/store/tokens.go:162-188 | over every run of the two statements: each runner ever issued a credential has exactly one live one throughout, iff no transaction commits after another of its runner has since its UPDATE |
| Protocol.InvAlways | internal/server/agent.go:166-237 | the invariant behind the following holds after every run of agents, server and network: one live credential a runner, and a refused or superseded agent does not have it |
| LostRotations.AlwaysOneLiveCredential | internal/store/tokens.go:218-224 | over every run each enrolled runner has exactly one live credential |
| LostRotations.LostMeansTheLatestWas | internal/controlplane/controlplane.go:204-218 | "the latest rotation was lost", kept up step by step, is: some step lost one (it happened in a heartbeat no longer waited for, or its reply was given up on or dropped) and none since was made in a heartbeat waited for |
| LostRotations.CredentialReachesTheAgent | internal/controlplane/controlplane.go:204-218 | after every run, whatever the network lost, the agent has the live credential or it is in the one reply it waits for, iff the latest rotation was not lost; and only an agent that lost it has stopped reporting |
| LostRotations.RefusedExactlyWhenLost | internal/server/auth.go:50-74 | whatever an agent sends and waits for, heartbeat, events or result, is refused iff its latest rotation was lost |
| LostRotations.RotationIsDueExactlyWhenOld | internal/store/tokens.go:225-256 | after every run an authenticated heartbeat finds a rotation due iff the runner's live credential is at least as old by then as the lifetime |
| LostRotations.HaltsExactlyOnARefusedHeartbeat | internal/agent/report.go:297-321 | a step ends an agent's reporting iff it brings the refusal of the heartbeat the agent waits for |
| LostRotations.ResultsAuthenticate | internal/server/agent.go:245-260 | from the moment a heartbeat's answer is written until the results of its commands are in, what the agent sends authenticates iff the latest rotation was not lost by then and none has happened since |
| LostRotations.ResultsOfARotatingBeat | internal/controlplane/controlplane.go:204-218 | in the beat of a rotation a result authenticates iff the credential was not rotated once more in between |
| LostRotations.StrandedForGood | internal/agent/report.go:297-321 | once the latest rotation is lost and no heartbeat waited for is past authentication, it stays lost over every run |
| LostRotations.NextBeatIsRefused | internal/agent/report.go:297-321 | from the first heartbeat an agent sends after losing a rotation, all it sends is refused, and the first heartbeat whose answer arrives ends its reporting |
| LostRotations.RefusedOnceSilentForGood | internal/agent/report.go:206-217 | over every run: once refused, a reporter changes nothing more and sends no further request |
| AbandonedBeat.AResultCanBeRefused | internal/agent/report.go:181-187 | a run in which a heartbeat the agent gave up on rotates later and a result is refused in the very beat that brought a credential |
| Commands.InvAlways | internal/store/commands.go:56-144 | after every run every command was handed out at most once and then no longer pending, and what a caller of QueueCommand found closed stays closed |
| Commands.CommandsArePerformedAtMostOnce | internal/agent/report.go:350-387 | over every run each command is handed out, so carried out, at most once |
| Commands.OneOpenExactlyUnlessAnInsertIsLate | internal/store/commands.go:50-89 | over every run of look-ups, inserts and everything else: no runner ever has two open commands iff no insert lands while another command of its runner, queued since its own look-up, is still open |
| Commands.QueuingAtOnceKeepsOneOpen | internal/store/commands.go:50-80 | never two open commands when the two statements of QueueCommand are one step |
| CommandRuns.TwoCallsCanBothQueue | internal/store/commands.go:56-89 | a run in which two calls look before either inserts, and the runner ends with two open commands |
| Commands.DeliveredExactlyWhenMissed | internal/agent/report.go:348-361 | over every run a command handed out, with neither reply nor result on its way, is delivered iff one of them was lost or refused and it has not expired |
| CommandRuns.RefusedResultStaysDelivered | internal/agent/report.go:350-361 | a run in which a command is carried out, its result is refused, and it stays delivered |
| Commands.TakingTakesEverything | internal/store/commands.go:96-120 | with one open command at most the limit of ten never bites: a heartbeat takes all that waits, and nothing is left pending |
| Commands.StatusOnlyMovesForward | internal/store/commands.go:96-144 | over every run a status only moves from pending to delivered to closed, and a closed command never changes |
| Commands.DoneExactlyWhenReportedSo | internal/store/commands.go:126-144 | over every run a command is done iff its own runner reported its success while it was open |
| Commands.OnlyTheOwnerOrAgeCloses | internal/store/commands.go:126-186 | an open command is closed iff its own runner reports it or it expires, and done only by its runner's report of success |
| Commands.ExpiryLeavesNothingStale | internal/store/commands.go:173-186 | after an expiry no open command is older than the limit |
| Commands.CommandStore.QueueCommand | internal/store/commands.go:56-80 | returns an open command of the runner if there is one, otherwise queues one; refuses anything but a restart |
| Commands.CommandStore.TakeCommands | internal/store/commands.go:96-120 | hands out the oldest of what waits, ten at most, each once, and marks exactly those delivered |
| Commands.CommandStore.CompleteCommand | internal/store/commands.go:126-144 | closes exactly an open command of the caller's own, or reports that there is none |
| Commands.CommandStore.ExpireStaleCommands | internal/store/commands.go:173-186 | fails and counts exactly the open commands older than the limit; refuses an age that is not positive |
| Exchange.ControlPlane.HandleHeartbeat | internal/server/agent.go:166-237 | refused, invalid or unrecorded, it touches neither table; otherwise it hands out and marks what waits and replaces a credential that is due, and trouble with either of those fails neither the other nor the heartbeat |
| Exchange.ControlPlane.HandleResult | internal/server/agent.go:245-260 | closes exactly an open command of the runner whose credential was presented |
| Exchange.Agent.RunCommands | internal/agent/report.go:350-387 | asks for one restart per command, in order; closed, as done or failed, are exactly the commands whose report got through before an earlier heartbeat rotated the credential away, and the rest are left as they were |
| Exchange.Agent.Beat | internal/agent/report.go:294-321 | where nothing is lost the agent ends with the only live credential, unless an earlier heartbeat rotates meanwhile, and what it was handed is carried out once and closed as far as its results were accepted; a lost reply leaves what it handed out delivered and not carried out, and strands the agent iff it rotated; a dead credential is refused and changes nothing |
| EventQueue.StepConserves | internal/agent/report.go:105-113 | each step of an observer or the reporter keeps the accounting of every event |
| EventQueue.EventsAreConserved | internal/agent/report.go:231-292 | over every interleaving: events handed over, in hand and queued are, in order, exactly those observed less those dropped; the missing ones are logged, counted or about to be; batches hold 1 to 100 |
| EventQueue.DropsOnlyWhenFull | internal/agent/report.go:105-113 | an event is turned away only while 256 wait |
| EventQueue.BeatsOfAllTurns | internal/agent/report.go:194-221 | over any number of wake-ups that each do as they should, one heartbeat is sent for every tick and cancellation and none besides |
| EventQueue.Reporter.Enqueue | internal/agent/report.go:105-113 | never blocks: queues the event or counts it as dropped |
| EventQueue.Reporter.Drain | internal/agent/report.go:247-258 | takes up to the limit in order while more arrive, fewer only when the queue is empty |
| EventQueue.Reporter.FlushEvents | internal/agent/report.go:231-241 | sends exactly one batch of 1 to 100 events, the waking one first, and leaves something queued only if it is full |
| EventQueue.Reporter.Heartbeat | internal/agent/report.go:260-321 | logs and clears the drop count, reports once, and remembers only a refusal |
| EventQueue.Reporter.FinalReport | internal/agent/report.go:396-408 | sends a batch iff there is anything to send, then exactly one goodbye |
| EventQueue.Reporter.Wakened | internal/agent/report.go:198-219 | what one wake-up sends and leaves queued, kind by kind, and that it is over on a cancellation or a refused tick |
| EventQueue.Reporter.Run | internal/agent/report.go:194-221 | every tick sends its heartbeat and nothing else, a wake-up that finds something queued exactly one batch, a cancellation what is left, a hundred at most, and one goodbye; over at the first cancellation or refused tick and at nothing else; accounts for every event throughout |
| Enrollment.UsesAreRedemptionsWithinTheLimit | internal/store/tokens.go:82-111 | whatever the interleaving: uses are the successful redemptions, never more than max_uses, and machines enrolled through a token never more than its uses |
| Enrollment.NoMachineWithoutAToken | internal/server/agent.go:69-109 | no machine is enrolled through a secret that was never issued |
| Enrollment.RedeemsExactlyWhenUsable | internal/store/models.go:154-165 | the statement that redeems takes effect iff the read side calls the token usable, and then counts one use and changes nothing else |
| Enrollment.UnusableForGood | internal/store/models.go:154-165 | a token once unusable stays unusable |
| Enrollment.NobodyEnrollsOnceItIsOver | internal/store/tokens.go:82-95 | over every run: from when a token is revoked, expired or used up nobody is enrolled through it |
| Enrollment.EveryUseIsHonoured | internal/store/tokens.go:78-95 | while a token is neither revoked nor expired its uses are exactly the smaller of the attempts and the limit: no use lost to a race, none refused early |
| Enrollment.EnrollmentStore.RedeemEnrollmentToken | internal/store/tokens.go:82-111 | counts one use iff the token is neither revoked, expired nor used up; tells such a one from one that does not exist |
| Enrollment.EnrollmentStore.RevokeEnrollmentToken | internal/store/tokens.go:144-154 | leaves the token unusable and all others as they were, and says whether there was anything to revoke |
| Enrollment.EnrollmentStore.Register | internal/server/agent.go:41-109 | a bad request costs no use; a use is spent exactly when the request is valid and the token usable, also when what follows fails; an unknown token is unauthorized, an unusable one forbidden |
| DockerCleanup.KeptIsInOrder | internal/docker/docker.go:192-208 | the difference keeps elements at strictly increasing positions of the listing |
| DockerCleanup.KeptIsWhatIsLacking | internal/docker/docker.go:192-208 | it holds exactly what is listed and not excluded, as often as it is listed |
| DockerCleanup.AttemptsExactlyTheAdded | internal/docker/docker.go:174-180 | cleanup attempts an object iff it is there at the end and was not recorded |
| DockerCleanup.AttemptsAreOrdered | internal/docker/docker.go:227-269 | containers before volumes before networks before images, nothing twice |
| DockerCleanup.AttemptsAreCounted | internal/cli/hook.go:121-126 | as many attempts as objects added, and one for the images when asked; none at all, images included, when nothing was added |
| DockerCleanup.EveryCallIsCounted | internal/docker/docker.go:211-225 | every call ends up either removed or among the problems |
| DockerCleanup.SucceedingAreThoseThatDoNotFail | internal/docker/docker.go:231-269 | the removals counted, kind by kind, are those of the calls that do not fail |
| DockerCleanup.ProblemsAreTheCallsThatFail | internal/docker/docker.go:211-225 | the problems told are the calls that fail, and no others |
| DockerCleanup.CleanupConserves | internal/cli/hook.go:112-134 | whatever fails, everything recorded and still there is left, but for unnamed volumes of a removed container; without problems that is exactly what is left |
| DockerCleanup.SparesExactlyWhatWasRecorded | internal/cli/hook.go:112-134 | cleanup spares what was there before iff all of it that is still there was recorded |
| DockerCleanup.SparedExactlyWhenRecorded | internal/cli/hook.go:64-134 | whatever the file held: that is iff it can be read back and the snapshot was taken and written, or the write failed over an earlier job's snapshot that covers what is still there; a failed snapshot makes everything the job's |
| DockerCleanup.NextJobIsSparedExactlyWhenRecorded | internal/cli/hook.go:64-134 | for the job after a completed hook that wrote the file: spared iff the snapshot was taken, written and read back |
| DockerCleanup.Hooks.Difference | internal/docker/docker.go:192-208 | the two loops compute the difference characterised above |
| DockerCleanup.Hooks.AddedSince | internal/docker/docker.go:174-180 | the difference kind by kind |
| DockerCleanup.Hooks.RemoveSnapshot | internal/docker/docker.go:231-269 | runs every removal in order whatever fails; what was removed and what failed add up to what was attempted, kind by kind |
| DockerCleanup.Hooks.HookStarted | internal/cli/hook.go:64-84 | what the file holds afterwards, with a failed snapshot recorded as an empty one |
| DockerCleanup.Hooks.HookCompleted | internal/cli/hook.go:87-110 | runs exactly the cleanup the file and the listing call for, then forgets the snapshot whatever happened |
| ShellQuote.ReadQuoted | internal/jobstate/hooks.go:136-139 | where a word may begin, the shell reads a quoted path as exactly that path |
| ShellQuote.ReadComment | internal/jobstate/hooks.go:42-49 | the template's comments, apostrophes and bars included, are newlines to the shell |
| ShellQuote.ReadCommand | internal/jobstate/hooks.go:50 | the command line is read as exactly the intended argument vector, then the or-true |
| ShellQuote.ScriptRunsWhatWasMeant | internal/jobstate/hooks.go:42-51 | for all paths without NUL the whole script tokenises to its comments and the intended command |
| ShellQuote.InstalledHooksRunTheAgent | internal/jobstate/hooks.go:115-122 | both scripts of an installation run the agent on their own event with the paths as given |
| ShellQuote.RunnerFiles.InstallHooks | internal/jobstate/hooks.go:95-134 | succeeds iff there is a binary and job-started.sh and job-completed.sh can be written; the first then runs the agent on the job's start, the second on its end; no other file changes |

## Left out

- Durations saturate in Go when two readings are more than 292 years apart; the model subtracts exactly.
- Backoff.DelayIsCappedGeometric: over exact reals. In binary floating point a delay of exactly 2^63 nanoseconds slips past the overflow guard; a factor that is not a number is not modelled.
- Supervisor.New: the defaults for the launcher and the clock are functions the model has no use for.
- RestartPlans: uptimes and launches are as short as the world likes, and readings and timers are one clock.
- Supervisor.Supervisor.Restart: the stop it sends after unlocking, and the event when that fails, are only the step `StopDelivered` of `RestartFlag`.
- Supervisor.Supervisor.Run: one run of a fresh supervisor, over every finite sequence of rounds; a second run on the same object is not modelled. Process ids, exit codes and error texts of events are left out.
- RateLimit.Limiter.Allow: credit is exact; rounding of the floating-point tokens is not modelled. Buckets are values in the map rather than pointers from it.
- Protocol: requests refused by the rate limiter or failing in the server are requests that are lost; retirement, revocation by an operator and enrolling the same machine again are not steps.
- Credentials.TokenStore.IssueMachineToken: one step here; its two statements are `IssuingTransactions`. Token prefixes, hashes (taken to be injective) and `last_used_at` are not modelled.
- Commands.CommandStore.QueueCommand: the method runs its two statements without interruption; what comes between them is steps LookUp and Insert of the same module.
- EventQueue.Reporter.Heartbeat: the credential and the commands its reply brings are `Exchange.Agent.Beat`.
- Exchange.Agent.Beat: every queued command is a restart, as the table's constraint demands; the agent's answer to a command it does not know is not modelled.
- Commands: deleting a runner deletes its commands in the database; not modelled.
- Enrollment: the machine's name stands for host, scope and name together; a use counter that overflows 32 bits is not modelled.
- DockerCleanup.CleanupConserves: nothing else on the machine comes or goes while cleanup runs.
- DockerCleanup: a snapshot is one reading rather than three listings; job identity and times in the job file, and its JSON, are left out.
- ShellQuote: text is characters rather than bytes; the directory is joined without cleaning the path; the tokenizer is stuck on unquoted characters the script does not use.
- The PowerShell scripts, service templates and archives depend on the rules of other programs, as do the GitHub and OAuth clients; none is modelled.
- Configuration, doctor checks, machine readings, health and labels read their input once and keep no state between calls; none is modelled.
- HTTP, JSON, logging, metrics and PostgreSQL itself: only the order of state changes is modelled.
