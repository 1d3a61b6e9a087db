# Datum-Sync, verified

A Dafny model of the parts of Datum-Sync whose correctness is not visible in
any one function: the vault's glob compiler, the job queue and the worker that
owns it, keyed submission, the OAuth grant store, event replay and tail, the
blocking wait, schedules, automations, the rate limiter and parameter
validation. `dafny verify dfyconfig.toml` checks all of it.

## How it is modelled

One module per source file or protocol. `Paths`, `Text` and `Common` hold
shared vocabulary.

| module | models |
|---|---|
| `Glob`, `VaultScope` | `vault.py`: compiling a glob, matching, normalising, permitting, refusing scope documents |
| `VaultDir` | `_scope_covers_dir` of `vault_fs.py` |
| `Jobs`, `Worker`, `Idempotency` | `jobs.py` and `worker.py`: the job table, workers and clients acting on it, submissions racing for a key |
| `OAuth` | `oauth.py`: codes, tokens, rotation, replay, revocation |
| `Events`, `EventCrowd`, `EventGaps`, `Execute` | `events.py` and `execute.py`: listen, read, then tail or wait; one serial writer, then any number |
| `Schedules`, `ScheduleRuns` | `schedules.py`: next run, catching up, resuming; ticks and patches interleaved |
| `Automations`, `Firing` | `automations.py`: loops and chains; at-most-once firing |
| `RateLimit` | `ratelimit.py`: the pruned sliding window |
| `Manifest` | `manifest.py`: coercion, validation, resubmission |

Code that updates tables, queues or dictionaries in place is a class whose
methods update the same fields (`Jobs.JobStore`, `OAuth.GrantStore`,
`Events.EventStream`, `RateLimit.RateLimiter`, `Schedules.ScheduleTable`,
`Automations.Engine`, `Execute.JobWaiter`, `Worker.Slots`), and loops are
loops. Each such method is proved against what it makes of the old state, by
a function of it or row by row. The theorems about runs are about transition
systems built from those same functions: every committed transaction or stand-alone SQL statement is one
step, steps of different processes interleave freely, and a crash may come
between any two of them.

Left to parameters: digests and URI canonicalisation, the cron library and the
time zone database, Python's `float`, and what an action does when it is
performed. Clocks are arguments. Instants are integers (microseconds in
`Schedules` and `ScheduleRuns`) and `real` seconds in `RateLimit`.

## What the proofs found

Where the code and its documentation disagree, the model follows the code.

* A closing `**` compiles to `.*`, which stops at a newline, so `**` does not
  match a path with a newline, which `normalise` accepts. The documentation holds
  for exactly the newline-free paths, and for exactly the patterns that do not
  close with `**` (`Glob.PathAgreesIffNewlineFree`,
  `Glob.PatternAgreesIffNotClosing`).
* Normalising twice can differ from normalising once: `"a /"` gives `"a "`, which
  gives `"a"`. `VaultScope.NormaliseAgain` says exactly when.
* The directory test hides directories that `*/foo`, or a `?` before the first
  star, reach into. `VaultDir.CompleteIffPrefixSafe` says exactly which patterns
  are safe.
* `update` of `schedules.py` reads a row, decides, and writes `next_run` back in a
  later statement. If the schedule fires in between, even a patch of its
  parameters puts the old `next_run` back and the same period fires again
  (`ScheduleRuns.StalePatchFiresTwice`), against the comment that missed runs
  never become a burst. `ScheduleRuns.WriteStaysPacedIffSafe` gives the exact
  condition, and `ScheduleRuns.PlainPatchIsSafeIffUnfired` reads it for a patch
  that leaves the timing alone.
* `Worker.run` unlocks in a `finally`, so leaving `_loop` by an exception gives
  up the lock over tasks that still run, and a successor's row can then be
  overwritten by the old task's unguarded `finish`.
  `Worker.SafeToReleaseIffNoLiveTask` gives the exact condition.
* The module comment of `automations.py` (lines 13-15) says the runtime check
  stops a two-automation cycle, and lines 514-517 that one link back is enough
  for a pair. It is not: only the immediate cause is compared, and two
  automations that run each other's workspaces go on for ever
  (`Automations.PairRunsForEver`). Chains are bounded exactly when the graph has
  no cycle (`Automations.BoundedIffAcyclic`).
* An empty-string filter watches everything and yet passes the self-trigger
  check; `Automations.SelfTriggerCheckIsExact` says which automations it misses.
  A delivery the remote end refused leaves the run marked ok
  (`Automations.OkDespiteFailureIff`).
* Defaults are not checked against their type, so a job's stored parameters may
  change or be refused when it is resubmitted
  (`Manifest.ResubmissionKeepsIffDefaultsStay` and its two examples).
* `check` of `ratelimit.py` raises on a limit below one and an empty window, and
  only then (`RateLimit.FailsExactlyOnEmptyWindow`). `accounts.py` (lines 430-437)
  refuses such limits, so this takes a direct call or a row written by hand.
* Two log writers whose notices cross leave a gap in the stream, even if each
  notice is handled before the next is published
  (`EventGaps.CrossedNoticesLeaveAGap`). Over a whole run nothing is missed exactly
  when the notices the tail handled, less those of rows already replayed, ascended
  (`EventGaps.NothingMissedIffAscending`). The terminal frame may overtake queued
  log lines (`Events.StatusMayOvertakeLog`); `Events.ClosedStreamIsWholeIff` says
  when it has not.
* A writer that dies between a finish and its notice leaves a waiter to its
  timeout, and nothing else does (`Execute.WakeUpComesIffWriterLives`).

## Model

| member | source | states |
|---|---|---|
| Glob.Compile | datum_sync/vault.py:45-70 | the index loop yields the concatenation of the pattern's pieces, read left to right and longest first |
| Glob.PieceAccepts | datum_sync/vault.py:54-69 | what each piece of the regex accepts: whole directories or none, anything without a newline, one segment's text, one non-separator, one literal character |
| Glob.JoinedMatch | datum_sync/vault.py:45-74 | for star-confined segment lists, the compiled regex accepts the joined path exactly when the segments match one by one |
| Glob.MatchesMeansSegmentMatch | datum_sync/vault.py:45-74 | for every star-confined pattern and every path whatsoever, `matches` is the segment-wise reading (closing `**` newline-free, inner `**` non-empty segments) |
| Glob.MatchesAsDocumented | datum_sync/vault.py:45-74 | on newline-free paths that reading is the documented one |
| Glob.NewlineDefeatsDoubleStar | datum_sync/vault.py:58-60 | every path with a newline is one that `**` should match and does not |
| Glob.PathAgreesIffNewlineFree | datum_sync/vault.py:45-74 | every pattern means what is documented on a path exactly when the path has no newline |
| Glob.PatternAgreesIffNotClosing | datum_sync/vault.py:45-74 | a pattern means what is documented on every path exactly when its last segment is not `**` |
| VaultScope.NormaliseIsClean | datum_sync/vault.py:77-112 | a normalised path is clean (length, no NUL, no backslash, no empty, `.` or `..` segment) and is the input with only its ends trimmed |
| VaultScope.NormaliseDecides | datum_sync/vault.py:77-112 | which fault is found: the checks on the whole trimmed text in their order, then the first bad segment; without one, the trimmed path |
| Text.StripTakesOnlySpace | datum_sync/vault.py:87 | what trimming removes is white space at either end, all of it and nothing else |
| VaultScope.CleanIsNormal | datum_sync/vault.py:77-112 | a clean path without whitespace at its ends is accepted unchanged |
| VaultScope.NormaliseAgain | datum_sync/vault.py:87-112 | normalising an accepted input twice equals normalising it once exactly when, trimmed of outer whitespace and then of closing separators, it does not end in whitespace |
| VaultScope.SpaceBeforeSeparator | datum_sync/vault.py:87-112 | `"a /"` gives `"a "`, which gives `"a"` |
| VaultScope.NormalPathsAreNormalised | datum_sync/vault.py:77-112 | the normal paths, used by `VaultDir`, are exactly the values `normalise` returns |
| VaultScope.NewlineIsNormal | datum_sync/vault.py:77-112 | a path with a newline inside is accepted unchanged |
| VaultScope.SegmentsFaultDecides | datum_sync/vault.py:200-220 | a pattern passes exactly when it is star-confined and free of `.` and `..` segments; otherwise the fault names something true of it |
| VaultScope.CheckField | datum_sync/vault.py:155-181 | one key's list passes exactly when it is a list of non-empty good patterns; the fault names what is wrong |
| VaultScope.ValidateScope | datum_sync/vault.py:138-197 | a scope document passes exactly when it is well formed: known keys, good patterns, read wherever there is write, no denied grant; the fault names a rule that is broken |
| VaultScope.PermitsMeaning | datum_sync/vault.py:115-129 | a stored scope permits an action exactly when some granting pattern matches segment-wise and no denying pattern does |
| VaultScope.PermitsIff | datum_sync/vault.py:115-129 | for every scope, absent included, every action and every path: allowed exactly when there is a scope, the action is known, one of its patterns matches and no `deny` pattern does; an error exactly on an unknown action |
| VaultScope.WriteImpliesRead | datum_sync/vault.py:138-197 | under a stored scope whoever may write a path may read it |
| VaultDir.CompleteIffPrefixSafe | datum_sync/vault_fs.py:63-88 | among the paths and directories `normalise` returns, the prefix test covers every directory a pattern reaches into exactly when the pattern is prefix-safe (no leading lone star with more pattern after it, no `?` in a segment before the first star that has more pattern after it) or, filled in, is no such path |
| VaultDir.CoversSegments | datum_sync/vault_fs.py:76-88 | the string prefix tests, said in segments |
| VaultDir.CoversMeans | datum_sync/vault_fs.py:76-88 | one pattern covers a directory exactly when it starts with `**`, goes on below the directory, or its segments before the first star lie at or above it |
| VaultDir.DirListedIff | datum_sync/vault_fs.py:63-88 | a directory is listed exactly when there is a scope with a read pattern that covers it so, and refused otherwise |
| VaultDir.SafeScopeLists | datum_sync/vault_fs.py:63-88 | with prefix-safe read patterns, a directory above any readable clean path is listable |
| VaultDir.UnsafeIsIncomplete | datum_sync/vault_fs.py:63-88 | every other pattern has a normal directory and a normal path it matches there that the test hides |
| VaultDir.ShortestIsLeast | datum_sync/vault.py:45-74 | the filled-in path is no longer than any clean path the pattern matches, and as clean |
| VaultDir.MatchedMeansFillable | datum_sync/vault_fs.py:63-88 | a pattern that matches any normal path matches the one got by filling it in |
| VaultDir.LoneStarIsHidden | datum_sync/vault_fs.py:84-87 | the whole family `*/name`, as paths of the vault |
| Jobs.JobStore.Submit | datum_sync/jobs.py:107-137 | one new row, queued, with the time it was submitted at, and its notice; every other row as it was |
| Jobs.JobStore.Claim | datum_sync/jobs.py:173-209 | nothing exactly when no queued row is left unlocked by other sessions; otherwise an oldest such job becomes running and nothing else changes |
| Jobs.JobStore.Log | datum_sync/jobs.py:212-235 | one log row, then a notice carrying its id |
| Jobs.JobStore.Finish | datum_sync/jobs.py:244-264 | whatever its status was, the row takes exactly the status and time given and keeps its other columns, every other row stays, then the notice |
| Jobs.JobStore.Cancel | datum_sync/jobs.py:267-302 | whatever became of the row since its status was read: cancelled exactly if it was read and still is queued, otherwise answered by its status as it is; which notice goes out |
| Jobs.JobStore.RequeueOrphans | datum_sync/jobs.py:322-344 | every running row and no other is queued again, started no more, with one log line each; nothing else of any row changes |
| Jobs.StatusesCountEveryJob | datum_sync/jobs.py:31 | the five statuses partition the jobs |
| Worker.StepKeepsInv | datum_sync/worker.py:54-289 | every step that gives up no lock over a live task keeps the system invariant and changes no finished row |
| Worker.CleanRunsAreSafe | datum_sync/worker.py:54-289 | in every run with crashes, restarts, submissions and cancels in which no lock is given up over a live task: one live task per job, live tasks' jobs running, at most `concurrency` tasks, `completed_at` exactly on finished rows, claims minus requeues 1 exactly when started and 0 otherwise |
| Worker.FinishedForever | datum_sync/jobs.py:253-258 | in such runs a finished row never changes again, though `finish` has no status guard |
| Worker.RowsMove | datum_sync/jobs.py:108-341 | what each step of the system makes of each job, column by column, whether it is the job of the step or not |
| Worker.WrittenStatusStays | datum_sync/jobs.py:253-258 | after any such run, the status and time a task writes on finishing are the job's, and still are in every such continuation |
| Worker.SafeToReleaseIffNoLiveTask | datum_sync/worker.py:74-83 | giving up the lock keeps finished rows final in every continuation that gives up no other lock over a live task exactly when the process has no live task |
| Worker.LiveTaskOverwrites | datum_sync/worker.py:74-83 | the run that goes wrong otherwise: requeued, cancelled, then overwritten as complete |
| Worker.JobsAreConserved | datum_sync/jobs.py:108-122 | in any run whatever no step loses a job, and each submission adds exactly one |
| Worker.Slots.Fill | datum_sync/worker.py:92-98 | the claim loop ends with all slots taken or nothing left to claim, changes only what it claimed, and claims nothing younger than what it leaves |
| Idempotency.OneJobPerKey | datum_sync/jobs.py:97-170 | in every interleaving of keyed submissions and aborts: one job per key and account, every returned id is that job, the unresolved-race branch is never reached |
| Idempotency.SameJobIffSameCaller | datum_sync/jobs.py:97-170 | two callers returning at any two moments of a run return the same job exactly when they arrived with the same key and the same account (an absent one counting as empty) |
| Idempotency.KeysKeepApart | datum_sync/jobs.py:124-156 | two arrivals lead to the same row of the key table exactly when key and account are the same |
| Idempotency.HolderCanMove | datum_sync/jobs.py:124-137 | whenever a key is held, its holder's commit is enabled and frees the waiters |
| OAuth.GrantStore.ExchangeCodeTxn | datum_sync/oauth.py:613-662 | the transaction on the tables is the exchange function |
| OAuth.GrantStore.RotateRefreshTxn | datum_sync/oauth.py:681-740 | the transaction on the tables is the rotation function |
| OAuth.GrantStore.ExchangeCode | datum_sync/oauth.py:593-610 | a recognised replay revokes the family and is answered `invalid_grant`; an incomplete request changes nothing; any other answer and state is the transaction's |
| OAuth.GrantStore.RotateRefresh | datum_sync/oauth.py:665-678 | the same for a refresh token |
| OAuth.GrantStore.Mint | datum_sync/oauth.py:518-549 | two consecutive rows, an access token and then a refresh token, each with its own lifetime from now and the grant given; unused before if the sequence was ahead of the rows, as it then stays |
| OAuth.GrantStore.RevokeFamily | datum_sync/oauth.py:497-515 | no token of the client and account is live afterwards; nothing but `revoked_at` of its live tokens has changed |
| OAuth.GrantStore.Revoke | datum_sync/oauth.py:746-771 | one token of the presenting client is revoked, anything else is ignored |
| OAuth.OnlyGrantsWrite | datum_sync/oauth.py:613-740 | a request that is not granted, replay included, leaves the tables as they were |
| OAuth.ExchangeGrants | datum_sync/oauth.py:613-662 | granted exactly under the seven conditions; the pair is an access and a refresh token of the code's grant, expiring their own lifetimes after now, and the code is marked used at now; a replay is a used code from its own client; a wrong audience is told apart |
| OAuth.RotateGrants | datum_sync/oauth.py:681-740 | granted exactly under the six conditions; the pair carries the token's grant with fresh lifetimes, the token is revoked at now and points to its successor; a replay is a rotated token from its own client; a wrong audience is told apart |
| OAuth.AudienceRule | datum_sync/oauth.py:643-716 | no audience asked keeps the one granted; one asked must equal it canonically, the server's own standing in for a grant without one |
| OAuth.GrantsTouchNothingElse | datum_sync/oauth.py:613-740 | a grant changes no code or token but the one presented and adds exactly the pair |
| OAuth.RefreshTokenLasts | datum_sync/oauth.py:518-740 | over runs: a refresh token neither revoked nor rotated, presented by its client with its audience under an active account, is granted exactly up to its lifetime after the request that minted it, by code or by rotation; the access token of the pair expires its own lifetime after that request |
| OAuth.CodesAreSingleUse | datum_sync/oauth.py:613-662 | in every run a code yields at most one pair, and none once used |
| OAuth.OneChainPerCode | datum_sync/oauth.py:518-740 | in every run the refresh tokens of a code form one acyclic `rotated_to` chain with at most one unrevoked, all keeping the code's client, account, resource and scope |
| OAuth.ReplaysAreRecognised | datum_sync/oauth.py:631-708 | a used code or rotated token presented by its client at any later time is answered as a replay |
| OAuth.AnsweredReplayEndsTheFamily | datum_sync/oauth.py:480-515 | once a replay is answered no token of that client and account is live; any later live one is new and descends from a code exchanged only afterwards |
| Events.EventStream.OnNotify | datum_sync/events.py:69-78 | other jobs' notices are ignored, a full queue loses its oldest entry, the bound is kept |
| Events.EventStream.Replay | datum_sync/events.py:86-94 | one frame per stored row in order; the cursor is the last id |
| Events.EventStream.Tail | datum_sync/events.py:113-143 | one turn of the tail: skip up to the cursor, send beyond it, re-read the row on a status notice |
| Events.OpeningMoves | datum_sync/events.py:81-100 | what the status read and the replay make of the reader, move by move |
| Events.ReaderKeepsOrder | datum_sync/events.py:85-143 | one step of replay or tail, whatever the queue holds, keeps the ids sent increasing with the cursor the last of them |
| Events.SentIsTheLogUpToTheCursor | datum_sync/events.py:62-143 | with a serial writer, in every run and at every moment, the ids sent are the job's ids after `Last-Event-ID` up to the cursor, less those an overflow dropped |
| Events.NoGapIffNothingLost | datum_sync/events.py:76-78 | so there is no gap exactly when no dropped id lies at or before the cursor |
| Events.NoOverflowNoGap | datum_sync/events.py:62-143 | with a queue that never overflows the ids sent are exactly that stretch of the log |
| Events.RunIsASession | datum_sync/events.py:62-143 | any such run is a connection in the sense of the next row |
| Events.ReconnectingClientMissesNothing | datum_sync/events.py:62-143 | over any list of runs without overflow, each resuming from the last cursor on a log that has only grown, everything sent is one gap-free stretch of the final log, without repeats |
| Events.ClosedStreamIsWholeIff | datum_sync/events.py:98-143 | in every run that the server ends, the whole log was sent exactly when nothing beyond the cursor is still on its way and nothing asked for was dropped |
| Events.StatusMayOvertakeLog | datum_sync/events.py:138-143 | a run of one serial writer in which the server ends the stream before any log line is sent |
| EventCrowd.IdsSentIncrease | datum_sync/events.py:62-143 | in every run, with any number of writers and any notices in any order, the ids sent strictly increase from `Last-Event-ID` and end at the cursor |
| EventGaps.DrainSendsAllIffAscending | datum_sync/events.py:115-129 | of one queue at one moment, without status notices: emptying it sends every log notice in it beyond the cursor exactly when those notices ascend |
| EventGaps.RunSendsRecords | datum_sync/events.py:103-143 | past the replay any run adds exactly the handled ids that exceed the cursor and all handled before them |
| EventGaps.HandledAreSentIffAscending | datum_sync/events.py:103-143 | whatever the notices, and at any moment: the ids handled so far, none of them twice, that were asked for are all sent exactly when those not sent before ascended from the cursor |
| EventGaps.NothingMissedIffAscending | datum_sync/events.py:62-143 | in every run of any number of writers without overflow, once every notice has been handled, the client has every row after `Last-Event-ID` exactly when the ids the tail handled in the run, less those already replayed, ascended from where the replay ended |
| EventGaps.CrossedNoticesLeaveAGap | datum_sync/jobs.py:212-235 | for any two ids, a run of two writers in which every row was announced and every notice handled, none waiting beside another, and the first row is never sent |
| Execute.WakeUpComesIffWriterLives | datum_sync/execute.py:79-113 | in every interleaving, a waiter whose job has finished is awake or has the notice to come exactly when the writer has not died; what it returns is the final status |
| Execute.DeadWriterMeansTimeout | datum_sync/execute.py:103-111 | a waiter whose writer died can only time out |
| Execute.FinishedJobIsReturned | datum_sync/execute.py:97-101 | a job already finished is returned without waiting |
| Execute.CrashLosesTheWakeUp | datum_sync/jobs.py:253-264 | for every final status, a run in which the writer dies between update and notice and the waiter sleeps on |
| Execute.JobWaiter.OnNotify | datum_sync/execute.py:89-95 | the event is set exactly when some notice heard so far was this job's terminal status, and this notice is now heard |
| Execute.JobWaiter.Answer | datum_sync/execute.py:97-111 | a timeout exactly when the row first read was unfinished and nothing heard in time was this job's end; otherwise the first read's status if terminal, else the second's |
| Schedules.Advance | datum_sync/schedules.py:232-252 | the capped loop computes the walk |
| Schedules.AdvanceInterval | datum_sync/schedules.py:229-252 | in closed form: the phase is kept up to 1000 missed periods and re-timed beyond, always within (moment, moment + s] |
| Schedules.AdvanceCron | datum_sync/schedules.py:64-86 | for a cron schedule the walk, the cap and `next_after` agree |
| Schedules.ScheduleTable.Update | datum_sync/schedules.py:160-214 | uninterrupted: a refused patch changes nothing; an accepted one merges, and re-times exactly when retimed or switched on |
| Schedules.ValidateDecides | datum_sync/schedules.py:45-61 | each fault of a definition, and its acceptance, said of its columns alone |
| Schedules.UpdatedColumns | datum_sync/schedules.py:160-214 | an accepted patch, column by column: what was given replaces, the rest stays; `next_run` is anew from now exactly when cron, interval or zone was given or the schedule was switched on |
| Schedules.UpdateRefusedIff | datum_sync/schedules.py:160-193 | a patch is refused exactly when the definition it would make is faulty or its parameters are |
| Schedules.ScheduleTable.WriteBack | datum_sync/schedules.py:197-214 | interrupted: trigger, switch and `next_run` decided from the row as read overwrite the row as it is, and nothing else does |
| Schedules.ScheduleTable.Fire | datum_sync/schedules.py:278-324 | fires exactly if still due, and then moves the row past now |
| Schedules.ScheduleTable.RunDue | datum_sync/schedules.py:255-275 | every due row fires once and no other row changes, whatever became of each submission |
| Schedules.FiredIsNotDue | datum_sync/schedules.py:278-324 | a fired schedule is not due again at that instant, however late it was |
| Schedules.ResumedIsNotDue | datum_sync/schedules.py:195-202 | switching a schedule back on makes its next run a future one |
| ScheduleRuns.WriteStaysPacedIffSafe | datum_sync/schedules.py:197-214 | writing a patch keeps every continuation with safe writes paced (no period answered twice, none begun before the last fire answered later) exactly when the `next_run` it would enable lies a period after the last one answered and after the last fire |
| ScheduleRuns.UnfiredPatchIsSafe | datum_sync/schedules.py:195-214 | any patch is safe to write if nothing fired since its read |
| ScheduleRuns.PlainPatchIsSafeIffUnfired | datum_sync/schedules.py:195-214 | with only ticks since its read, a patch that leaves the timing alone is safe to write exactly when none of them fired |
| ScheduleRuns.MissedRunsStayMissed | datum_sync/schedules.py:160-321 | over any ticks, pauses, resumes and refused patches, reads and writes apart, whose writes are safe, fires up to T never exceed floor((T - first)/period) + 1 |
| ScheduleRuns.UninterruptedPatchesKeepTheBound | datum_sync/schedules.py:160-321 | in particular in every run in which no fire falls between a patch's read and its write |
| ScheduleRuns.NoBurst | datum_sync/schedules.py:195-321 | in such runs two fires with m others between them are more than m periods apart |
| ScheduleRuns.StalePatchFiresTwice | datum_sync/schedules.py:174-214 | for every interval schedule, the run in which new parameters sent around a fire make the same period fire twice |
| Automations.SelfTriggerCheckIsExact | datum_sync/automations.py:595-613 | the authoring check refuses only automations that watch their own jobs, and misses one exactly when a filter is the empty string and one of its own jobs passes the other filter |
| Automations.ChainIsWalk | datum_sync/automations.py:494-519 | a chain of automation-submitted jobs is a walk in the graph without self-edges |
| Automations.AcyclicChainsAreShort | datum_sync/automations.py:433-519 | with an acyclic graph no job leads to more jobs in a row than there are automations |
| Automations.CycleIsUnbounded | datum_sync/automations.py:506-519 | a cycle of enabled automations has chains of every length from an external job |
| Automations.BoundedIffAcyclic | datum_sync/automations.py:433-583 | chains from external jobs are bounded exactly when the graph has no cycle |
| Automations.PairRunsForEver | datum_sync/automations.py:506-519 | two automations that run each other's workspaces are unbounded |
| Automations.Engine.Fire | datum_sync/automations.py:522-562 | every action is tried and recorded; the run is not ok exactly when one raised |
| Automations.Engine.Consider | datum_sync/automations.py:433-491 | a finished job is claimed once, before anything fires, and adds rows for exactly the automations that are enabled, old enough, pass their three filters and did not cause the job, each with what became of each action |
| Automations.FiresMeans | datum_sync/automations.py:473-519 | an automation fires exactly when it is enabled, created no later than the job ended, each filter is absent, empty (repository, workspace) or equal to the job's value, and the job's cause is not its own |
| Automations.RunsForMeans | datum_sync/automations.py:473-562 | the rows written for a job are those of the automations that meet these conditions on their columns: none for another, one at least for each, with the outcome of each action in order |
| Automations.OneRowPerFiring | datum_sync/automations.py:473-491 | those rows are one for each automation that meets these conditions and none for any other |
| Automations.OkDespiteFailureIff | datum_sync/automations.py:526-549 | a run is recorded as ok over a failed result exactly when no action raised and some action returned a failure |
| Firing.StepKeepsInv | datum_sync/automations.py:410-491 | every step of overlapping `consider` calls, workers, clients and edits keeps the firing invariant and takes nothing back |
| Firing.FiresAtMostOnce | datum_sync/automations.py:433-491 | in every run each automation acts at most once on a job, only if enabled, with every filter absent, empty or equal to the job's value, not caused by itself and created no later than the job ended; a call has delivered exactly what meets these among what it has come past |
| Firing.EachDeliveryWasDue | datum_sync/automations.py:473-519 | each delivery of a run, on its own: its automation met these conditions, with the job's repository, workspace and cause |
| Firing.StepKeepsTruth | datum_sync/jobs.py:335-341 | no worker's or client's step contradicts the status and end time a call has read or acted on, as long as no lock is given up over a live task |
| Firing.ActedOnForEver | datum_sync/automations.py:465-491 | in such runs a delivery is never taken back, and the status it acted on is the job's for ever |
| Firing.ConsequencesAreBounded | datum_sync/automations.py:433-583 | in every run, if the automations that fired form no cycle, no line of deliveries, each on a job an action of the one before submitted, is longer than there are such automations |
| RateLimit.RateLimiter.Prune | datum_sync/ratelimit.py:66 | the comprehension keeps the times of the last sixty seconds |
| RateLimit.RateLimiter.Evict | datum_sync/ratelimit.py:75-78 | the eviction pass drops exactly the stale accounts |
| RateLimit.RateLimiter.Check | datum_sync/ratelimit.py:61-82 | one call's answer and the new dictionary |
| RateLimit.PruningIsInvisible | datum_sync/ratelimit.py:61-82 | over any calls in time order, pruning and eviction answer as the full admission history would |
| RateLimit.AdmittedIffUnderLimit | datum_sync/ratelimit.py:61-82 | a call is admitted exactly when it has no limit or fewer of its account's calls than the limit were admitted in the sixty seconds before it |
| RateLimit.WindowHoldsAtMostLimit | datum_sync/ratelimit.py:66-82 | under limits of at most `limit`, every half-open sixty seconds hold at most `limit` calls of an account that the code admitted |
| RateLimit.WaitingIsEnough | datum_sync/ratelimit.py:68-73 | a refused caller under a fixed limit of at least one is told 1 to 61 seconds and is admitted after them if no call of its account was admitted in between |
| RateLimit.WaitingLessIsRefused | datum_sync/ratelimit.py:68-73 | and a call of that account more than a second before that wait is over, none admitted in between, is refused again |
| RateLimit.FailsExactlyOnEmptyWindow | datum_sync/ratelimit.py:68-73 | when the code raises instead of answering |
| Manifest.ParsePrintNat | datum_sync/manifest.py:205-212 | a printed natural number parses to itself |
| Manifest.PrintedReadsBack | datum_sync/manifest.py:205-212 | a printed integer reads back as itself exactly when it has no more digits than `int` accepts |
| Manifest.PrintedIntParses | datum_sync/manifest.py:205-212 | any text `int` accepts, printed and read again, gives the same number |
| Manifest.ParsesIffShaped | datum_sync/manifest.py:205-212 | digits are read exactly when they begin and end with a digit and part digits by single underscores |
| Manifest.ParsesToItsDigits | datum_sync/manifest.py:205-212 | what is read is the number the digits denote |
| Manifest.SignDecides | datum_sync/manifest.py:205-212 | outer white space and a leading plus are ignored, a leading minus negates, more than 4300 digits are refused |
| Manifest.CoerceDecides | datum_sync/manifest.py:192-231 | for each type, which values coerce to which: the words for true and for false, no boolean as a number, the text of a number, the listed choices |
| Manifest.CoerceAgain | datum_sync/manifest.py:192-231 | coercing an accepted value again changes nothing |
| Manifest.ValidateParams | datum_sync/manifest.py:234-263 | accepted exactly as declared, each value coerced or defaulted; refused for all unknown names, else the first bad value, else all that is missing |
| Manifest.AnswerIsUnique | datum_sync/manifest.py:234-263 | that specification has one answer for every submission |
| Manifest.ChoiceDefaultIsFixed | datum_sync/manifest.py:57-67 | the default of a checked choice is a fixed point of coercion |
| Manifest.CheckDecides | datum_sync/manifest.py:57-75 | a parameter passes exactly when a choice has choices that list its default, nothing else has choices, and nothing required has a default |
| Manifest.RequiredIsSupplied | datum_sync/manifest.py:69-75 | a required parameter is never left to a default |
| Manifest.ResubmissionKeepsIffDefaultsStay | datum_sync/api.py:825-829 | validating a stored set again returns the same set exactly when every default it fell back on is a fixed point of coercion |
| Manifest.SecondResubmissionIsStable | datum_sync/api.py:825-829 | an accepted resubmission settles the values for every later one |
| Manifest.LooseDefaultIsRefusedLater | datum_sync/manifest.py:255-256 | a stored default that is refused on resubmission |
| Manifest.LooseDefaultChangesLater | datum_sync/manifest.py:255-256 | a stored default that changes on resubmission |

## Left out

- Routes, middleware, audit writers, the account command line and the web pages: request plumbing.
- `runner.py`, `child.py`, `uploads.py`, `services.py` and the file operations of `vault_fs.py`: operating-system effects. A worker's children die with it.
- `proxy.py`, `_fetch`, `_resolve_public`, YAML parsing, template rendering: foreign code and text.
- SHA-256, argon2, AES-GCM, token randomness, `crypto.py`, `connections.py`: identifiers stand for digests, and the digest of a PKCE verifier is a parameter (a verifier with characters outside ASCII, which raises, is not told apart from a wrong one).
- The password lockout of `auth.py`: its check and its record are separate steps, so only a sequential copy of the rate limiter's result would hold.
- Isolation levels below the steps named above; row locks appear as atomic steps and `ON CONFLICT` as waiting. This touches `OAuth.AnsweredReplayEndsTheFamily`: a rotation in flight while `_revoke_family` runs (`oauth.py` lines 497-515 and 687-740) can commit a successor that the revoking statement's snapshot does not see.
- Migrations, the rest of the manifest document checks, repository sync and `tools/`.
- `artifacts`, `error` and progress columns, and job parameters in the job table: they do not take part in any decision modelled.
- Deleting accounts, clients, schedules or jobs, and the cascades that follow.
- The worker's wake and stop flags and its poll period: they decide when a step is taken, not which. `once` likewise.
- Losing the lock connection while the process lives on: a worker's lock is lost only with the process or by its own unlock.
- A log writer that dies between its row and its notice, for readers already tailing: the writer in `Events` is serial, and `EventCrowd`, where it may happen, promises order. `Execute` does model the same death for the finish notice.
- Trigger filters that are neither absent nor strings.
- A log notice whose `id` is not an integer, and notices that exceed the payload limit.
- Two automations renamed to each other's names while a chain runs: `BoundedIffAcyclic` is about a fixed set of automations, all enabled.
- `last_fired` and `last_error` of an automation, and a database error inside `_fire`, which ends the call as a cut does.
- A clock that goes back, and a tick that reads it well before it finds its row.
- Patches to a schedule with unknown keys, patches that change the interval (`ScheduleRuns` keeps it fixed), a null `next_run`, and a database error inside `_fire` of `schedules.py` that aborts its transaction.
- Local-time ambiguity of cron expressions: the cron library is a function to the least later instant of a set.
- Decimal digits outside ASCII, which `int` also reads; NaN and infinities; equality between an integer and the float of the same value (`Manifest` tells 1 from 1.0, as the stored JSON does).
- A path or pattern that is not a string (refused by the source before anything modelled here), except in scope documents, where it is modelled.
- Worker.CleanRunsAreSafe: an exception that leaves `_loop` while tasks live is covered only as the death of the process; what happens when the process survives it is `Worker.SafeToReleaseIffNoLiveTask`.
- Worker.Slots.Fill: the other sessions are a set of rows they keep locked throughout the pass; rows they change during it, and tasks that end during it, are in `Worker`'s transition system only.
- Events.EventStream.Tail: keep-alive frames are not modelled; they change no state.
- RateLimit.RateLimiter.Check: clock readings are real numbers, so the rounding of floating-point subtraction is not modelled.
- VaultDir.CompleteIffPrefixSafe: patterns are star-confined, which is what a stored scope holds. That `list_dir` then checks each child under the directory as it was written, not as normalised, is left out.
- Firing.FiresAtMostOnce: that an automation begins to act is one step, and each job it submits another; a call cut off inside them counts as having acted.
- OAuth.AnsweredReplayEndsTheFamily: a process that dies between recognising a replay and revoking leaves the family live, so the result is about replays that were answered.
