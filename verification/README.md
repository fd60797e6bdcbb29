# A verified model of AD-Wiki's protocols and algorithms

This Dafny project models the parts of AD-Wiki whose correctness is not visible from reading one function:
the backup write barrier, the two-way synchronisation with Microsoft To Do, the backup schedule and its
exactly-once scheduler, backup retention, the three refresh-token protocols, the conflict check for
standards, checklist toggling, keyset paging, the publication of backup artifacts, and the names in an
export archive.  `dafny verify dfyconfig.toml` checks everything.

## How it is modelled

| module | what it models | form |
|---|---|---|
| `WriteBarrier` | `backup-coordination.service.ts`, the write-barrier interceptor, `createConsistentArtifact` | a class for the in-memory mode; both Redis scripts as functions; a state machine of writes and workers over keys with expiry times, and of processes with and without a common store |
| `TodoSync`, `TodoSyncService` | `performSync`, `reconcileTask`, `importTask`, the `syncingConnections` guard | the specification of a run and its theorems; classes whose loops compute it |
| `Schedule`, `Scheduler` | `nextScheduledRun`; `scheduleDuePlans`, `createPlan`, `updatePlan`, `deletePlan` | loops over an abstract local-time function; a state machine of scheduler instances, and one cycle as a class |
| `Retention`, `IsoWeek` | `expiredBackupJobIds`, `applyRetention`; `bucketKey`, `isoWeek` | loops against a greedy specification; calendar arithmetic with the runtime's real division |
| `Sessions`, `TokenClient` | `refreshToken`, `issueTokens`, `logout`, password changes; `tryRefresh`, `doRefresh` | transactions and, separately, single statements as steps; the client composed with the server over a lossy network |
| `McpOAuth` | `mcp-oauth.service.ts` | a class for uninterrupted calls, a state machine of single statements |
| `Standards` | `evaluateRule`, `ruleConflict`, `detectStandardConflicts`, `evaluate` | nested loops against specifications; satisfiability |
| `Checklist` | `toggleMarkdownTaskItem` | an in-place loop over an array of parts |
| `Keyset` | list, search and audit paging | cursor conditions as written, against strict total orders |
| `Artifact` | checksum file, verification, rename and object-store publication | loops; state machines in which every prefix of steps may be the last |
| `ExportNames` | `folderPath`, `uniqueName` | loops with termination by counting |
| `Options`, `Collections`, `JsText` | optional values, finite sets and prefixes, the runtime's `trim` and `\s` | shared helpers |

A Redis script or command, a database statement or transaction, a file-system operation or request, and a
function body between two `await`s is one step.  Clocks, fresh ids, the order of rows, expiry times from configuration,
hash functions, regular expressions, lower-casing and JSON are parameters; ids and tokens that the source
draws at random are ids that were never issued before.

## Where the code and what one might expect differ

- `isoWeek` is not the ISO week for 1 to 3 January 100: their week year is 99, and `Date.UTC(99, 0, 1)` means
  1999.  `IsoWeek.IsoWeekIsStandard` states that these three dates are the only exceptions from year 100 on; their wrong
  key still belongs to no other week.
- Snapshot isolation needs a counter key that never lapses while writes are unfinished, and a dump within the
  life of its barrier key.  Every admitted write renews the counter key, so a long write is covered as long as
  others follow it; `WriteBarrier` proves when exactly each of the two is missed.
- A leave or a reply that is lost keeps one write counted until the counter key lapses, so drains time out until
  then: the surplus is at most the number of lost messages (`WriteBarrier.CounterIsExact`), and each adds to it
  (`LostMessagesCount`).
- Without Redis every process keeps locks and counter in its own memory, and the backup worker is a process of
  its own, so it is not isolated from the API at all (`WriteBarrier.IsolatedExactlyWhenShared`).  The source
  refuses to start without Redis in production.
- Discarding the tokens on logout does not stop a refresh that is already pending: `TokenClient.LogoutRace` is such
  a run, and `LogoutIsFinalExactlyWhen` says when it cannot happen.  A client can check the simplest case, that
  none is pending (`LogoutIsFinal`).
- The lookback of 180 minutes keeps a local minute from running twice exactly when it sees every repetition
  (`Schedule.NeverTwiceExactlyWhen`); a longer setback runs twice (`LongSetbackRunsTwice`).
- A refresh with `expiresAt` equal to the present passes the first check and fails the conditional update, so it is
  answered as invalid (`Sessions.RefreshOutcomes`).
- Revoking a token family does not stop a rotation that has already claimed its token; `Sessions` and
  `McpOAuth` each prove that this is the only gap (`RevocationIsFinalExactlyWhen`), and `Sessions` the same for
  the deletion of a user's sessions.
- Pairwise freedom from conflicts makes rules jointly satisfiable only if prohibitions leave room above the
  smallest allowed amount: amounts in the API start at 1, so with the floor 1 a prohibition from 1 on cannot be
  met, and no pair shows it.
  `detectStandardConflicts` compares rules of different standards only, so `Standards.NoConflictsMeansSatisfiable`
  also asks for the pairs within one standard.
- A rule evaluated against a target with missing values is unknown and does not fail; the satisfiability
  theorem is therefore about fully specified targets.
- The second barrier check inside the enter script, and its in-memory twin, cannot be reached within one atomic
  step and are not modelled; neither is the in-transaction re-read that would find a row rotated meanwhile
  when the transaction is one step (the statement-level machine has it).

## Model

| member | source | states |
|---|---|---|
| `WriteBarrier.SnapshotIsolation` | apps/api/src/backup-worker/backup-job-worker.service.ts:386-412 | In every interleaving of any number of HTTP writes and workers that share a store, while a worker dumps under an unexpired barrier no admitted write is unfinished, the barrier key is its own, no other worker drains or dumps under an unexpired one, and no write is admitted, provided the counter key never lapses while writes are unfinished |
| `WriteBarrier.IsolatedExactlyWhenShared` | apps/api/src/modules/backups/backup-coordination.service.ts:31-49 | Two processes are isolated in every run that keeps the counter keys exactly when they share a store: always with Redis, and without it only within one process |
| `WriteBarrier.DrainReadingIsExact` | apps/api/src/modules/backups/backup-coordination.service.ts:127-133 | With unfinished writes the drain reads zero exactly when the counter key has lapsed; otherwise it reads at least their number; in memory it never lapses |
| `WriteBarrier.CounterIsExact` | apps/api/src/modules/backups/backup-coordination.service.ts:78-103 | In both modes, in every run in which the key never lapses over unfinished writes, the counter lies between their number and that number plus the lost replies and leaves; without lost messages it is their number |
| `WriteBarrier.LostMessagesCount` | apps/api/src/modules/backups/backup-coordination.service.ts:78-103 | Each lost leave of an unfinished write, and each lost reply to an admission, adds exactly one to the surplus |
| `WriteBarrier.DrainEndsExactlyWhenIdle` | apps/api/src/modules/backups/backup-coordination.service.ts:127-133 | In such a run without lost messages, a draining worker that polls begins its dump exactly when no write is unfinished, and otherwise gives up exactly from half a minute after it took the barrier |
| `WriteBarrier.EnterRenewsCounter` | apps/api/src/modules/backups/backup-coordination.service.ts:9-18 | An admitted write counts one more and gives the native key six more hours, which a leave in between does not shorten or extend; the counter in memory never lapses |
| `WriteBarrier.LateLeaveResets` | apps/api/src/modules/backups/backup-coordination.service.ts:96-103 | A leave that finds a count of zero ends with a count of zero, natively by the second statement and under a key that lives six hours |
| `WriteBarrier.StaleTokenNeverRemovesBarrier` | apps/api/src/modules/backups/backup-coordination.service.ts:117-125 | In every run, whatever happens to the counter, no step but the passing of time, in particular no release with an old token, changes the barrier of a worker whose own key has not expired |
| `WriteBarrier.WritesResume` | apps/api/src/backup-worker/backup-job-worker.service.ts:409-411 | After a snapshot, the owner's release, or the expiry of the key, admits writes again |
| `WriteBarrier.LapsedCounterBreaksIsolation` | apps/api/src/backup-worker/backup-job-worker.service.ts:392-408 | From every state over unfinished writes, a worker that takes the free barrier and polls dumps over them exactly when the counter key has lapsed |
| `WriteBarrier.LongWriteIsDumpedOver` | apps/api/src/modules/backups/backup-coordination.service.ts:9-18 | A single write of any length is dumped over exactly when it reaches the life of the counter key |
| `WriteBarrier.LongDumpAdmitsWrite` | apps/api/src/backup-worker/backup-job-worker.service.ts:392-395 | A write is admitted beside a dump of any length exactly when the dump reaches the life of the barrier key |
| `WriteBarrier.InvariantOnRuns` | apps/api/src/modules/backups/backup-coordination.service.ts:78-133 | The counter, token, barrier and isolation invariants hold together after every run in which the counter key never lapses over unfinished writes |
| `WriteBarrier.WaitForWritesToDrain` | apps/api/src/modules/backups/backup-coordination.service.ts:127-133 | The loop ends drained only on a reading of zero or less, times out only at a positive reading at or after the deadline, and waits on every earlier one |
| `WriteBarrier.MemoryCoordination.ClearExpiredMemoryLocks` | apps/api/src/modules/backups/backup-coordination.service.ts:186-191 | Exactly the locks that have not expired remain |
| `WriteBarrier.MemoryCoordination.EnterWriteInMemory` | apps/api/src/modules/backups/backup-coordination.service.ts:78-94 | The body has the effect of the enter script on the same keys: refused under a live barrier, otherwise one more write |
| `WriteBarrier.MemoryCoordination.LeaveWriteInMemory` | apps/api/src/modules/backups/backup-coordination.service.ts:96-103 | One write less, never below zero, and no lock changes |
| `WriteBarrier.MemoryCoordination.AcquireLockInMemory` | apps/api/src/modules/backups/backup-coordination.service.ts:56-67 | Granted exactly when no live lock holds the key; other live locks are kept |
| `WriteBarrier.MemoryCoordination.AcquireWriteBarrierInMemory` | apps/api/src/modules/backups/backup-coordination.service.ts:105-115 | The body has the effect of SET NX PX on the barrier key |
| `WriteBarrier.MemoryCoordination.ReleaseWriteBarrierInMemory` | apps/api/src/modules/backups/backup-coordination.service.ts:117-125 | Only the holder's token removes the barrier; no other lock is removed |
| `TodoSync.SyncConverges` | apps/api/src/modules/integrations/microsoft-integration.service.ts:292-403 | After one successful run from any state with unique mappings, a second run with no outside edits succeeds, imports, updates and deletes nothing, and leaves the state unchanged, whatever the order of rows and the time |
| `TodoSync.CrashedRunConverges` | apps/api/src/modules/integrations/microsoft-integration.service.ts:292-403 | A run that stops between two items of the first loop, between the two writes of one, or between two turns of the second loop leaves a state from which the next successful run converges |
| `TodoSync.SuccessSettles` | apps/api/src/modules/integrations/microsoft-integration.service.ts:332-371 | After a successful run every listed task is mapped and in step with its note, and every mapping whose task is gone from a fetched list has no live note |
| `TodoSync.OnlyJustifiedChanges` | apps/api/src/modules/integrations/microsoft-integration.service.ts:351-371 | Whether or not a run succeeds, a note changes only because its task changed and prevails, or because its list was fetched in this run and its task was absent; a task changes only because its note changed and prevails |
| `TodoSync.TakenTextAgrees` | apps/api/src/modules/integrations/microsoft-integration.service.ts:563-583 | After the task's text is taken, the two hashes agree exactly when the trimmed title is neither empty nor longer than the limit for note titles |
| `TodoSync.ImportedText` | apps/api/src/modules/integrations/microsoft-integration.service.ts:606-657 | An imported note has the trimmed body, else the trimmed title, else the default text as its content and the trimmed title or the default as its title; its hashes agree exactly when the trimmed title is not empty |
| `TodoSync.TakenText` | apps/api/src/modules/integrations/microsoft-integration.service.ts:563-571 | Taking the task gives the note the first 200 characters of the trimmed title or the default, and the same content as an import |
| `TodoSync.PushedText` | apps/api/src/modules/integrations/microsoft-integration.service.ts:664-684 | The pushed title is the first 200 characters of the trimmed title, else of the plain text, else of the default; the pushed body the first 65000 characters of the trimmed content |
| `TodoSync.HashesSeeTheText` | apps/api/src/modules/integrations/microsoft-integration.service.ts:686-692 | Notes hash alike exactly when trimmed titles and contents are equal, tasks exactly when trimmed titles and the contents that an import would show are |
| `TodoSync.WhoPrevails` | apps/api/src/modules/integrations/microsoft-integration.service.ts:543-603 | Of a mapped live note and its task, the task prevails exactly when it changed and the note did not or earlier; otherwise the note is pushed if the task is still in its list; without a change nothing happens |
| `TodoSync.ChosenAreReconciled` | apps/api/src/modules/integrations/microsoft-integration.service.ts:322-349 | A mapped task is reconciled exactly when its mapping belongs to a note, has a selected list and is not detached; otherwise it is skipped and never imported again |
| `TodoSync.UnchosenStay` | apps/api/src/modules/integrations/microsoft-integration.service.ts:322-371 | Whether or not it succeeds, a run changes no other mapping |
| `TodoSync.CountsMeanChanges` | apps/api/src/modules/integrations/microsoft-integration.service.ts:381-384 | A run counts as imported exactly the notes that it creates, and a run that counts no change has changed no note and no task |
| `TodoSync.ProcessTaskStep` | apps/api/src/modules/integrations/microsoft-integration.service.ts:332-349 | One turn of the task loop keeps mappings unique, touches only that task, its mapping and its note, and leaves nothing to do for the task unless an error was thrown |
| `TodoSync.ImportCreates` | apps/api/src/modules/integrations/microsoft-integration.service.ts:606-657 | Importing creates exactly one note with its mapping, with both hashes in step, when the task has an id and no mapping at all; otherwise it changes nothing |
| `TodoSync.ImportStep` | apps/api/src/modules/integrations/microsoft-integration.service.ts:606-657 | Importing keeps the unique constraints, touches nothing of other tasks, and leaves nothing to do for its own |
| `TodoSync.CreatedNotes` | apps/api/src/modules/integrations/microsoft-integration.service.ts:332-349 | Every note that a run creates belongs to exactly one new mapping, of a listed task that had none; every new mapping has such a note, and no task gets two |
| `TodoSync.ReconcileStep` | apps/api/src/modules/integrations/microsoft-integration.service.ts:525-604 | Reconciling changes only the given mapping, its note and its task, and leaves them in step |
| `TodoSync.SettledTaskIsFixed` | apps/api/src/modules/integrations/microsoft-integration.service.ts:556-561 | A task that is in step is skipped and nothing changes |
| `TodoSync.VanishedStep` | apps/api/src/modules/integrations/microsoft-integration.service.ts:351-371 | One turn of the second loop keeps what the task loop settled and settles its own mapping |
| `TodoSyncService.MicrosoftIntegration.ReconcileTask` | apps/api/src/modules/integrations/microsoft-integration.service.ts:525-604 | The method body has exactly the effect and outcome of the reconciliation function |
| `TodoSyncService.MicrosoftIntegration.ImportTask` | apps/api/src/modules/integrations/microsoft-integration.service.ts:606-657 | The method body has exactly the effect and outcome of the import function |
| `TodoSyncService.MicrosoftIntegration.FetchTasks` | apps/api/src/modules/integrations/microsoft-integration.service.ts:310-320 | The loop over the selected lists lists exactly the tasks of lists that exist, each once, counts the missing lists, and records which lists were fetched |
| `TodoSyncService.MicrosoftIntegration.SyncTasks` | apps/api/src/modules/integrations/microsoft-integration.service.ts:332-349 | The task loop computes the task phase and stops at the first error |
| `TodoSyncService.MicrosoftIntegration.SyncVanished` | apps/api/src/modules/integrations/microsoft-integration.service.ts:351-371 | The loop over the mappings read before the first loop computes the second phase |
| `TodoSyncService.MicrosoftIntegration.RunSync` | apps/api/src/modules/integrations/microsoft-integration.service.ts:292-403 | A whole run computes `PerformSync`, on which convergence is proved |
| `TodoSyncService.SyncGuard.TryBegin` | apps/api/src/modules/integrations/microsoft-integration.service.ts:281-284 | A run begins exactly when none is under way for the connection |
| `TodoSyncService.OneRunPerConnection` | apps/api/src/modules/integrations/microsoft-integration.service.ts:276-290 | In every interleaving of beginnings and endings on one instance, the set holds exactly the connections with a run under way, and no two runs share one |
| `Schedule.NextScheduledRun` | apps/api/src/modules/backups/backup-schedule.ts:23-42 | The result is the first minute after the given time and within 15 days at which the local clock shows the planned hour and minute of a planned weekday of some week, and which it did not show in the three hours before; none is reported exactly when there is no such minute |
| `Schedule.MatchesExactly` | apps/api/src/modules/backups/backup-schedule.ts:30-36 | The comparison of hour, minute and weekday accepts exactly the local minutes that lie at the planned time on a planned day of some week |
| `Schedule.MatchesOnDate` | apps/api/src/modules/backups/backup-schedule.ts:30-36 | On each calendar date it accepts the planned minute only, and exactly if the day, counted from the Monday of its week, is planned |
| `Schedule.NextRunExactly` | apps/api/src/modules/backups/backup-schedule.ts:23-42 | The specification of the search on minutes is the same as the one on the calendar |
| `Schedule.IsSecondOccurrence` | apps/api/src/modules/backups/backup-schedule.ts:88-99 | True exactly when one of the 180 minutes before shows the same local date and time |
| `Schedule.SearchAlwaysFinds` | apps/api/src/modules/backups/backup-schedule.ts:23-42 | With at most one offset change, of any size in either direction, in the window and the lookback before it, and any weekday set, the search finds a run and never throws |
| `Schedule.LongSetbackRunsTwice` | apps/api/src/modules/backups/backup-schedule.ts:88-99 | After any setback longer than the lookback the same local minute runs twice |
| `Schedule.NextRunIsUnique` | apps/api/src/modules/backups/backup-schedule.ts:23-42 | The specification of the search has exactly one answer |
| `Schedule.NextRunIsLater` | apps/api/src/modules/backups/backup-schedule.ts:25-28 | A result is strictly later than the given time and no run lies in between |
| `Schedule.NeverTwiceExactlyWhen` | apps/api/src/modules/backups/backup-schedule.ts:88-103 | For every zone whose local time is ahead of UTC by a bounded amount, no plan runs twice at the same local date and time exactly when every repeated local minute also occurred within the lookback before it |
| `Schedule.OncePerLocalMinute` | apps/api/src/modules/backups/backup-schedule.ts:23-99 | In such a zone, feeding results back in gives a strictly increasing chain that never shows the same local date and time twice |
| `Schedule.ChainMissesNothing` | apps/api/src/modules/backups/backup-schedule.ts:23-42 | That chain contains every run up to its last element |
| `Schedule.RunsDifferLocally` | apps/api/src/modules/backups/backup-schedule.ts:88-103 | Two different runs never show the same local date and time when every repeated local minute also occurred within the lookback before it |
| `Scheduler.ExactlyOnce` | apps/api/src/modules/backups/backup-scheduler.service.ts:46-106 | For any number of instances with stale reads, no lock, crashes and plan changes in between, two jobs of a plan have different due times, both before its next run, and the later one is due after the cycle that made the earlier one |
| `Scheduler.ConstraintNeverHit` | apps/api/src/modules/backups/backup-scheduler.service.ts:66-103 | A plan's next run never has a job already, so the unique constraint is never what prevents a second one |
| `Scheduler.DuePlanGetsItsJob` | apps/api/src/modules/backups/backup-scheduler.service.ts:54-103 | In every reachable state, a due plan gets a job for the time it was due, and the first planned time after the present as its next run, from any idle instance that runs a cycle over it |
| `Scheduler.NoLocalMinuteTwice` | apps/api/src/modules/backups/backup-scheduler.service.ts:65-71 | While a plan keeps one timing from its creation on, however often it is disabled, enabled again or saved with that timing, no two of its jobs are due at the same local date and time, if repeated local minutes are seen by the lookback |
| `Scheduler.RunKeeps` | apps/api/src/modules/backups/backup-scheduler.service.ts:46-106 | The invariant behind these holds after every run of scheduler steps and plan changes |
| `Scheduler.PlanStepKeeps` | apps/api/src/modules/backups/backups.service.ts:152-243 | Creating, changing and deleting plans keep the invariant, and a plan that is new or changed has as its next run the first planned time after the present in its own time zone if it is enabled, and none otherwise |
| `Scheduler.PlanUpdateMeans` | apps/api/src/modules/backups/backups.service.ts:183-228 | A change sets what it names, recomputes the next run from the final timing whenever it names either, leaves all other plans alone, and fails exactly when an enabled plan would have no next run |
| `Scheduler.BackupScheduler.HandleRead` | apps/api/src/modules/backups/backup-scheduler.service.ts:54-103 | One turn of the loop is the claim on the row as it was read, with its three outcomes |
| `Scheduler.BackupScheduler.ScheduleDuePlans` | apps/api/src/modules/backups/backup-scheduler.service.ts:46-106 | An uninterrupted cycle gives every handled plan whose next run is not still to come the first planned time after now, exactly one job, for the time it was due, to each that was due, and changes nothing else |
| `Retention.ExpiredBackupJobIds` | apps/api/src/modules/backups/backup-retention.ts:13-26 | The result is exactly the ids outside the kept set, once each, newest first |
| `Retention.KeepBuckets` | apps/api/src/modules/backups/backup-retention.ts:28-43 | The loop adds to the shared set exactly the picks of its unit |
| `Retention.PicksMeansPicked` | apps/api/src/modules/backups/backup-retention.ts:36-42 | A candidate is picked exactly when it is the newest of its bucket and fewer than the limit of buckets are newer |
| `Retention.KeptSurvivesPruning` | apps/api/src/modules/backups/backup-retention.ts:13-42 | Retention over any set between the kept backups and all of them keeps exactly the same backups |
| `Retention.OnlineEqualsBatch` | apps/api/src/modules/backups/backup-retention.ts:13-42 | Pruning after each newer backup, with any prune interrupted anywhere, and one pass over the whole history keep the same backups |
| `Retention.DroppedForever` | apps/api/src/modules/backups/backup-retention.ts:13-42 | A backup that a pass would delete is wanted by no later pass, however many newer backups arrive |
| `Retention.SortSorts` | apps/api/src/modules/backups/backup-retention.ts:18 | The sort is a permutation of the candidates, newest first |
| `Retention.SortIsStable` | apps/api/src/modules/backups/backup-retention.ts:18 | Candidates of one creation time stay in their order |
| `Retention.ApplyRetention` | apps/api/src/backup-worker/backup-job-worker.service.ts:414-462 | The pass deletes exactly the expired artifacts that it can up to the first failure, passing over jobs without a destination, and never a kept one |
| `IsoWeek.IsoWeekIsStandard` | apps/api/src/modules/backups/backup-retention.ts:65-72 | For valid dates from year 100 on, the result is the ISO week (1 to 53, week 1 has the first Thursday; section 4.1.4 of ISO 8601:2004) exactly when the date is not one of the first three days of year 100 |
| `IsoWeek.ComputeIsoWeek` | apps/api/src/modules/backups/backup-retention.ts:65-72 | Shifting a date object to its Thursday in place and counting weeks gives the standard's week of the date, except for the three misread days |
| `IsoWeek.SameWeekSameKey` | apps/api/src/modules/backups/backup-retention.ts:65-72 | Any two valid dates from year 100 on, the misread days included, get the same year and week exactly when they lie in the same Monday-to-Sunday week |
| `IsoWeek.SameBucket` | apps/api/src/modules/backups/backup-retention.ts:45-63 | For any two valid dates from year 100 on, equal bucket keys mean the same day, the same Monday-to-Sunday week, or the same month |
| `IsoWeek.MisreadDays` | apps/api/src/modules/backups/backup-retention.ts:65-72 | 1 to 3 January 100 are exactly the dates whose week year is below 100, which the runtime reads as 19xx |
| `Sessions.AtMostOnePerFamily` | apps/api/src/modules/auth/auth.service.ts:340-439 | In every interleaving of the statements of logins, refreshes, logouts, password changes and aborted transactions, a family has at most one session that is neither rotated nor revoked, counting a rotation between its consume and its insert as that one |
| `Sessions.ReuseKillsFamilyForever` | apps/api/src/modules/auth/auth.service.ts:351-372 | Presenting an unexpired rotated token whose identity checks hold is reported as reuse, leaves no live session in the family, and in every later state no token of that family is rotated |
| `Sessions.LogoutKillsFamilyForever` | apps/api/src/modules/auth/auth.service.ts:458-471 | After a logout every session of the family is revoked in every later state |
| `Sessions.PasswordChangeEndsSessions` | apps/api/src/modules/auth/auth.service.ts:490-502 | With transactions as steps, after a password change every token of the user is answered as invalid until the user logs in again |
| `Sessions.DeactivationIsImmediate` | apps/api/src/modules/auth/auth.service.ts:351-374 | From the deactivation of an account or a provider on no token of it is rotated |
| `Sessions.RevocationIsFinalExactlyWhen` | apps/api/src/modules/auth/auth.service.ts:364-371 | Statement by statement, revoking a family is final exactly when no rotation of it stands between its consume and its insert |
| `Sessions.RefreshOutcomes` | apps/api/src/modules/auth/auth.service.ts:351-427 | On the fields of row and token: a token is rotated exactly when its claims fit, a linked provider vouches, its row is live and strictly unexpired and its user active, into a row of the same user, family and link with the new expiry; reuse is reported exactly for rotated unexpired rows whose claims fit, and revokes exactly that family; nothing else changes anything |
| `Sessions.RotationHandsOver` | apps/api/src/modules/auth/auth.service.ts:378-434 | After a rotation the old token is answered as reuse exactly while its claims hold, and the new one is rotated in turn exactly while it is unexpired, the user active, and a linked provider active with a recheck to come, whatever accounts and providers have become |
| `Sessions.FamilyKeepsItsLogin` | apps/api/src/modules/auth/auth.service.ts:415-434 | After any history every row of a family has the user and the provider of the login that started it, and its recheck deadline too unless a provider check renewed one |
| `Sessions.InterleavedFamilyKeepsItsLogin` | apps/api/src/modules/auth/auth.service.ts:340-439 | The same in every interleaving of single statements |
| `Sessions.LoserOfRaceRevokes` | apps/api/src/modules/auth/auth.service.ts:374-400 | Of two refreshes that read the same live row, the second to claim it revokes the family, and only the insert of the winner is still to come |
| `Sessions.AbortUndoesClaim` | apps/api/src/modules/auth/auth.service.ts:340-428 | A transaction that is rolled back after its claim leaves the rows as they were |
| `Sessions.UninterruptedLogout` | apps/api/src/modules/auth/auth.service.ts:458-471 | The statements of one logout without interruption revoke exactly the family of the row |
| `Sessions.UninterruptedRefresh` | apps/api/src/modules/auth/auth.service.ts:340-439 | The statements of one refresh without interruption have the effect of the transaction as one step |
| `Sessions.SessionStore.RefreshToken` | apps/api/src/modules/auth/auth.service.ts:340-428 | The method over the rows has the effect and outcome of the transaction function, and field by field what `RefreshMeans` allows: the new row has user, family and provider link of the presented one |
| `Sessions.SessionStore.IssueTokens` | apps/api/src/modules/auth/auth.service.ts:643-677 | A login adds one live row that starts its own family |
| `Sessions.SessionStore.LogoutSession` | apps/api/src/modules/auth/auth.service.ts:458-471 | The rows of the token's family are revoked; an unknown token changes nothing |
| `Sessions.PasswordChangeIsFinalExactlyWhen` | apps/api/src/modules/auth/auth.service.ts:490-502 | Statement by statement, deleting a user's sessions is final until the user logs in again, exactly when no rotation of one of them stands between its consume and its insert |
| `Sessions.SessionStore.Consume` | apps/api/src/modules/auth/auth.service.ts:376-387 | The conditional update claims the row exactly when it is live and strictly unexpired |
| `TokenClient.NeverPunished` | packages/api-client/src/http.ts:42-82 | No refresh request of a client that refreshes only through `tryRefresh` is ever answered as reuse, with any number of concurrent 401s, lost, garbled or late messages, logins and logouts in between, and any activity of other clients |
| `TokenClient.RefreshReplacesToken` | packages/api-client/src/http.ts:42-82 | A refresh that nothing disturbs leaves the client with the token that the server rotated to, and with none exactly when it rotated none; further 401s send no second request |
| `TokenClient.InvariantOnRuns` | packages/api-client/src/http.ts:42-82 | A token in the store was not sent before unless the promise waits for it; tokens on their way are unrotated; held after every run |
| `TokenClient.ApiClient.TryRefresh` | packages/api-client/src/http.ts:42-54 | A refresh is sent exactly when none is under way and a token is stored |
| `TokenClient.ApiClient.FinishRefresh` | packages/api-client/src/http.ts:56-82 | A complete pair replaces the token; every other ending discards it; the shared promise is cleared either way |
| `TokenClient.LogoutIsFinal` | packages/api-client/src/resources/auth.ts:180-194 | When no refresh is pending, discarding the tokens is final: until a login is answered the store stays empty and no refresh is sent |
| `TokenClient.LogoutIsFinalExactlyWhen` | packages/api-client/src/http.ts:56-82 | Discarding the tokens keeps the store empty in every later run without an answered login exactly when the pending refresh, if any, can no longer be answered with a pair: neither is a pair on its way nor a request whose row is still live |
| `TokenClient.LogoutAfterAnyRun` | packages/api-client/src/http.ts:42-82 | That condition is exact in every reachable state |
| `TokenClient.LogoutRace` | packages/api-client/src/http.ts:56-82 | A run from the start in which a token is back in the store after a logout |
| `McpOAuth.RequestsResolveOnce` | apps/api/src/modules/mcp/mcp-oauth.service.ts:150-183 | In every interleaving of statements an authorization request is approved or denied at most once and is gone afterwards |
| `McpOAuth.TokensIssueOnce` | apps/api/src/modules/mcp/mcp-oauth.service.ts:208-284 | Each code and each refresh token leads to at most one access token (section 4.1.2 of RFC 6749) |
| `McpOAuth.TokensAreEarned` | apps/api/src/modules/mcp/mcp-oauth.service.ts:150-284 | In every interleaving every access token carries user, client, resource and scopes of an authorization request that was made and that this user approved; from a code, somebody presented that code unused and unexpired with client, redirect, resource and proof of that very request; from a refresh token, its client presented it unexpired, unrevoked and unrotated, for no other resource |
| `McpOAuth.UninterruptedApproval` | apps/api/src/modules/mcp/mcp-oauth.service.ts:150-174 | The statements of one approval without interruption have the effect of the method |
| `McpOAuth.UninterruptedDenial` | apps/api/src/modules/mcp/mcp-oauth.service.ts:176-183 | The statements of one denial without interruption delete the request and resolve it |
| `McpOAuth.UninterruptedCodeExchange` | apps/api/src/modules/mcp/mcp-oauth.service.ts:208-284 | The statements of one code exchange without interruption have the effect of the method |
| `McpOAuth.UninterruptedRefreshExchange` | apps/api/src/modules/mcp/mcp-oauth.service.ts:233-284 | The statements of one refresh exchange without interruption have the effect of the method |
| `McpOAuth.OneTokenPerFamily` | apps/api/src/modules/mcp/mcp-oauth.service.ts:233-284 | Per family the unrevoked refresh tokens and the exchanges between claim and create never exceed one, with revocation, clean-up, deletions and crashes anywhere |
| `McpOAuth.RevocationIsFinalExactlyWhen` | apps/api/src/modules/mcp/mcp-oauth.service.ts:240-245 | Revoking a family on reuse is final exactly when no exchange of that family has already claimed its token |
| `McpOAuth.InvariantOnRuns` | apps/api/src/modules/mcp/mcp-oauth.service.ts:150-303 | The invariants on ids, resolutions, claims, issues, grants and families hold after every run |
| `McpOAuth.OAuthService.Approve` | apps/api/src/modules/mcp/mcp-oauth.service.ts:150-174 | An unexpired request is replaced by one unused code with its client, redirect, challenge, resource and scopes and the given user; otherwise nothing changes |
| `McpOAuth.OAuthService.Deny` | apps/api/src/modules/mcp/mcp-oauth.service.ts:176-183 | A known request is deleted; otherwise nothing changes |
| `McpOAuth.OAuthService.ExchangeCode` | apps/api/src/modules/mcp/mcp-oauth.service.ts:208-231 | Tokens are issued exactly when the code is unused, unexpired and bound to this client, redirect, resource and proof, and the code is then used |
| `McpOAuth.OAuthService.ExchangeRefreshToken` | apps/api/src/modules/mcp/mcp-oauth.service.ts:233-255 | A rotated token revokes its family; an acceptable one is rotated into a successor of the same grant and family; any other changes nothing |
| `McpOAuth.OAuthService.IssueTokens` | apps/api/src/modules/mcp/mcp-oauth.service.ts:257-284 | One access token and one unrevoked refresh token of the given grant and family are added |
| `McpOAuth.OAuthService.Revoke` | apps/api/src/modules/mcp/mcp-oauth.service.ts:192-206 | The refresh token is revoked if it belongs to the given client |
| `McpOAuth.CleanupIsInvisible` | apps/api/src/modules/mcp/mcp-oauth.service.ts:286-303 | Cleaning up never changes which requests, codes and tokens are accepted at any later time; it ends the detection of reuse exactly for outdated rows |
| `Standards.PairwiseDecidesJoint` | apps/api/src/modules/knowledge/standards-evaluation.service.ts:507-530 | For any number of rules, some fully specified target with amounts from a floor on fails none of them exactly when no two applicable rules conflict over amounts or backups and no prohibition forbids every amount from the floor on; without naming conventions this is pairwise freedom from conflicts |
| `Standards.NoConflictsMeansSatisfiable` | apps/api/src/modules/knowledge/standards-evaluation.service.ts:411-435 | An empty result of `detectStandardConflicts`, with no conflict inside a standard and prohibitions that leave room, gives a specified target that fails no rule of any standard; without naming conventions, and with SHOULD rules included, there is one only then |
| `Standards.ConflictIsReal` | apps/api/src/modules/knowledge/standards-evaluation.service.ts:507-530 | If `ruleConflict` reports a conflict, no target passes both rules |
| `Standards.ConflictExactly` | apps/api/src/modules/knowledge/standards-evaluation.service.ts:507-530 | A conflict is reported exactly when backups, amounts or names are opposed, and the reason is the first of these with its numbers |
| `Standards.ConflictIsSymmetric` | apps/api/src/modules/knowledge/standards-evaluation.service.ts:507-530 | Whether two rules conflict does not depend on their order |
| `Standards.VerdictOnFields` | apps/api/src/modules/knowledge/standards-evaluation.service.ts:315-398 | On the fields of rule and target: a rule passes exactly when it applies, states something, and every part that it states has a known value on its right side; it fails exactly when it applies and some known value lies on its wrong side |
| `Standards.EvaluateRule` | apps/api/src/modules/knowledge/standards-evaluation.service.ts:315-372 | The constraints pushed field by field give the verdict function |
| `Standards.DetectStandardConflicts` | apps/api/src/modules/knowledge/standards-evaluation.service.ts:411-435 | The nested loops return the first 100 conflicts between rules of different standards, and none exactly when there is none |
| `Standards.AllHitsExactly` | apps/api/src/modules/knowledge/standards-evaluation.service.ts:411-435 | Before the cap, exactly the clashes between a standard and a later one are found |
| `Standards.Evaluate` | apps/api/src/modules/knowledge/standards-evaluation.service.ts:84-95 | One check per rule in order; non-compliant exactly when a mandatory check fails, compliant exactly when there are mandatory checks and all pass |
| `Standards.ConflictPreventsCompliance` | apps/api/src/modules/knowledge/standards-evaluation.service.ts:84-96 | With two conflicting mandatory rules the result is compliant for no target |
| `Checklist.ToggleSetsState` | apps/api/src/common/content/toggle-checkbox.ts:30-60 | Toggling item i sets state i of the scanned list and no other; there is no result exactly when there is no item i |
| `Checklist.ToggleChangesOneCharacter` | apps/api/src/common/content/toggle-checkbox.ts:51-55 | The new text differs in at most one character, which becomes an x or a space |
| `Checklist.TaskMatchMeans` | apps/api/src/common/content/toggle-checkbox.ts:49-50 | A line is a task line exactly when spaces, a bullet, spaces and a bracketed mark begin it |
| `Checklist.FenceMatchMeans` | apps/api/src/common/content/toggle-checkbox.ts:40-43 | A line is a fence line exactly when spaces and a run of three or more backticks or tildes begin it; the whole run is its length |
| `Checklist.SecondToggleWins` | apps/api/src/common/content/toggle-checkbox.ts:30-60 | A second toggle of the same item overrides the first |
| `Checklist.ToggleMarkdownTaskItem` | apps/api/src/common/content/toggle-checkbox.ts:30-60 | The loop over the array of parts, rewriting one in place, computes the toggle function |
| `Checklist.JoinSplit` | apps/api/src/common/content/toggle-checkbox.ts:31 | Joining the split text gives it back |
| `Checklist.SplitJoin` | apps/api/src/common/content/toggle-checkbox.ts:59 | Splitting the joined parts gives them back, for all parts that a split can produce |
| `Checklist.SplitIsWellFormed` | apps/api/src/common/content/toggle-checkbox.ts:31 | A split gives lines and breaks in turn, and no lone carriage return before a line feed |
| `Checklist.MarkedKeepsKind` | apps/api/src/common/content/toggle-checkbox.ts:49-52 | The rewritten line is a task line with its mark at the same place and the new state |
| `Keyset.AuditReadingIsComplete` | apps/api/src/modules/audit/audit.service.ts:83-118 | Reading the audit log page by page, with any page sizes and newer entries inserted between any two pages, returns exactly the entries present at the first page, once each, newest first |
| `Keyset.ReadingIsComplete` | apps/api/src/modules/knowledge/knowledge-access.service.ts:751-783 | Following the cursor until it is null, with any page sizes and any changes that leave the rows behind the cursor alone, returns every row exactly once, in order |
| `Keyset.NewerRowsDoNotMatter` | apps/api/src/modules/audit/audit.service.ts:87-97 | Rows inserted before the cursor leave what it selects unchanged |
| `Keyset.CursorsFollowOrders` | apps/api/src/modules/knowledge/knowledge-access.service.ts:373-391 | Both cursor conditions select exactly the rows that the sort order puts after the cursor, and both orders are strict and total |
| `Keyset.PageSplits` | apps/api/src/modules/knowledge/knowledge-access.service.ts:768-783 | A page has as many rows as selected up to the limit, and its last row is the next cursor exactly when more are selected; the page and what its cursor selects next make up what the page's own cursor selected |
| `Keyset.ReadAll` | apps/api/src/modules/audit/audit.service.ts:83-118 | Following cursors over a fixed table ends and collects the whole table |
| `Keyset.ReadListsAndSearch` | apps/api/src/modules/knowledge/knowledge-access.service.ts:560-586 | Both the lists and the four-key search results are read completely |
| `Artifact.ChecksumsRoundTrip` | apps/api/src/modules/backups/backup-artifact.ts:241-249 | The checksum file that is written parses back to the same three digests |
| `Artifact.ParseChecksums` | apps/api/src/modules/backups/backup-artifact.ts:339-353 | The loop computes the parse; a result names exactly the three files, each with a digest |
| `Artifact.ParseLineMeans` | apps/api/src/modules/backups/backup-artifact.ts:343 | A line is accepted exactly when it is 64 hexadecimal digits, two spaces and one of the three names |
| `Artifact.LinesMean` | apps/api/src/modules/backups/backup-artifact.ts:341 | The lines hold no line feed and give the text back when joined with line feeds |
| `Artifact.VerifyBackupDirectory` | apps/api/src/modules/backups/backup-artifact.ts:272-316 | Accepts exactly when the four files exist, all checksums hold and the manifest matches |
| `Artifact.CreatedVerifies` | apps/api/src/modules/backups/backup-artifact.ts:206-252 | The directory that is created always passes its own verification |
| `Artifact.DamageIsNoticed` | apps/api/src/modules/backups/backup-artifact.ts:293-298 | With the checksum file unchanged, a file with another hash is rejected |
| `Artifact.FinalNamesVerify` | apps/api/src/modules/backups/backup-storage.service.ts:568-608 | After any prefix of any interleaving of publications with crashes and torn writes, every directory under a final name has all four files and verifies, and never changes again |
| `Artifact.PublicationSucceeds` | apps/api/src/modules/backups/backup-storage.service.ts:568-590 | Creating or copying a sound artifact without interruption puts exactly its files under the final name and changes nothing else, past a stale partial copy too |
| `Artifact.MarkerMeansComplete` | apps/api/src/modules/backups/backup-storage.service.ts:240-299 | After any prefix of any interleaving of uploads, failures and crashes, a prefix with the marker holds four full copies that verify when downloaded |
| `Artifact.UploadSucceeds` | apps/api/src/modules/backups/backup-storage.service.ts:240-283 | An upload without interruption leaves the four files and the marker under the final prefix, nothing under the partial one, and everything else alone |
| `Artifact.FailureCleansUp` | apps/api/src/modules/backups/backup-storage.service.ts:285-289 | After an error with successful deletions nothing is left under either prefix, and everything else is as it was |
| `ExportNames.FolderPath` | apps/api/src/modules/export/export.service.ts:421-434 | The loop ends on every parent graph and joins the slugs of the visited folders |
| `ExportNames.FolderPathOfChain` | apps/api/src/modules/export/export.service.ts:421-434 | Where the folders above a page end at a root, the visited folders are exactly that chain |
| `ExportNames.VisitedOnAnyGraph` | apps/api/src/modules/export/export.service.ts:426-432 | On any graph the visited folders are linked and distinct, and stop only where no folder follows or a visited one would |
| `ExportNames.PathGrows` | apps/api/src/modules/export/export.service.ts:431-433 | Each slug follows the path of the folder above it after a slash |
| `ExportNames.UsedNames.UniqueName` | apps/api/src/modules/export/export.service.ts:524-534 | The result is the value or its least free numbered variant, new ignoring case, found within as many attempts as names are used |
| `ExportNames.NumberedMeans` | apps/api/src/modules/export/export.service.ts:526-531 | A numbered variant is the value with a hyphen and the number in decimal before its last dot, or at its end if no dot follows the first character |
| `ExportNames.UsedNames.UniqueNames` | apps/api/src/modules/export/export.service.ts:524-534 | All names handed out against one set differ ignoring case |
| `ExportNames.CharwiseKeepsNumbers` | apps/api/src/modules/export/export.service.ts:530 | Any lower-casing of character after character that keeps digits, also one that maps a character to several, never confuses two numbered variants |

## Left out

- Isolation levels of PostgreSQL: transactions are modelled either as one step or statement by statement with every statement visible at once; row locks, snapshots, and a transaction that fails after the last statement shown are not.
- Writes that bypass the interceptor (scheduler, auto-sync, the worker's own rows) and `isWriteRequest`: the barrier governs HTTP mutations only, and the choice of requests is a plain case distinction.
- `processNextJob`, restore preflight, connection tests and worker heartbeats: sequences of single claims and checks.
- `acquireLock` and `releaseLock` as used for job and scheduler locks: `Scheduler` deliberately holds without them, and the release is the barrier's release on another key.
- Microsoft sign-in, token cache, note export, disconnecting, notifications and the run records of a synchronisation; `lastSyncedAt`, which no decision reads.
- `contentType` of a task body and the stripping of HTML in `noteTitle`: the plain text of a note is a parameter.
- A task that Graph returns in two lists, and Graph calls that fail for reasons other than a missing task or list; edits made while a synchronisation runs, and a synchronisation on another instance: the guard is per process.
- Hashes of the synchronisation are taken as the hashed pair itself; other hashes, signatures, password hashing and base64 are parameters or identities.
- UTF-16 code units: characters are Unicode scalar values, so slices that would cut a surrogate pair are not modelled.
- Time zones as `Intl.DateTimeFormat` knows them: local time is any function from UTC minutes, with the stated bounds on its jumps.
- The rolling back of a file-system or storage deletion, `delete` of a published artifact, and the SFTP adapter: bulk deletion is one request, and deleting a local artifact file by file is not modelled.
- Two publishers of one artifact name at the same time: names contain the job id, and one job has one worker.
- SSO synchronisation before a refresh, access tokens, audit rows and request metadata of sessions.
- A second browser tab that shares the token store, and the manual `refresh()` of the client: both bypass the single flight, and `Sessions.RotationHandsOver` shows what the server then answers.
- `rawRequest` and `requestDownload` beyond the refresh that a 401 starts, and retransmission by the network layer: a refresh request reaches the server at most once.
- One-time tokens for password resets: only their effect on sessions is modelled.
- Registration of OAuth clients, reading a request (which deletes it when it has expired), scope parsing, redirect URIs and revocation of access tokens, which no later decision of the modelled protocol reads.
- The JSON columns of a rule: ports and networks are taken as the texts that are compared.
- Texts of checks and conflicts (`expected`, `actual`, `reason`), document claims and cross-source conflicts: presentation and heuristics.
- Satisfiability of naming conventions: it would need a theory of regular expressions; conflicts of identical patterns are covered by `Standards.ConflictIsReal`.
- Lower-casing that looks at neighbouring characters (the final sigma): `uniqueName` needs only that numbered variants stay apart, which is proved for lower-casing of one character after the other.
- Checklist items in Tiptap HTML: the HTML branch is one regular-expression replacement.
- Filters, totals and access rules of the paged queries: a table is what they leave.
- HTTP controllers, guards, web UI, PDF and HTML rendering, settings, roles and monitoring.
