# Safety hub verification

A Dafny model of the urban sports safety hub's transactional core, with proofs of what it keeps.
`dafny verify dfyconfig.toml` checks the whole project.

## What is modelled

The hub's SQL tables are the state. A service call is a transaction of guarded reads, conditional
updates, inserts under unique indexes, and an audit insert at the end; any failure rolls everything
back. The project has these parts.

- **The hub.** `Schema` holds the rows and the effects a transaction can commit (`Allowed`, `Apply`).
  `Services` holds what each call decides: the first guard that refuses, or the effect. `Hub.Store`
  is the store updated in place, statement by statement, with rollback; its one field `db` stands for
  the database handle, and each method is proved to commit exactly the decided effect with its event,
  or nothing. Some reads happen before the transaction: `CancelTransaction` takes a session row as old
  as it likes, and `KeyRace` lets other calls in between an enrollment's lookup and its transaction.
  Whether the commit itself goes through (deferred foreign keys, I/O) is the parameter `commits`.
- **Runs.** `Runs` is the run of committed transactions, `Calls` the sequence of service calls, with
  the failures, replays and rollbacks that leave no transaction. `SeatLaws`, `CustodyLaws`, `LockLaws`,
  `OnceLaws`, `CertLaws`, `LifecycleLaws`, `AuditLaws` and `HubLaws` prove what every run keeps;
  `Outcomes` says exactly when each operation succeeds, in the conditions of `Needs`, which are written
  on the rows without the functions that decide, and `CallWrites` what every committed call has written,
  column by column.
- **Jobs.** `Jobs` is the job table on values, `JobStore.Store` the statements in place, `JobRunner`
  the worker loop. `JobWaiting` proves bounded waiting, `JobAttempts` the attempt bound, termination
  and the spacing of the attempts, `JobCap` when the attempt cap itself holds. `JobRows` says what each
  statement does to the row of each job, without the functions that compute it.
- **Times and ages.** `Calendar`, `Age`, `Birthdays`, `Text`, `TimeText` and `TimeLayout` cover dates in
  UTC, completed ages against the calendar, the stored text of a time, character for character, its byte
  order and the way back. Stored times are compared in SQL by
  `TextBefore`, which is proved to be the byte order of the texts. `LoginSessions` applies this to
  session cleanup.
- **Satellites.** `Idempotency` is the key protocol with its byte buffers, `Migrations` the restartable
  migration loop, `States` the lifecycle table.

## What the proofs found

- A later reading of the clock can have an earlier text: within one second, when one written fraction
  continues the other. A due job can then fail to be due, exactly under that condition
  (`JobWaiting.DueKeptExactly`, with an instance in `DueLost`), and from the next second on it is due
  for good. Cleanup deletes a
  session that still resolves exactly under the mirrored condition (`LoginSessions.LiveSessionLost`,
  with an instance in `HalfSecondLost`).
- The retry delay is the square of the attempts in seconds exactly up to 96038 attempts; one more and
  the int64 product wraps to a time in the past (`JobWaiting.DelayExactUpTo`, `DelayWrapsNegative`).
- Recovery does not look at the attempt cap. Over a run the cap holds exactly when no recovery meets a
  stale job that has used its last attempt (`JobCap.CapKeptExactlyWhen`); nothing else breaks it and
  nothing mends it. In `JobCap.OneAttemptTakenTwice` a job with one attempt is claimed, recovered after
  a crash, and claimed again. What always holds is the cap plus the recoveries
  (`JobAttempts.AttemptsStayBounded`).
- The lifecycle table allows `in_progress` to `canceled`; cancellation passes that check and then
  always conflicts, because the update wants `scheduled` (`Outcomes.InProgressNeverCanceled`).
- A new pass leaves the expiry of an old certification alone, so it does not revive an expired one
  (`CertLaws.CertifiedAfterRun` is an equivalence).
- Two migration files whose numbers are equal, such as `1_a.sql` and `001_b.sql`, share one ledger row:
  the second is never applied (`Migrations.SecondScriptLost`). The ledger follows the whole sorted list
  exactly when versions differ (`Migrations.PlanIsWholeExactlyWhen`).

## Model

| member | source | states |
|---|---|---|
| HubLaws.CallsKeepSound | internal/storage/sqlite/db.go:53-72 | After any sequence of service calls, refused, replayed and rolled back ones included, seats, make-ups, groups, custody and maintenance cases all still agree. |
| HubLaws.CallsAreAudited | internal/storage/sqlite/audit.go:16-26 | The audit log is append-only, has one new event for each committed call and none for any other, and folding the new events over the old ledger gives every status, version, counter, entitlement, certification key and membership of the current tables. |
| HubLaws.CallsConserveSeats | internal/storage/sqlite/enrollment.go:55-71 | Over any calls, version minus enrolled minus one if canceled never changes for any session, and every counter equals its rows within capacity. |
| HubLaws.CallsKeepGroups | internal/training/service.go:37-65 | After any calls, the members of all groups of a session together are at most its enrolled students, hence at most its capacity. |
| Calls.CallsAreARun | internal/storage/sqlite/db.go:62-67 | Any sequence of calls amounts to a run of exactly the transactions that committed, each with its audit receipt. |
| AuditLaws.ActionTellsEffect | internal/enrollment/service.go:70 | For each of the six operations the audit action alone determines what the transaction did to the ledger. |
| AuditLaws.AuditRebuildsLedger | internal/storage/sqlite/audit.go:16-26 | Over every run of audited transactions the fold of the new events over the initial ledger is the current ledger. |
| AuditLaws.OneEventPerCommit | internal/storage/sqlite/audit.go:16-26 | The log grows by exactly one event for each committed transaction. |
| SeatLaws.SeatsConserved | internal/storage/sqlite/enrollment.go:55-71 | Over every run each session's counter is the number of its enrollment rows and at most its capacity, and its version counts seats and cancellation exactly. |
| SeatLaws.CancellationCountsItsMakeups | internal/storage/sqlite/enrollment.go:96-102 | When entitlements and due enrollments match, INSERT OR IGNORE ignores nothing: the inserted rows are exactly the confirmed enrollments, so the returned count is the number flipped. |
| SeatLaws.CancellationsConserved | internal/storage/sqlite/enrollment.go:87-103 | Over every run an entitlement exists for exactly the enrollments that are due one, and a canceled session keeps its row, `enrolled` included, and has no confirmed seat for ever. |
| SeatLaws.GroupsConserved | internal/training/service.go:37-65 | Over every run each group holds at most its capacity and each member's enrollment belongs to the group's session. |
| SeatLaws.GroupPigeonhole | internal/storage/sqlite/migrations/001_core.sql:17-18 | Groups are disjoint, and all groups of a session together hold at most its enrolled students. |
| CustodyLaws.CustodyConserved | internal/storage/sqlite/equipment.go:49-114 | Over every run an item is checked out exactly when it has exactly one active loan, its version is conserved against two for each closed loan and one for an active one, and an isolated item is never written again. |
| CustodyLaws.CasesConserved | internal/storage/sqlite/equipment.go:83-114 | Over every run damaged loans and the maintenance cases that name a loan are in bijection, on the same item. |
| CustodyLaws.ActiveLoanHoldsItsItem | internal/storage/sqlite/migrations/002_safety.sql:8 | The item of an active loan is checked out, and that loan is its only active one. |
| LockLaws.SameVersionSameRow | internal/storage/sqlite/enrollment.go:56 | Along any run rows never go, versions never fall, and a row with the same version is the same row, for every versioned table. |
| LockLaws.OneWinnerPerVersion | internal/storage/sqlite/enrollment.go:56 | Of two conditional writes to one row in a run, the later one met a higher version of it. |
| OnceLaws.OneHolderCommits | internal/enrollment/service.go:82-92 | Of any calls that hold one version of one row (cancellations of a session, assignments to a group, publications of an assessment), whoever comes in between, at most one commits. |
| OnceLaws.OneReservationPerVersion | internal/storage/sqlite/enrollment.go:56-63 | After a reservation succeeded on a snapshot version, every later one on that version of the session conflicts. |
| OnceLaws.OneAcquisitionPerVersion | internal/storage/sqlite/equipment.go:50-57 | After an acquisition succeeded on a snapshot version, every later one on that version of the item conflicts. |
| OnceLaws.NothingDoneTwice | internal/storage/sqlite/enrollment.go:88 | Over every run no key and no seat of a student is taken twice, no session canceled twice, no loan returned twice, no enrollment put into two groups, no assessment graded twice, under whatever version. |
| CertLaws.CertificationsExplained | internal/assessment/service.go:67-84 | Over every run the certification keys are exactly the old ones and those of newly passed assessments, new passes scored 70 to 100, passed rows never change, and old expiries stay. |
| CertLaws.CertifiedAfterRun | internal/storage/sqlite/enrollment.go:42-46 | After a run a prerequisite is met exactly when it was met before or a pass brought a covering key that was not held at all. |
| CertLaws.PrerequisitesStayMet | internal/storage/sqlite/enrollment.go:42-46 | Once a student meets the prerequisites of a session no run un-meets them. |
| LifecycleLaws.EveryChangeIsDeclared | internal/domain/states.go:5-13 | Every status change of a session, enrollment, assessment, item or loan between neighbouring states of any run is an edge of the declared table, and new rows start confirmed or active. |
| LifecycleLaws.TerminalRowsRest | internal/domain/states.go:25-38 | A course or assessment in a terminal state keeps its whole row for the rest of every run. |
| LifecycleLaws.EveryJobChangeIsDeclared | internal/domain/states.go:12 | Every statement of the job store, recovery included, moves jobs along declared edges only and adds them pending. |
| LifecycleLaws.TerminalJobsRest | internal/domain/states.go:33-34 | A job that succeeded or failed is never written again in any run. |
| LifecycleLaws.JobEdgesAreDeclared | internal/domain/states.go:12 | The typed job edges are exactly the accepted transitions of the job machine. |
| States.AcceptedIsDeclared | internal/domain/states.go:15-23 | For any machine and any two texts, a transition is accepted exactly when the texts differ and the edge is declared, although the lookup key joins them with a colon. |
| States.TerminalHasNoEdge | internal/domain/states.go:25-38 | From a terminal state no target text whatever is accepted. |
| States.CourseEdgesAreDeclared | internal/domain/states.go:6 | The typed course edges are exactly the accepted transitions. |
| States.EnrollmentEdgesAreDeclared | internal/domain/states.go:7 | The typed enrollment edges are exactly the accepted transitions. |
| States.AssessmentEdgesAreDeclared | internal/domain/states.go:8 | The typed assessment edges are exactly the accepted transitions. |
| States.EquipmentEdgesAreDeclared | internal/domain/states.go:9 | The typed equipment edges are exactly the accepted transitions. |
| States.LoanEdgesAreDeclared | internal/domain/states.go:10 | The typed loan edges are exactly the accepted transitions. |
| Outcomes.EnrollsExactlyWhen | internal/enrollment/service.go:42-71 | An enrollment's transaction succeeds exactly when the student is eligible (birthdays by the calendar, a standing consent for a minor, prerequisites, coach), a seat is free and key and pair are new, and then decides that seat; each refusal is the first unmet need. The version condition fails exactly on a full session. |
| Outcomes.StaleReservation | internal/storage/sqlite/enrollment.go:55-71 | A reservation on a snapshot of any age succeeds exactly when the session row is still the one read, with a seat, and the key and pair are new. |
| Outcomes.CancelsExactlyWhen | internal/enrollment/service.go:82-96 | A cancellation with any row it has read succeeds exactly when that row allows the edge, the current row has its version and is scheduled, and the request is traceable; otherwise the error is the one of the first that fails. |
| Outcomes.StaleCancellation | internal/enrollment/service.go:82-96 | A cancellation that validated a row of any age succeeds exactly when that very row still stands and is scheduled. |
| Outcomes.InProgressNeverCanceled | internal/storage/sqlite/enrollment.go:88 | An in-progress course passes the transition table and is still refused by the update, always. |
| Outcomes.ChecksOutExactlyWhen | internal/equipment/service.go:43-72 | With seats and custody kept a checkout succeeds exactly when the item is free, has a passed inspection still valid, fits, and some enrollment row has this student, this session and status confirmed; neither the version nor the active-loan index ever refuses it. |
| Outcomes.EnrolledIsSeated | internal/storage/sqlite/equipment.go:38-41 | Where pairs are unique, the count of confirmed rows is one exactly when such a row exists. |
| Outcomes.StaleAcquisition | internal/storage/sqlite/equipment.go:49-65 | An acquisition on an item row of any age succeeds exactly when that very row still stands and is available; the active-loan index then never refuses. |
| Outcomes.StaleVersions | internal/training/service.go:55-62 | An assignment or a publication with a version of any age writes only the very row that had that version. |
| Outcomes.ReturnsExactlyWhen | internal/equipment/service.go:83-100 | With custody kept a return succeeds exactly when its loan is active, and never hits a version conflict. |
| Outcomes.StaleReturn | internal/storage/sqlite/equipment.go:83-104 | Even with loan and item rows of any age, read together while the loan was active, both conditional updates succeed exactly when the loan is still active. |
| Outcomes.AssignsExactlyWhen | internal/training/service.go:29-66 | An assignment succeeds exactly for a confirmed enrollment of the group's session, in no group yet, by its coach or an administrator, below capacity and at the expected version; each refusal has its own error. |
| Outcomes.PublishesExactlyWhen | internal/assessment/service.go:43-87 | A publication succeeds exactly for an open assessment at the expected version, by its examiner or an administrator, with an examiner qualified at the two readings of the clock, and a score from 0 to 100; each refusal has its own error. |
| KeyRace.OneKeyOneEnrollment | internal/enrollment/service.go:35-43 | However lookups and transactions of any number of clients interleave, all that succeed with one key return the same enrollment and asked for its student and session. |
| KeyRace.KeyCommitsOnce | internal/storage/sqlite/migrations/001_core.sql:15 | Of all transactions with one key at most one commits, and none when the key was used before. |
| KeyRace.UsedKeyAnswers | internal/enrollment/service.go:35-40 | Once a key is used a call with it succeeds exactly when its lookup works and its payload matches; its transaction never commits. |
| Hub.Store.AppendAudit | internal/storage/sqlite/audit.go:16-26 | A blank request or an object id below one is refused and nothing is written; otherwise exactly one event is appended. |
| Hub.Store.CountConsents | internal/storage/sqlite/enrollment.go:36-41 | The counted rows are none exactly when the student has no standing consent to sports that is granted by then and outlasts the session. |
| Hub.Store.CountMissing | internal/storage/sqlite/enrollment.go:42-46 | The counted prerequisites are none exactly when the student holds a valid certification for each prerequisite of the template. |
| Hub.Store.CountQualifications | internal/storage/sqlite/enrollment.go:47-51 | The counted rows are none exactly when the coach has no active qualification for sport and level over the whole session. |
| Hub.Store.CountEnrollments | internal/storage/sqlite/equipment.go:38-41 | Counts by a loop the enrollment rows with this student, this session and status confirmed. |
| Sums.CountKeys | internal/storage/sqlite/equipment.go:38-41 | A counting loop over a table answers the number of its rows that satisfy the condition. |
| Sums.CountRows | internal/storage/sqlite/enrollment.go:36-51 | A counting loop over rows answers the number of places that satisfy the condition, which is zero exactly when no row does. |
| Needs.FirstUnmet | internal/storage/sqlite/enrollment.go:22-53 | The guards over a snapshot refuse with the first need that the tables do not meet: open session, age by birthdays, consent to sports that outlasts the session, every prerequisite held, a qualified coach; and pass exactly when all are met. |
| Needs.TrimmedText | internal/enrollment/service.go:79 | Trimming takes off exactly the white characters at both ends, and leaves nothing exactly when there is no other character. |
| Needs.BlankIsNotInked | internal/storage/sqlite/audit.go:17 | A text counts as blank exactly when no character of it is other than white space. |
| Hub.Store.ReserveEnrollment | internal/storage/sqlite/enrollment.go:55-71 | Counter first, then the insert: success is the seat effect, and each failure has the error of the decision. |
| Hub.Store.EnrollmentByKey | internal/storage/sqlite/enrollment.go:73-85 | Finds a row with the key exactly when one exists. |
| Hub.Store.EnrollTransaction | internal/enrollment/service.go:41-72 | Commits the decided seat with its event, or leaves every table as it was, even when the counter had already gone up. |
| Hub.Store.Enroll | internal/enrollment/service.go:28-73 | Guards, replay by key without any write, mismatch on another payload, else the transaction. |
| Hub.Store.CancelSessionRows | internal/storage/sqlite/enrollment.go:87-103 | Closes the session, inserts the missing entitlements and flips the confirmed enrollments, and answers the entitlements inserted. |
| Hub.Store.CancelTransaction | internal/enrollment/service.go:86-98 | With a session row of any age, commits the closing effect with its event or leaves every table as it was. |
| Hub.Store.CancelCourse | internal/enrollment/service.go:74-99 | With nobody in between, succeeds exactly on a scheduled session with a traceable request, and answers the make-ups created. |
| Hub.Store.AcquireEquipment | internal/storage/sqlite/equipment.go:49-65 | The conditional update, then the loan under the active-loan index; success is the lending effect. |
| Hub.Store.Checkout | internal/equipment/service.go:35-74 | Commits the decided loan with its event or leaves every table as it was. |
| Hub.Store.CompleteReturn | internal/storage/sqlite/equipment.go:83-114 | Loan, then item, then the case of a damaged return; success is the return effect. |
| Hub.Store.Return | internal/equipment/service.go:75-102 | Commits the decided return with its event or leaves every table as it was. |
| Hub.Store.Assign | internal/training/service.go:23-68 | Commits the decided membership with its event or leaves every table as it was. |
| Hub.Store.UpsertCertification | internal/assessment/service.go:80 | Inserts a certification without expiry or updates granter and time and keeps the expiry. |
| Hub.Store.Publish | internal/assessment/service.go:30-88 | Commits the decided grade, with the certification of a pass and the event, or leaves every table as it was. |
| CallWrites.EnrollCommits | internal/enrollment/service.go:28-73 | An enrollment call writes exactly when the caller may, the key is new and every need of its transaction is met, and its commit goes through. |
| CallWrites.CancelCommits | internal/enrollment/service.go:74-99 | A cancellation call writes exactly when an administrator gives a reason, the session is scheduled and the request traceable, and its commit goes through. |
| CallWrites.CheckoutCommits | internal/equipment/service.go:35-74 | A checkout call writes exactly when the caller may, item and student meet every need, and its commit goes through. |
| CallWrites.ReturnCommits | internal/equipment/service.go:75-102 | A return call writes exactly when the caller may, the loan is active and the request traceable, and its commit goes through. |
| CallWrites.EnrollWrites | internal/storage/sqlite/enrollment.go:55-71 | A committed enrollment writes one confirmed row with the asked student, session, key and time, raises the session's counter and version by one, logs the event, and leaves every other row and table alone. |
| CallWrites.CancelWrites | internal/storage/sqlite/enrollment.go:87-103 | After a committed cancellation every confirmed enrollment of the session without an entitlement has one with the given expiry, the time of the call and this session; older entitlements, other enrollments and other sessions are unchanged, and the session keeps its counter. |
| CallWrites.CheckoutWrites | internal/storage/sqlite/equipment.go:49-65 | A committed checkout marks the item, adds one active loan with the asked student, session, issuer and time, logs the event, and changes nothing else. |
| CallWrites.ReturnWrites | internal/storage/sqlite/equipment.go:83-114 | A committed return closes the loan at the given time, frees or isolates the item, opens one case with the report exactly for a damaged item, logs the event, and changes nothing else. |
| CallWrites.AssignWrites | internal/training/service.go:55-66 | A committed assignment adds the one membership, raises the group's version by one, logs the event, and changes nothing else. |
| CallWrites.PublishWrites | internal/assessment/service.go:67-87 | A committed publication sets status by the score of 70, score, notes, time and version; a pass writes the certification of the template's sport and level with its granter and time and the expiry it had; the event is logged and nothing else changes. |
| Services.Reservation | internal/storage/sqlite/enrollment.go:55-71 | Whatever it decides to insert meets every condition of the tables: status, capacity, unique key and unique pair. |
| Services.Completion | internal/storage/sqlite/equipment.go:83-114 | Whatever it decides to write meets every condition of the tables: an active loan, an item checked out, a case of its own. |
| Jobs.FrontIsUnique | internal/storage/sqlite/jobs.go:30 | ORDER BY available_at, id LIMIT n determines one batch. |
| Jobs.BeforeIsStrictOrder | internal/storage/sqlite/jobs.go:30 | The claim order is a strict total order, although times are compared as texts. |
| JobStore.Store.EnqueueJob | internal/storage/sqlite/jobs.go:12-23 | Adds a pending job exactly when the cap is positive and the key new. |
| JobStore.Store.SelectDue | internal/storage/sqlite/jobs.go:29-50 | Answers the first `limit` due jobs in claim order. |
| JobStore.Store.ClaimJobs | internal/storage/sqlite/jobs.go:24-67 | Sets exactly the batch running, never conflicts, and answers the jobs in order with status, attempts and lock updated. |
| JobStore.Store.FinishJob | internal/storage/sqlite/jobs.go:68-88 | Succeeds exactly on a running job, and puts it into success, retry with the squared delay, or failure at the cap. |
| JobStore.Store.RecoverJobs | internal/storage/sqlite/jobs.go:89-95 | Sends exactly the stale running jobs back for a retry and counts them. |
| JobRows.EnqueueRow | internal/storage/sqlite/jobs.go:12-23 | The new row, column by column, and when there is one. |
| JobRows.TakenIsBatched | internal/storage/sqlite/jobs.go:29-36 | A job is in the batch of a claim exactly when it waits, its time has come, and fewer waiting jobs come before it than the limit, which is one for a limit below one. |
| JobRows.ClaimRow | internal/storage/sqlite/jobs.go:24-67 | A claim sets exactly these jobs running with one attempt more and the lock at its time, and leaves every other row alone. |
| JobRows.FinishRow | internal/storage/sqlite/jobs.go:68-88 | The end of a running job, column by column: success without an error; with one retry at the squared delay below the cap, and failure at it; any other row is left alone. |
| JobRows.ErrorIsRetried | internal/storage/sqlite/jobs.go:78-86 | In every reachable table a running job that ends with an error is put back for a retry exactly when it has used fewer attempts than its cap, and fails otherwise. |
| JobRows.FailedOnlyWhenSpent | internal/storage/sqlite/jobs.go:78-86 | Over every run a job has failed only when it has used at least as many attempts as its cap. |
| JobRows.RecoverByText | internal/storage/sqlite/jobs.go:89-95 | A recovery puts a running job back exactly when the stored text of its lock sorts below that of the cutoff, and leaves its whole row otherwise. |
| JobRows.RecoverBySeconds | internal/storage/sqlite/jobs.go:89-95 | It recovers every lock of an earlier second than the cutoff and never one of a later second. |
| JobWaiting.DelayExactUpTo | internal/storage/sqlite/jobs.go:82 | The delay is attempts squared in seconds exactly when there are at most 96038 attempts. |
| JobWaiting.DelayWrapsNegative | internal/storage/sqlite/jobs.go:82 | With 96039 attempts the wrapped delay is negative. |
| JobWaiting.RoundsSpentWaiting | internal/storage/sqlite/jobs.go:24-67 | Each claim round that leaves a due job waiting takes a full batch of jobs that were ahead of it, and none ever comes back ahead. |
| JobWaiting.BoundedWaiting | internal/storage/sqlite/jobs.go:24-67 | With r jobs ahead a due job is claimed by one of the next r / limit + 1 claim rounds. |
| JobWaiting.BoundedWaitingByTheClock | internal/storage/sqlite/jobs.go:24-67 | The same bound from conditions on clock, enqueues and delays alone, for a job whose second has passed. |
| JobWaiting.DueKeptExactly | internal/storage/sqlite/jobs.go:30 | A forward step of the clock keeps every due job due exactly when the later written fraction does not continue the earlier one in the same second. |
| JobWaiting.DueLost | internal/storage/sqlite/jobs.go:30 | An instance: a job due at a full second is not due half a second later. |
| JobRunner.RunOnce | internal/worker/runner.go:58-84 | One poll is exactly the run of one claim and of the finishes made before a cancellation, each with its handler's answer or the unknown-kind error; a failed claim does nothing and a failed finish leaves its job running. |
| JobRunner.Start | internal/worker/runner.go:37-56 | The worker's life is one determined run: a recovery, unless that call fails, then the acts of each poll on the table the polls before left, with their times, jobs and answers. |
| JobRunner.RecoveryGrace | internal/worker/runner.go:41 | The worker's recovery leaves a running job alone while its lock is less than five minutes old, to the second, and puts it back after that. |
| JobRunner.PollOutcome | internal/worker/runner.go:58-84 | One poll, job by job: a batched job that was reached ends by its handler's answer, and by the unknown-kind error when it has none; one not reached, or whose finish failed, is left running as claimed. |
| JobRunner.PollSpares | internal/worker/runner.go:58-84 | A poll leaves every job outside its batch alone. |
| JobRunner.ClaimedWithinPolls | internal/worker/runner.go:45-54 | With r jobs ahead, the worker claims a job whose second has passed within r / batch + 1 successful polls, on a clock that does not go back, whatever handlers answer and finishes fail. |
| JobRunner.WorkerTicks | internal/worker/runner.go:58-84 | The readings of the clock in the worker's acts never go back when those of its polls do not. |
| JobAttempts.AttemptsStayBounded | internal/storage/sqlite/jobs.go:52-94 | In every reachable state attempts are at most the cap plus the job's recoveries, and strictly less while it waits. |
| JobCap.CapStep | internal/storage/sqlite/jobs.go:89-94 | One statement of the store breaks the cap exactly when it recovers a stale job that has used its last attempt. |
| JobCap.CapKeptExactlyWhen | internal/storage/sqlite/jobs.go:52-94 | At the end of any run attempts are within the cap, with one to spare while waiting, exactly when no recovery of the run met a stale job at its cap. |
| JobCap.OverCapExactlyWhen | internal/storage/sqlite/jobs.go:52 | An attempt over the cap is always, and only, a claim of a job that has used its last attempt. |
| JobCap.OneAttemptTakenTwice | internal/storage/sqlite/jobs.go:89-94 | An instance: a job with one attempt is claimed, recovered after a crash, and claimed a second time. |
| JobAttempts.MeasureStep | internal/storage/sqlite/jobs.go:52-94 | Every claim that takes a job and every finish that ends an attempt lowers the measure; only enqueues and recoveries raise it, by a known amount. |
| JobAttempts.RunsEnd | internal/storage/sqlite/jobs.go:52-94 | The claims and finishes of a run that change something are at most the measure plus what enqueues and recoveries added. |
| JobAttempts.AttemptsAreSpaced | internal/storage/sqlite/jobs.go:81-86 | From the claim of a job never attempted before, whenever the job runs its n-th attempt was claimed at least (n-1)n(2n-1)/6 seconds later, without recoveries, although times are compared as texts. |
| TimeText.TextOrderAgainstTimeOrder | internal/storage/sqlite/db.go:74 | Byte order of stored times is time order, except that it is reversed exactly for two times of one second of which one written fraction continues the other. |
| TimeText.ParseOfTimeText | internal/storage/sqlite/db.go:74-75 | A stored time of the years 0 to 9999 reads back as the instant written. |
| TimeText.TextOrderKeepsSeconds | internal/storage/sqlite/db.go:74 | Text order never contradicts whole seconds. |
| TimeLayout.StoredTime | internal/storage/sqlite/db.go:74 | A stored time, character for character: four digits of the year, two each of month, day, hour, minute and second with their marks, the fraction if there is one, and Z. |
| TimeLayout.FractionValue | internal/storage/sqlite/db.go:74 | The written fraction is the least digits whose value in billionths is the nanoseconds, and empty exactly for none. |
| Calendar.DayNumberOrder | internal/storage/sqlite/db.go:74 | Day numbers follow the calendar, one to one. |
| Birthdays.NextDay | internal/domain/models.go:128 | The day after a date is the calendar's: the next of the month, or the first of the next month, or 1 January, with the leap rule of the 4, 100 and 400 years written out. |
| Birthdays.AnniversaryDay | internal/domain/models.go:128 | Adding years keeps month, day and time of day, except that 29 February runs on into 1 March of a common year. |
| Birthdays.TurnedIsAnniversary | internal/domain/models.go:128 | The anniversary has come exactly when the calendar date of the birthday has, and on that very day the time of birth. |
| Birthdays.AgeByCalendar | internal/enrollment/service.go:50-53 | The age is the difference of the calendar years, less one exactly when month, day and time of the start come before those of the birthday. |
| Age.AgeIsTheCompletedAge | internal/enrollment/service.go:50-53 | For every birth and start the computed age is the unique n whose birthday has come and whose next has not, leap-day births and births after the start included. |
| Age.MinorExactlyBelowEighteen | internal/domain/models.go:128 | The consent test holds exactly when the computed age is below eighteen. |
| Age.CompletedAge | internal/enrollment/service.go:50-53 | The difference of years, less one before the birthday, is the completed age. |
| LoginSessions.SessionStore.CreateSession | internal/storage/sqlite/accounts.go:60-66 | Adds a session exactly for a new token of an existing account. |
| LoginSessions.SessionStore.RevokeSession | internal/storage/sqlite/accounts.go:67-77 | Revokes exactly an unrevoked session. |
| LoginSessions.SessionStore.ResolveSession | internal/storage/sqlite/accounts.go:78-100 | Answers exactly for an unrevoked, unexpired session of an active account. |
| LoginSessions.SessionStore.DeleteExpiredSessions | internal/storage/sqlite/accounts.go:101-107 | Removes exactly the rows whose texts have passed the cutoffs and counts them. |
| LoginSessions.SessionStore.LiveSessionLost | internal/storage/sqlite/accounts.go:93-102 | Cleanup removes a session that still resolves exactly when it expires in the same second and its written fraction continues the clock's. |
| LoginSessions.ExpiredSessionKept | internal/storage/sqlite/accounts.go:93-102 | An expired session survives cleanup exactly in the mirrored case. |
| LoginSessions.CleanupStaysInItsSecond | internal/storage/sqlite/accounts.go:101-107 | Cleanup of an unrevoked session reaches no expiry beyond the cutoff's second and misses none before it. |
| LoginSessions.HalfSecondLost | internal/storage/sqlite/accounts.go:93-102 | An instance: half a second of life left, and cleaned up on the full second. |
| LoginSessions.CleanedUpByText | internal/storage/sqlite/accounts.go:101-107 | Cleanup takes a session exactly when the stored text of its expiry is at most that of the clock, or that of its revocation at most that of a day ago. |
| LoginSessions.RevokedKeptForADay | internal/storage/sqlite/accounts.go:101-107 | A revoked session that has not expired is kept for 86400 seconds, to the second, and removed after them. |
| Idempotency.PastIsTheHistory | internal/idempotency/service.go:31-70 | After any committed and rolled-back transactions the row of a key is exactly its committed history of acquisitions and completions. |
| Idempotency.AtMostOnce | internal/storage/sqlite/migrations/003_operations.sql:1 | Each key has at most one committed acquisition and one committed completion, and none when it had them before. |
| Idempotency.CompletedNeverChanges | internal/idempotency/service.go:60-70 | A key keeps its request for ever, and once completed its whole record. |
| Idempotency.ReplayIsTheCompletion | internal/idempotency/service.go:31-58 | Each answer of Begin tells the key's history: a replay has the hash of the single acquisition and the code and body of the single completion. |
| Idempotency.KeyStore.Begin | internal/idempotency/service.go:31-58 | Acquires, refuses or replays as the protocol says; a replayed body is a fresh buffer outside the store. |
| Idempotency.KeyStore.Complete | internal/idempotency/service.go:60-70 | Completes exactly a running key with a copy of the body. |
| Idempotency.ReplayAfterWrites | internal/idempotency/service_test.go:99-140 | Writing into the completed body and into a replayed body changes no later replay. |
| Migrations.SortByName | internal/storage/sqlite/migrations.go:26 | Sorts the directory in place: ascending names and the same files. |
| Migrations.SortedOrderIsUnique | internal/storage/sqlite/migrations.go:26 | With differing names the sorted order does not depend on the listing. |
| Migrations.SkippedExactlyWhen | internal/storage/sqlite/migrations.go:28-30 | A run passes over exactly the directories and the names that do not end in .sql. |
| Migrations.VersionOfName | internal/storage/sqlite/migrations.go:31-35 | The version of a script is the number written before its first underscore, whatever its leading zeros or sign, and its text is the file's. |
| Migrations.Migrate | internal/storage/sqlite/migrations.go:18-63 | A run, cut at any file and at any statement of its transaction, is the pass over the sorted files, and each script and ledger row go in together. |
| Migrations.LedgerIsAPrefix | internal/storage/sqlite/migrations.go:27-61 | After any number of runs, each cut anywhere, ledger and schema are those of a prefix of the plan. |
| Migrations.RestartsConverge | internal/storage/sqlite/migrations.go:27-61 | A completed run leaves what one uninterrupted run makes, and no later run changes anything. |
| Migrations.CompletesExactlyWhen | internal/storage/sqlite/migrations.go:31-35 | An uninterrupted run completes exactly when every script name has a version. |
| Migrations.PlanIsWholeExactlyWhen | internal/storage/sqlite/migrations.go:36-42 | The plan is the whole name-sorted list of scripts exactly when no two share a version. |
| Migrations.SecondScriptLost | internal/storage/sqlite/migrations.go:31-42 | An instance: of `001_b.sql` and `1_a.sql` only the first is ever applied. |

## Left out

- HTTP routing, middleware, JSON, configuration, bootstrap, password hashing, tokens and account registration: single-branch or library claims.
- The SQLite engine: committed transactions are serializable, unique indexes are as in the migration files, and row ids increase. Foreign keys are checked at commit, by the parameter `commits`.
- Goroutines, tickers and deadlines: the worker is a sequence of polls by the only runner, which may stop between jobs. Handlers, `expire_sessions` included, are oracles.
- JobStore.Store.FinishJob: its read and its write are one step, as with a single runner.
- JSON text of audit details: they are datatypes. `ListAudit` is not modelled.
- TimeText.ParseOfTimeText: the parser reads the texts `timeText` writes; offsets, a comma before the fraction and years outside 0 to 9999 are not modelled.
- TimeText.TextOrderAgainstTimeOrder: holds for the years 0 to 9999; stored times beyond them have longer or signed years.
- The entitlement's expiry two months ahead is a parameter; Publish's three readings of the clock are parameters too, and in UTC, although the code formats them without converting.
- Trimming removes ASCII white space; the other Unicode spaces are not modelled.
- Migrations.SortByName: the library's sort is an insertion sort here. Migration scripts are texts whose execution is a step of the schema.
- JobRunner.RunOnce: the quoted kind in the unknown-kind error is not escaped.
- Names, phone numbers, asset tags, template capacity, coach ratio and `last_inspected_at`: columns no modelled guard reads.
- Make-up redemption, repair, retirement, attendance and resubmission: no operation performs them; they may be part of the initial tables.
