/**
 * The attempt cap itself: recovery does not look at it. The laws say exactly which
 * recovery breaks the cap, and that nothing else does and nothing mends it.
 */
module JobCap {
  import opened Wrappers
  import opened Calendar
  import opened TimeText
  import opened Jobs
  import opened JobAttempts

  /** Within the cap, with an attempt to spare while the job waits for one. */
  predicate WithinCap(job: Job) {
    job.attempts <= job.maxAttempts && (job.Waiting() ==> job.attempts < job.maxAttempts)
  }

  ghost predicate CapKept(q: Queue) { forall i :: i in q.rows ==> WithinCap(q.rows[i]) }

  /** A stale running job that has used its last attempt. */
  ghost predicate AtCap(job: Job, staleBefore: Instant)
    requires job.Valid() && staleBefore.Valid()
  {
    IsStale(job, staleBefore) && job.attempts == job.maxAttempts
  }

  /** A recovery that sends a job back for a retry although its last attempt is used. */
  ghost predicate RecoversAtCap(q: Queue, act: Act)
    requires q.Valid() && act.Valid()
  {
    act.Recover? && exists i :: i in q.rows && AtCap(q.rows[i], act.staleBefore)
  }

  lemma ClaimKeepsCap(q: Queue, limit: int, now: Instant)
    requires q.Valid() && now.Valid() && CapKept(q)
    ensures CapKept(Next(q, Claim(limit, now)))
  {
    var q' := Next(q, Claim(limit, now));
    forall i | i in q'.rows ensures WithinCap(q'.rows[i]) {
      if i in Batch(q, limit, now) {
        BatchIsDue(q, limit, now, i);
      }
    }
  }

  lemma FinishedWithinCap(job: Job, error: Option<string>, now: Instant)
    requires WithinCap(job)
    ensures WithinCap(FinishedJob(job, error, now))
  {
  }

  lemma FinishKeepsCap(q: Queue, id: Id, error: Option<string>, now: Instant)
    requires q.Valid() && now.Valid() && CapKept(q)
    ensures CapKept(Next(q, Finish(id, error, now)))
  {
    if id in q.rows {
      FinishedWithinCap(q.rows[id], error, now);
    }
  }

  lemma EnqueueKeepsCap(q: Queue, act: Act)
    requires q.Valid() && act.Valid() && act.Enqueue? && CapKept(q)
    ensures CapKept(Next(q, act))
  {
  }

  lemma RecoveryAndCap(q: Queue, act: Act)
    requires q.Valid() && act.Valid() && act.Recover? && CapKept(q)
    ensures CapKept(Next(q, act)) <==> !RecoversAtCap(q, act)
  {
    var q' := Next(q, act);
    forall i | i in q.rows
      ensures WithinCap(q'.rows[i]) <==> !AtCap(q.rows[i], act.staleBefore)
    {
    }
    if RecoversAtCap(q, act) {
      var i :| i in q.rows && AtCap(q.rows[i], act.staleBefore);
      assert !WithinCap(q'.rows[i]);
    }
  }

  /** One act breaks the cap exactly when it recovers a stale job that has used its last attempt. */
  lemma CapStep(q: Queue, act: Act)
    requires q.Valid() && act.Valid() && CapKept(q)
    ensures CapKept(Next(q, act)) <==> !RecoversAtCap(q, act)
  {
    match act
    case Claim(limit, now) => ClaimKeepsCap(q, limit, now);
    case Finish(id, error, now) => FinishKeepsCap(q, id, error, now);
    case Enqueue(_, _, _, _, _, _) => EnqueueKeepsCap(q, act);
    case Recover(_, _) => RecoveryAndCap(q, act);
  }

  lemma BrokenStays(q: Queue, act: Act, i: Id)
    requires q.Valid() && act.Valid() && i in q.rows && !WithinCap(q.rows[i])
    ensures !WithinCap(Next(q, act).rows[i])
  {
    match act
    case Claim(limit, now) =>
      if i in Batch(q, limit, now) {
        BatchIsDue(q, limit, now, i);
      }
    case _ =>
  }

  lemma {:induction false} BrokenStaysBroken(q: Queue, acts: seq<Act>, i: Id)
    requires q.Valid() && ValidActs(acts) && i in q.rows && !WithinCap(q.rows[i])
    ensures !CapKept(Run(q, acts))
    decreases |acts|
  {
    if acts != [] {
      BrokenStays(q, acts[0], i);
      BrokenStaysBroken(Next(q, acts[0]), acts[1..], i);
    }
  }

  /** Some recovery of the run meets a stale job at its cap. */
  ghost predicate SomeRecoveryAtCap(q: Queue, acts: seq<Act>)
    requires q.Valid() && ValidActs(acts)
    decreases |acts|
  {
    acts != [] && (RecoversAtCap(q, acts[0]) || SomeRecoveryAtCap(Next(q, acts[0]), acts[1..]))
  }

  /** Over every run: the cap holds at the end exactly when no recovery on the way met a stale job at it. */
  lemma {:induction false} CapKeptExactlyWhen(q: Queue, acts: seq<Act>)
    requires q.Valid() && ValidActs(acts) && CapKept(q)
    ensures CapKept(Run(q, acts)) <==> !SomeRecoveryAtCap(q, acts)
    decreases |acts|
  {
    if acts != [] {
      var q' := Next(q, acts[0]);
      CapStep(q, acts[0]);
      if CapKept(q') {
        CapKeptExactlyWhen(q', acts[1..]);
      } else {
        var i :| i in q'.rows && !WithinCap(q'.rows[i]);
        BrokenStaysBroken(q', acts[1..], i);
      }
    }
  }

  /** The attempt over the cap is always a claim of a job that has used its last one. */
  lemma OverCapExactlyWhen(q: Queue, act: Act, i: Id)
    requires q.Valid() && act.Valid() && i in q.rows && q.rows[i].attempts <= q.rows[i].maxAttempts
    ensures var job := Next(q, act).rows[i];
            job.attempts > job.maxAttempts <==>
              act.Claim? && i in Batch(q, act.limit, act.now) && q.rows[i].attempts == q.rows[i].maxAttempts
  {
  }

  // ----- an instance

  function Sole(job: Job): Queue { Queue(map[1 := job], 2) }

  const NO_JOBS := Queue(map[], 1)

  lemma SoleEnqueue(act: Act)
    requires act.Valid() && act.Enqueue? && act.maxAttempts >= 1
    ensures NO_JOBS.Valid() && CapKept(NO_JOBS)
    ensures Next(NO_JOBS, act)
         == Sole(NewJob(1, act.kind, act.key, act.payload, act.maxAttempts, act.available, act.now))
  {
  }

  lemma SoleBatch(job: Job, now: Instant)
    requires job.Valid() && job.id == 1 && now.Valid() && IsDue(job, now)
    ensures Batch(Sole(job), 1, now) == [1]
  {
    var q := Sole(job);
    assert Due(q, now) == {1};
    assert IsFront(q, {1}, 1, [1]);
    FrontIsUnique(q, {1}, 1, Batch(q, 1, now), [1]);
  }

  lemma SoleClaim(job: Job, now: Instant)
    requires job.Valid() && job.id == 1 && job.Waiting() && now.Valid() && job.available.sec < now.sec
    ensures Next(Sole(job), Claim(1, now)) == Sole(ClaimedJob(job, now))
  {
    TextOrderKeepsSeconds(job.available, now);
    TextBeforeIsTotal(job.available, now);
    SoleBatch(job, now);
    assert Next(Sole(job), Claim(1, now)).rows == map[1 := ClaimedJob(job, now)];
  }

  lemma SoleRecover(job: Job, staleBefore: Instant, now: Instant)
    requires job.Valid() && job.id == 1 && job.status.Running? && staleBefore.Valid() && now.Valid()
    requires job.lockedAt.value.sec < staleBefore.sec
    ensures Next(Sole(job), Recover(staleBefore, now)) == Sole(RecoveredJob(job, now))
  {
    TextOrderKeepsSeconds(job.lockedAt.value, staleBefore);
    assert Next(Sole(job), Recover(staleBefore, now)).rows == map[1 := RecoveredJob(job, now)];
  }

  lemma RunCons(q: Queue, act: Act, acts: seq<Act>)
    requires q.Valid() && act.Valid() && ValidActs(acts)
    ensures Run(q, [act] + acts) == Run(Next(q, act), acts)
  {
    assert ([act] + acts)[1..] == acts;
  }

  function At(second: int): Instant { Instant(second, 0) }

  const CRASH := [Claim(1, At(1)), Recover(At(2), At(3)), Claim(1, At(4))]

  function CrashedJob(job: Job): Job { ClaimedJob(RecoveredJob(ClaimedJob(job, At(1)), At(3)), At(4)) }

  lemma CrashRun(job: Job)
    requires job.Valid() && job.id == 1 && job.status.Pending? && job.available == At(0)
    ensures ValidActs(CRASH) && Run(Sole(job), CRASH) == Sole(CrashedJob(job))
  {
    var taken := ClaimedJob(job, At(1));
    var again := RecoveredJob(taken, At(3));
    SoleClaim(job, At(1));
    SoleRecover(taken, At(2), At(3));
    SoleClaim(again, At(4));
    RunCons(Sole(job), Claim(1, At(1)), [Recover(At(2), At(3)), Claim(1, At(4))]);
    RunCons(Sole(taken), Recover(At(2), At(3)), [Claim(1, At(4))]);
    RunCons(Sole(again), Claim(1, At(4)), []);
  }

  /** A job with one attempt: claimed, left by a crash, recovered, and claimed a second time. */
  lemma OneAttemptTakenTwice(enqueue: Act)
    requires enqueue.Enqueue? && enqueue.maxAttempts == 1 && enqueue.available == At(0) && enqueue.now == At(0)
    ensures NO_JOBS.Valid() && CapKept(NO_JOBS) && ValidActs([enqueue] + CRASH)
    ensures var rows := Run(NO_JOBS, [enqueue] + CRASH).rows;
            1 in rows && rows[1].attempts == 2 && rows[1].maxAttempts == 1
  {
    var job := NewJob(1, enqueue.kind, enqueue.key, enqueue.payload, 1, At(0), At(0));
    SoleEnqueue(enqueue);
    CrashRun(job);
    RunCons(NO_JOBS, enqueue, CRASH);
    assert Run(NO_JOBS, [enqueue] + CRASH) == Sole(CrashedJob(job));
  }
}
