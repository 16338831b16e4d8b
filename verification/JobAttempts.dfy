/**
 * The attempt cap with crash recovery, the measure that ends every run of claims and
 * finishes, and the spacing of the attempts.
 */
module JobAttempts {
  import opened Wrappers
  import opened Calendar
  import opened TimeText
  import opened Jobs
  import opened JobWaiting
  import opened Sums

  /** The job table with the number of times each job was recovered. */
  datatype Tracked = Tracked(q: Queue, recoveries: map<Id, nat>)

  ghost function Recovered(q: Queue, act: Act): set<Id>
    requires q.Valid() && act.Valid()
  {
    if act.Recover? then set i | i in q.rows && IsStale(q.rows[i], act.staleBefore) else {}
  }

  ghost function NextTracked(t: Tracked, act: Act): Tracked
    requires t.q.Valid() && act.Valid() && t.recoveries.Keys == t.q.rows.Keys
  {
    var q' := Next(t.q, act);
    Tracked(q', map i | i in q'.rows ::
      if i !in t.recoveries then 0
      else if i in Recovered(t.q, act) then t.recoveries[i] + 1 else t.recoveries[i])
  }

  /** Attempts stay within the cap plus the recoveries, with one to spare while waiting. */
  ghost predicate Bounded(job: Job, recoveries: nat) {
    && job.attempts <= job.maxAttempts + recoveries
    && (job.Waiting() ==> job.attempts < job.maxAttempts + recoveries)
  }

  ghost predicate AllBounded(t: Tracked) {
    && t.q.Valid() && t.recoveries.Keys == t.q.rows.Keys
    && forall i :: i in t.q.rows ==> Bounded(t.q.rows[i], t.recoveries[i])
  }

  lemma BatchIsDue(q: Queue, limit: int, now: Instant, i: Id)
    requires q.Valid() && now.Valid() && i in Batch(q, limit, now)
    ensures i in q.rows && q.rows[i].Waiting()
  {
  }

  lemma BoundedClaim(t: Tracked, limit: int, now: Instant)
    requires AllBounded(t) && now.Valid()
    ensures AllBounded(NextTracked(t, Claim(limit, now)))
  {
    var t' := NextTracked(t, Claim(limit, now));
    forall i | i in t.q.rows ensures Bounded(t'.q.rows[i], t'.recoveries[i]) {
      if i in Batch(t.q, limit, now) {
        BatchIsDue(t.q, limit, now, i);
      }
    }
  }

  lemma BoundedFinish(t: Tracked, id: Id, error: Option<string>, now: Instant)
    requires AllBounded(t) && now.Valid()
    ensures AllBounded(NextTracked(t, Finish(id, error, now)))
  {
    var t' := NextTracked(t, Finish(id, error, now));
    forall i | i in t.q.rows ensures Bounded(t'.q.rows[i], t'.recoveries[i]) {
      if i == id && t.q.rows[i].status.Running? {
        assert t'.q.rows[i] == FinishedJob(t.q.rows[i], error, now);
      }
    }
  }

  lemma BoundedRecover(t: Tracked, staleBefore: Instant, now: Instant)
    requires AllBounded(t) && staleBefore.Valid() && now.Valid()
    ensures AllBounded(NextTracked(t, Recover(staleBefore, now)))
  {
    var t' := NextTracked(t, Recover(staleBefore, now));
    forall i | i in t.q.rows ensures Bounded(t'.q.rows[i], t'.recoveries[i]) {
    }
  }

  lemma BoundedEnqueue(t: Tracked, act: Act)
    requires AllBounded(t) && act.Valid() && act.Enqueue?
    ensures AllBounded(NextTracked(t, act))
  {
    var t' := NextTracked(t, act);
    forall i | i in t'.q.rows ensures Bounded(t'.q.rows[i], t'.recoveries[i]) {
      assert i !in t.q.rows ==> t'.q.rows[i].attempts == 0 && t'.q.rows[i].maxAttempts >= 1;
    }
  }

  lemma BoundedStep(t: Tracked, act: Act)
    requires AllBounded(t) && act.Valid()
    ensures AllBounded(NextTracked(t, act))
  {
    match act
    case Claim(limit, now) => BoundedClaim(t, limit, now);
    case Finish(id, error, now) => BoundedFinish(t, id, error, now);
    case Recover(staleBefore, now) => BoundedRecover(t, staleBefore, now);
    case Enqueue(_, _, _, _, _, _) => BoundedEnqueue(t, act);
  }

  ghost function RunTracked(t: Tracked, acts: seq<Act>): Tracked
    requires AllBounded(t) && ValidActs(acts)
    decreases |acts|
  {
    if acts == [] then t
    else
      BoundedStep(t, acts[0]);
      RunTracked(NextTracked(t, acts[0]), acts[1..])
  }

  /** In every reachable state, and for every job, also across any number of recoveries. */
  lemma {:induction false} AttemptsStayBounded(t: Tracked, acts: seq<Act>)
    requires AllBounded(t) && ValidActs(acts)
    ensures AllBounded(RunTracked(t, acts))
    ensures RunTracked(t, acts).q == Run(t.q, acts)
    decreases |acts|
  {
    if acts != [] {
      BoundedStep(t, acts[0]);
      AttemptsStayBounded(NextTracked(t, acts[0]), acts[1..]);
    }
  }

  // ----- termination

  /** What a live job can still cost: two steps an attempt, and one while running. */
  function Weight(job: Job, recoveries: nat): int {
    if job.status.Succeeded? || job.status.Failed? then 0
    else 2 * (job.maxAttempts + recoveries - job.attempts) + (if job.status.Running? then 1 else 0)
  }

  ghost function Weights(t: Tracked): map<Id, int>
    requires t.recoveries.Keys == t.q.rows.Keys
  {
    map i | i in t.q.rows :: Weight(t.q.rows[i], t.recoveries[i])
  }

  ghost function Measure(t: Tracked): int
    requires t.recoveries.Keys == t.q.rows.Keys
  {
    Sum(Weights(t))
  }

  /** What an enqueue or a recovery adds: two an attempt, and one for each recovered job. */
  ghost function Added(q: Queue, act: Act): nat
    requires q.Valid() && act.Valid()
  {
    match act
    case Enqueue(_, key, _, maxAttempts, _, _) => if maxAttempts < 1 || KeyTaken(q, key) then 0 else 2 * maxAttempts
    case Recover(_, _) => |Recovered(q, act)|
    case _ => 0
  }

  ghost predicate Progress(q: Queue, act: Act)
    requires q.Valid() && act.Valid()
  {
    (act.Claim? || act.Finish?) && Next(q, act) != q
  }

  lemma TakenWeights(w: map<Id, int>, w': map<Id, int>, taken: set<Id>)
    requires w.Keys == w'.Keys && taken <= w.Keys
    requires forall i :: i in w ==> w'[i] == w[i] - if i in taken then 1 else 0
    ensures Sum(w') == Sum(w) - |taken|
  {
    var ones := map i | i in w :: if i in taken then 1 else 0;
    forall i | i in w ensures w[i] == w'[i] + ones[i] {
    }
    SumOfColumns(w', ones, w);
    SumOfOnes(ones, taken);
  }

  lemma ClaimCosts(t: Tracked, limit: int, now: Instant)
    requires AllBounded(t) && now.Valid()
    ensures Measure(NextTracked(t, Claim(limit, now))) == Measure(t) - |set i | i in Batch(t.q, limit, now)|
  {
    var ids := Batch(t.q, limit, now);
    var t' := NextTracked(t, Claim(limit, now));
    forall i | i in t.q.rows ensures Weights(t')[i] == Weights(t)[i] - if i in ids then 1 else 0 {
      if i in ids {
        BatchIsDue(t.q, limit, now, i);
      }
    }
    TakenWeights(Weights(t), Weights(t'), set i | i in ids);
  }

  /** Only recovery and new rows touch the counts of recoveries. */
  lemma RecoveriesKept(t: Tracked, act: Act)
    requires AllBounded(t) && act.Valid() && !act.Recover?
    ensures forall i :: i in t.q.rows ==> NextTracked(t, act).recoveries[i] == t.recoveries[i]
  {
  }

  /** One row written: one weight changes. */
  lemma OneWritten(t: Tracked, t': Tracked, i: Id, job: Job)
    requires t.recoveries.Keys == t.q.rows.Keys && t'.recoveries.Keys == t'.q.rows.Keys
    requires t'.q.rows == t.q.rows[i := job]
    requires forall k :: k in t.q.rows && k != i ==> t'.recoveries[k] == t.recoveries[k]
    ensures i in t.q.rows ==>
        Measure(t') == Measure(t) - Weight(t.q.rows[i], t.recoveries[i]) + Weight(job, t'.recoveries[i])
    ensures i !in t.q.rows ==> Measure(t') == Measure(t) + Weight(job, t'.recoveries[i])
  {
    var (w, w') := (Weights(t), Weights(t'));
    assert w'.Keys == w.Keys + {i};
    forall k | k in w' && k != i ensures w'[k] == w[k] {
    }
    assert w' == w[i := Weight(job, t'.recoveries[i])];
    SumUpdate(w, i, Weight(job, t'.recoveries[i]));
  }

  lemma NoneWritten(t: Tracked, t': Tracked)
    requires t.recoveries.Keys == t.q.rows.Keys && t'.recoveries.Keys == t'.q.rows.Keys
    requires t'.q.rows == t.q.rows && forall k :: k in t.q.rows ==> t'.recoveries[k] == t.recoveries[k]
    ensures Measure(t') == Measure(t)
  {
    var (w, w') := (Weights(t), Weights(t'));
    assert w'.Keys == w.Keys;
    forall k | k in w ensures w'[k] == w[k] {
    }
    assert w' == w;
  }

  lemma FinishedWeight(job: Job, recoveries: nat, error: Option<string>, now: Instant)
    requires Bounded(job, recoveries) && job.status.Running?
    ensures Weight(FinishedJob(job, error, now), recoveries) < Weight(job, recoveries)
  {
  }

  lemma FinishCosts(t: Tracked, id: Id, error: Option<string>, now: Instant)
    requires AllBounded(t) && now.Valid()
    ensures var act := Finish(id, error, now);
            Measure(NextTracked(t, act)) + (if Next(t.q, act) != t.q then 1 else 0) <= Measure(t)
  {
    var act := Finish(id, error, now);
    var t' := NextTracked(t, act);
    RecoveriesKept(t, act);
    if id in t.q.rows && t.q.rows[id].status.Running? {
      FinishedWeight(t.q.rows[id], t.recoveries[id], error, now);
      OneWritten(t, t', id, FinishedJob(t.q.rows[id], error, now));
    } else {
      NoneWritten(t, t');
    }
  }

  lemma RecoveredWeight(t: Tracked, act: Act, i: Id)
    requires AllBounded(t) && act.Valid() && act.Recover? && i in t.q.rows
    ensures Weights(NextTracked(t, act))[i] == Weights(t)[i] + if i in Recovered(t.q, act) then 1 else 0
  {
    var (job, t') := (t.q.rows[i], NextTracked(t, act));
    if IsStale(job, act.staleBefore) {
      assert t'.q.rows[i] == RecoveredJob(job, act.now) && t'.recoveries[i] == t.recoveries[i] + 1;
    } else {
      assert t'.q.rows[i] == job && t'.recoveries[i] == t.recoveries[i];
    }
  }

  lemma RaisedWeights(w: map<Id, int>, w': map<Id, int>, raised: set<Id>)
    requires w.Keys == w'.Keys && raised <= w.Keys
    requires forall i :: i in w ==> w'[i] == w[i] + if i in raised then 1 else 0
    ensures Sum(w') == Sum(w) + |raised|
  {
    var ones := map i | i in w :: if i in raised then 1 else 0;
    forall i | i in w ensures w'[i] == w[i] + ones[i] {
    }
    SumOfColumns(w, ones, w');
    SumOfOnes(ones, raised);
  }

  lemma RecoverCosts(t: Tracked, act: Act)
    requires AllBounded(t) && act.Valid() && act.Recover?
    ensures Measure(NextTracked(t, act)) == Measure(t) + Added(t.q, act)
  {
    var (w, w') := (Weights(t), Weights(NextTracked(t, act)));
    assert NextTracked(t, act).q.rows.Keys == t.q.rows.Keys;
    assert w'.Keys == w.Keys && Recovered(t.q, act) <= w.Keys;
    forall i | i in w ensures w'[i] == w[i] + if i in Recovered(t.q, act) then 1 else 0 {
      RecoveredWeight(t, act, i);
    }
    RaisedWeights(w, w', Recovered(t.q, act));
  }

  lemma EnqueueCosts(t: Tracked, act: Act)
    requires AllBounded(t) && act.Valid() && act.Enqueue?
    ensures Measure(NextTracked(t, act)) == Measure(t) + Added(t.q, act)
  {
    var t' := NextTracked(t, act);
    RecoveriesKept(t, act);
    if act.maxAttempts < 1 || KeyTaken(t.q, act.key) {
      NoneWritten(t, t');
    } else {
      var i := t.q.next;
      OneWritten(t, t', i, NewJob(i, act.kind, act.key, act.payload, act.maxAttempts, act.available, act.now));
    }
  }

  /** Every claim that takes a job and every finish that closes an attempt uses the measure up. */
  lemma MeasureStep(t: Tracked, act: Act)
    requires AllBounded(t) && act.Valid()
    ensures Measure(NextTracked(t, act)) + (if Progress(t.q, act) then 1 else 0) <= Measure(t) + Added(t.q, act)
  {
    match act {
      case Claim(limit, now) =>
        ClaimCosts(t, limit, now);
        if Batch(t.q, limit, now) == [] {
          assert Next(t.q, act).rows == t.q.rows;
        } else {
          assert Batch(t.q, limit, now)[0] in (set i | i in Batch(t.q, limit, now));
        }
      case Finish(id, error, now) => FinishCosts(t, id, error, now);
      case Recover(_, _) => RecoverCosts(t, act);
      case Enqueue(_, _, _, _, _, _) => EnqueueCosts(t, act);
    }
  }

  ghost function ProgressIn(q: Queue, acts: seq<Act>): nat
    requires q.Valid() && ValidActs(acts)
    decreases |acts|
  {
    if acts == [] then 0 else (if Progress(q, acts[0]) then 1 else 0) + ProgressIn(Next(q, acts[0]), acts[1..])
  }

  ghost function AddedIn(q: Queue, acts: seq<Act>): nat
    requires q.Valid() && ValidActs(acts)
    decreases |acts|
  {
    if acts == [] then 0 else Added(q, acts[0]) + AddedIn(Next(q, acts[0]), acts[1..])
  }

  lemma MeasureIsNonNegative(t: Tracked)
    requires AllBounded(t)
    ensures Measure(t) >= 0
  {
    forall i | i in t.q.rows ensures Weights(t)[i] >= 0 {
      assert Bounded(t.q.rows[i], t.recoveries[i]);
    }
    SumNonNegative(Weights(t));
  }

  /** So with finitely many enqueues and recoveries every run of claims and finishes ends. */
  lemma {:induction false} RunsEnd(t: Tracked, acts: seq<Act>)
    requires AllBounded(t) && ValidActs(acts)
    ensures ProgressIn(t.q, acts) <= Measure(t) + AddedIn(t.q, acts)
    decreases |acts|
  {
    MeasureIsNonNegative(t);
    if acts != [] {
      BoundedStep(t, acts[0]);
      MeasureStep(t, acts[0]);
      RunsEnd(NextTracked(t, acts[0]), acts[1..]);
    }
  }

  // ----- spacing of the attempts

  function SumOfSquares(n: nat): nat {
    if n == 0 then 0 else SumOfSquares(n - 1) + Square(n)
  }

  lemma {:induction false} SumOfSquaresClosedForm(n: nat)
    ensures 6 * SumOfSquares(n) == n * (n + 1) * (2 * n + 1)
  {
    if n > 0 {
      SumOfSquaresClosedForm(n - 1);
      NextSquare(n);
    }
  }

  lemma NextSquare(n: int)
    ensures (n - 1) * n * (2 * n - 1) + 6 * Square(n) == n * (n + 1) * (2 * n + 1)
  {
    var s := n * n;
    assert (n - 1) * n == s - n;
    assert n * (n + 1) == s + n;
    assert (s - n) * (2 * n - 1) == 2 * (n * s) - 3 * s + n;
    assert (s + n) * (2 * n + 1) == 2 * (n * s) + 3 * s + n;
  }

  /** The job runs, or waits, no earlier than the squares of its attempts since `start`. */
  ghost predicate Spaced(job: Job, start: int, clock: int) {
    && 1 <= job.attempts && !job.status.Pending?
    && (job.status.Running? ==>
          job.lockedAt.Some? && start + SumOfSquares(job.attempts - 1) <= job.lockedAt.value.sec <= clock)
    && (job.status.Retry? ==> start + SumOfSquares(job.attempts) <= job.available.sec)
  }

  /** The clock does not go back, the job is not recovered, and its delays fit. */
  ghost predicate SteadyStep(q: Queue, act: Act, j: Id, clock: int)
    requires q.Valid() && act.Valid() && j in q.rows
  {
    && clock <= act.now.sec && j !in Recovered(q, act)
    && (act.Finish? && act.id == j ==> q.rows[j].attempts <= MAX_EXACT_ATTEMPTS)
  }

  ghost predicate Steady(q: Queue, acts: seq<Act>, j: Id, clock: int)
    requires q.Valid() && ValidActs(acts) && j in q.rows
    decreases |acts|
  {
    acts == [] || (SteadyStep(q, acts[0], j, clock) && Steady(Next(q, acts[0]), acts[1..], j, acts[0].now.sec))
  }

  lemma SpacedClaim(job: Job, start: int, clock: int, now: Instant)
    requires Spaced(job, start, clock) && job.Waiting()
    requires job.available.Valid() && now.Valid() && TextAtMost(job.available, now)
    ensures Spaced(ClaimedJob(job, now), start, now.sec)
  {
    TextOrderKeepsSeconds(job.available, now);
  }

  lemma SpacedFinish(job: Job, start: int, clock: int, error: Option<string>, now: Instant)
    requires Spaced(job, start, clock) && job.status.Running? && job.attempts <= MAX_EXACT_ATTEMPTS
    requires now.Valid() && clock <= now.sec
    ensures Spaced(FinishedJob(job, error, now), start, now.sec)
  {
    RetryAfter(now, job.attempts);
  }

  lemma SpacedStep(q: Queue, act: Act, j: Id, start: int, clock: int)
    requires q.Valid() && act.Valid() && j in q.rows
    requires SteadyStep(q, act, j, clock) && Spaced(q.rows[j], start, clock)
    ensures Spaced(Next(q, act).rows[j], start, act.now.sec)
  {
    var job := q.rows[j];
    match act
    case Claim(limit, now) =>
      if j in Batch(q, limit, now) {
        assert j in Due(q, now);
        SpacedClaim(job, start, clock, now);
      }
    case Finish(i, error, now) =>
      if i == j && job.status.Running? {
        SpacedFinish(job, start, clock, error, now);
      }
    case Enqueue(_, _, _, _, _, _) =>
    case Recover(_, _) =>
  }

  function LastSecond(acts: seq<Act>, clock: int): int {
    if acts == [] then clock else LastSecond(acts[1..], acts[0].now.sec)
  }

  lemma {:induction false} SpacedRun(q: Queue, acts: seq<Act>, j: Id, start: int, clock: int)
    requires q.Valid() && ValidActs(acts) && j in q.rows
    requires Steady(q, acts, j, clock) && Spaced(q.rows[j], start, clock)
    ensures j in Run(q, acts).rows && Spaced(Run(q, acts).rows[j], start, LastSecond(acts, clock))
    decreases |acts|
  {
    if acts != [] {
      SpacedStep(q, acts[0], j, start, clock);
      SpacedRun(Next(q, acts[0]), acts[1..], j, start, acts[0].now.sec);
    }
  }

  /** The lock of a running job is at least (n - 1) n (2n - 1) / 6 seconds past the start. */
  ghost predicate SpacedOut(job: Job, start: int) {
    && job.lockedAt.Some?
    && 6 * (job.lockedAt.value.sec - start) >= (job.attempts - 1) * job.attempts * (2 * job.attempts - 1)
  }

  lemma {:induction false} SpacedInSeconds(job: Job, start: int, clock: int)
    requires Spaced(job, start, clock) && job.status.Running?
    ensures SpacedOut(job, start)
  {
    SumOfSquaresClosedForm(job.attempts - 1);
  }

  /** A first claim starts the count. */
  lemma FirstClaimIsSpaced(q: Queue, limit: int, now: Instant, j: Id)
    requires q.Valid() && now.Valid() && j in Batch(q, limit, now) && q.rows[j].attempts == 0
    ensures j in q.rows && Spaced(Next(q, Claim(limit, now)).rows[j], now.sec, now.sec)
  {
  }

  /**
   * The n-th claim of a job that is not recovered comes at least (n - 1) n (2n - 1) / 6
   * seconds after its first, although SQL compares texts.
   */
  lemma {:induction false} AttemptsAreSpaced(q: Queue, limit: int, now: Instant, acts: seq<Act>, j: Id)
    requires q.Valid() && now.Valid() && ValidActs(acts)
    requires j in Batch(q, limit, now) && q.rows[j].attempts == 0
    requires Steady(Next(q, Claim(limit, now)), acts, j, now.sec)
    ensures var rows := Run(Next(q, Claim(limit, now)), acts).rows;
            j in rows && (rows[j].status.Running? ==> SpacedOut(rows[j], now.sec))
  {
    var claimed := Next(q, Claim(limit, now));
    FirstClaimIsSpaced(q, limit, now, j);
    SpacedRun(claimed, acts, j, now.sec, now.sec);
    var job := Run(claimed, acts).rows[j];
    if job.status.Running? {
      SpacedInSeconds(job, now.sec, LastSecond(acts, now.sec));
    }
  }
}
