/**
 * The worker: it recovers once, then claims a batch at each tick, runs the handlers, and
 * finishes the jobs. Its whole life is one determined run of the job store.
 */
module JobRunner {
  import opened Wrappers
  import opened Calendar
  import opened Jobs
  import opened JobWaiting
  import opened JobAttempts
  import opened JobStore
  import opened JobRows

  /**
   * What surrounds one poll: the clock at the claim and after each handler, what the
   * handlers answer, which database calls fail, and after how many jobs it is canceled.
   */
  datatype Poll = Poll(claimAt: Instant, claimFails: bool, answers: Id -> Option<string>,
                       clock: nat -> Instant, finishFails: nat -> bool, stopAfter: nat)
  {
    ghost predicate Valid() { claimAt.Valid() && forall k :: clock(k).Valid() }

    /** The clock does not go back during the poll. */
    ghost predicate Forward() {
      && (forall k :: !Earlier(clock(k), claimAt))
      && (forall k, l :: k < l ==> !Earlier(clock(l), clock(k)))
    }

    /** All its readings come before a later one. */
    ghost predicate Until(later: Instant) {
      !Earlier(later, claimAt) && forall k :: !Earlier(later, clock(k))
    }
  }

  ghost predicate ValidPolls(polls: seq<Poll>) { forall k :: 0 <= k < |polls| ==> polls[k].Valid() }

  function UnknownKind(kind: string): string { "unknown job kind \"" + kind + "\"" }

  /** What a handler answers; a kind without a handler is an error. */
  function Answer(handlers: set<string>, kind: string, answer: Option<string>): Option<string> {
    if kind in handlers then answer else Some(UnknownKind(kind))
  }

  /** The finish of a claimed job, with its handler's answer and the clock after it. */
  function FinishOf(id: Id, kind: string, handlers: set<string>, answers: Id -> Option<string>, now: Instant): Act {
    Finish(id, Answer(handlers, kind, answers(id)), now)
  }

  /** The finishes of the first n claimed jobs: a call that fails leaves its job running. */
  ghost function Finishes(q: Queue, ids: seq<Id>, handlers: set<string>, poll: Poll, n: nat): (acts: seq<Act>)
    requires n <= |ids| && poll.Valid() && forall k :: 0 <= k < |ids| ==> ids[k] in q.rows
    ensures ValidActs(acts)
  {
    if n == 0 then []
    else
      var acts := Finishes(q, ids, handlers, poll, n - 1);
      if poll.finishFails(n - 1) then acts
      else acts + [FinishOf(ids[n - 1], q.rows[ids[n - 1]].kind, handlers, poll.answers, poll.clock(n - 1))]
  }

  function Smaller(a: nat, b: nat): nat { if a < b then a else b }

  lemma BatchRows(q: Queue, limit: int, now: Instant)
    requires q.Valid() && now.Valid()
    ensures forall k :: 0 <= k < |Batch(q, limit, now)| ==> Batch(q, limit, now)[k] in q.rows
  {
  }

  /** What one poll does to the job store: nothing, or one claim and the finishes of its batch. */
  ghost function PollActs(q: Queue, batch: int, handlers: set<string>, poll: Poll): (acts: seq<Act>)
    requires q.Valid() && poll.Valid()
    ensures ValidActs(acts)
  {
    if poll.claimFails then []
    else
      var ids := Batch(q, batch, poll.claimAt);
      BatchRows(q, batch, poll.claimAt);
      [Claim(batch, poll.claimAt)] + Finishes(q, ids, handlers, poll, Smaller(|ids|, poll.stopAfter))
  }

  /** What a sequence of polls does, each on the table the ones before left. */
  ghost function WorkerActs(q: Queue, batch: int, handlers: set<string>, polls: seq<Poll>): (acts: seq<Act>)
    requires q.Valid() && ValidPolls(polls)
    ensures ValidActs(acts)
    decreases |polls|
  {
    if polls == [] then []
    else
      var before := WorkerActs(q, batch, handlers, polls[..|polls| - 1]);
      before + PollActs(Run(q, before), batch, handlers, polls[|polls| - 1])
  }

  // ----- runs, cut and joined

  lemma {:induction false} RunConcat(q: Queue, a: seq<Act>, b: seq<Act>)
    requires q.Valid() && ValidActs(a) && ValidActs(b)
    ensures ValidActs(a + b) && Run(q, a + b) == Run(Run(q, a), b)
    decreases |a|
  {
    if a == [] {
      assert a + b == b;
    } else {
      assert (a + b)[0] == a[0] && (a + b)[1..] == a[1..] + b;
      RunConcat(Next(q, a[0]), a[1..], b);
    }
  }

  lemma RunAppend(q: Queue, acts: seq<Act>, act: Act)
    requires q.Valid() && ValidActs(acts) && act.Valid()
    ensures Run(q, acts + [act]) == Next(Run(q, acts), act)
  {
    RunConcat(q, acts, [act]);
    assert Run(Run(q, acts), [act]) == Run(Next(Run(q, acts), act), []);
  }

  lemma {:induction false} ClaimsConcat(a: seq<Act>, b: seq<Act>)
    ensures Claims(a + b) == Claims(a) + Claims(b)
    decreases |a|
  {
    if a == [] {
      assert a + b == b;
    } else {
      assert (a + b)[0] == a[0] && (a + b)[1..] == a[1..] + b;
      ClaimsConcat(a[1..], b);
    }
  }

  // ----- the methods

  /** Runs and finishes claimed jobs one after the other, and stops between jobs when canceled. */
  method Dispatch(store: Store, jobs: seq<Job>, handlers: set<string>, poll: Poll, ghost q: Queue, ghost ids: seq<Id>)
    returns (visited: nat)
    requires store.Valid() && poll.Valid() && |jobs| == |ids|
    requires forall k :: 0 <= k < |ids| ==>
        ids[k] in q.rows && jobs[k].id == ids[k] && jobs[k].kind == q.rows[ids[k]].kind
    modifies store
    ensures visited == Smaller(|ids|, poll.stopAfter)
    ensures store.Valid() && store.State() == Run(old(store.State()), Finishes(q, ids, handlers, poll, visited))
  {
    visited := 0;
    ghost var claimed := store.State();
    while visited < |jobs| && visited < poll.stopAfter
      invariant visited <= |jobs| && visited <= poll.stopAfter
      invariant store.Valid() && store.State() == Run(claimed, Finishes(q, ids, handlers, poll, visited))
    {
      var job := jobs[visited];
      var error := Some(UnknownKind(job.kind));
      if job.kind in handlers {
        error := poll.answers(job.id);
      }
      if !poll.finishFails(visited) {
        var _ := store.FinishJob(job.id, error, poll.clock(visited));
        RunAppend(claimed, Finishes(q, ids, handlers, poll, visited),
                  FinishOf(job.id, job.kind, handlers, poll.answers, poll.clock(visited)));
      }
      visited := visited + 1;
    }
  }

  /** One polling step: claim a batch, then run and finish its jobs; a failed claim ends it. */
  method RunOnce(store: Store, batch: int, handlers: set<string>, poll: Poll) returns (visited: nat)
    requires store.Valid() && poll.Valid()
    modifies store
    ensures store.Valid()
        && store.State() == Run(old(store.State()), PollActs(old(store.State()), batch, handlers, poll))
    ensures visited == if poll.claimFails then 0
        else Smaller(|Batch(old(store.State()), batch, poll.claimAt)|, poll.stopAfter)
  {
    if poll.claimFails {
      return 0;
    }
    ghost var q := store.State();
    ghost var ids := Batch(q, batch, poll.claimAt);
    BatchRows(q, batch, poll.claimAt);
    var jobs := store.ClaimJobs(batch, poll.claimAt);
    visited := Dispatch(store, jobs, handlers, poll, q, ids);
    ghost var (claim, finishes) := ([Claim(batch, poll.claimAt)], Finishes(q, ids, handlers, poll, visited));
    RunConcat(q, claim, finishes);
    RunAppend(q, [], claim[0]);
    assert [] + claim == claim;
  }

  const GRACE_SECONDS := 5 * 60

  /** The table the polls start from: jobs locked five minutes ago are back, unless that one call failed. */
  ghost function Recovering(q: Queue, readAt: Instant, recoverAt: Instant, fails: bool): Queue
    requires q.Valid() && readAt.Valid() && recoverAt.Valid()
  {
    if fails then q else Next(q, Recover(AddNanos(readAt, -GRACE_SECONDS * NANOS_PER_SECOND), recoverAt))
  }

  /** A running job keeps its row while its lock is not five minutes old, and is sent back from then on. */
  lemma RecoveryGrace(q: Queue, readAt: Instant, recoverAt: Instant, i: Id)
    requires q.Valid() && readAt.Valid() && recoverAt.Valid() && i in q.rows && q.rows[i].status.Running?
    ensures var (before, after) := (q.rows[i], Recovering(q, readAt, recoverAt, false).rows[i]);
            && (before.lockedAt.value.sec > readAt.sec - 300 ==> after == before)
            && (before.lockedAt.value.sec < readAt.sec - 300 ==> after.status.Retry? && after.available == recoverAt)
  {
    WholeSeconds(readAt, -300);
    RecoverBySeconds(q, AddNanos(readAt, -GRACE_SECONDS * NANOS_PER_SECOND), recoverAt, i);
  }

  /** One tick more: the acts so far, and those of the next poll. */
  method Tick(store: Store, batch: int, handlers: set<string>, polls: seq<Poll>, tick: nat, ghost q: Queue)
    requires store.Valid() && q.Valid() && ValidPolls(polls) && tick < |polls|
    requires store.State() == Run(q, WorkerActs(q, batch, handlers, polls[..tick]))
    modifies store
    ensures store.Valid() && store.State() == Run(q, WorkerActs(q, batch, handlers, polls[..tick + 1]))
  {
    ghost var before := WorkerActs(q, batch, handlers, polls[..tick]);
    ghost var acts := PollActs(Run(q, before), batch, handlers, polls[tick]);
    assert polls[..tick + 1][..tick] == polls[..tick];
    assert WorkerActs(q, batch, handlers, polls[..tick + 1]) == before + acts;
    RunConcat(q, before, acts);
    var visited := RunOnce(store, batch, handlers, polls[tick]);
  }

  /** The runner's goroutine: one recovery, then a poll at each tick until it is stopped. */
  method Start(store: Store, batch: int, handlers: set<string>, readAt: Instant, recoverAt: Instant, recoverFails: bool,
               polls: seq<Poll>)
    requires store.Valid() && readAt.Valid() && recoverAt.Valid() && ValidPolls(polls)
    modifies store
    ensures var q := Recovering(old(store.State()), readAt, recoverAt, recoverFails);
            q.Valid() && store.Valid() && store.State() == Run(q, WorkerActs(q, batch, handlers, polls))
  {
    if !recoverFails {
      var count := store.RecoverJobs(AddNanos(readAt, -5 * 60 * NANOS_PER_SECOND), recoverAt);
    }
    ghost var q := store.State();
    for tick := 0 to |polls|
      invariant store.Valid() && store.State() == Run(q, WorkerActs(q, batch, handlers, polls[..tick]))
    {
      Tick(store, batch, handlers, polls, tick, q);
    }
    assert polls[..|polls|] == polls;
  }

  // ----- what a poll does to each job

  /** How a visited job ends: by its handler's answer, and failed by an unknown kind. */
  ghost predicate Ended(before: Job, after: Job, handlers: set<string>, answer: Option<string>) {
    && after.attempts == before.attempts + 1 && after.lockedAt == None
    && (after.status.Succeeded? <==> before.kind in handlers && answer == None)
    && (!after.status.Succeeded? ==> after.status == if before.attempts + 1 < before.maxAttempts then Retry else Failed)
    && (before.kind in handlers && answer.Some? ==> after.lastError == answer.value)
    && (before.kind !in handlers ==> after.lastError == "unknown job kind \"" + before.kind + "\"")
  }

  ghost predicate Started(before: Job, after: Job, now: Instant) {
    after == before.(status := Running, attempts := before.attempts + 1, lockedAt := Some(now), updatedAt := now)
  }

  lemma EndOfAttempt(q: Queue, before: Job, id: Id, handlers: set<string>, answers: Id -> Option<string>, at: Instant,
        now: Instant)
    requires q.Valid() && now.Valid() && id in q.rows
    ensures var after := Next(q, FinishOf(id, before.kind, handlers, answers, now));
            && after.rows.Keys == q.rows.Keys && (forall i :: i in q.rows && i != id ==> after.rows[i] == q.rows[i])
            && (Started(before, q.rows[id], at) ==> Ended(before, after.rows[id], handlers, answers(id)))
  {
    FinishRow(q, id, Answer(handlers, before.kind, answers(id)), now);
  }

  /** A claimed list: distinct rows, each started from what it was before. */
  ghost predicate Claimed(q: Queue, c: Queue, ids: seq<Id>, at: Instant) {
    && q.Valid() && c.Valid() && c.rows.Keys == q.rows.Keys
    && (forall k :: 0 <= k < |ids| ==> ids[k] in q.rows && Started(q.rows[ids[k]], c.rows[ids[k]], at))
    && (forall k, l :: 0 <= k < l < |ids| ==> ids[k] != ids[l])
  }

  lemma BatchIsClaimed(q: Queue, batch: int, now: Instant)
    requires q.Valid() && now.Valid()
    ensures Claimed(q, Next(q, Claim(batch, now)), Batch(q, batch, now), now)
    ensures forall i :: i in q.rows && i !in Batch(q, batch, now) ==> Next(q, Claim(batch, now)).rows[i] == q.rows[i]
  {
    var ids := Batch(q, batch, now);
    forall k, l | 0 <= k < l < |ids| ensures ids[k] != ids[l] {
      FrontDistinct(q, Due(q, now), Limit(batch), ids, l);
      assert ids[..l][k] == ids[k];
    }
    forall k | 0 <= k < |ids|
      ensures ids[k] in q.rows && Started(q.rows[ids[k]], Next(q, Claim(batch, now)).rows[ids[k]], now)
    {
      assert ids[k] in Due(q, now);
    }
  }

  /** The table after the first n finishes of a poll. */
  ghost function AfterFinishes(q: Queue, c: Queue, ids: seq<Id>, handlers: set<string>, poll: Poll, n: nat): (r: Queue)
    requires q.Valid() && c.Valid() && poll.Valid() && n <= |ids| && forall k :: 0 <= k < |ids| ==> ids[k] in q.rows
    ensures r.Valid()
  {
    Run(c, Finishes(q, ids, handlers, poll, n))
  }

  /** One visited job: a failed call changes nothing, another one writes its job's row only and ends that job. */
  ghost predicate Visited(before: Queue, after: Queue, job: Job, id: Id, handlers: set<string>, poll: Poll, k: nat)
    requires poll.Valid()
  {
    && after.rows.Keys == before.rows.Keys && id in before.rows
    && (poll.finishFails(k) ==> after == before)
    && (forall i :: i in before.rows && i != id ==> after.rows[i] == before.rows[i])
    && (!poll.finishFails(k) && Started(job, before.rows[id], poll.claimAt)
        ==> Ended(job, after.rows[id], handlers, poll.answers(id)))
  }

  lemma LastFinish(q: Queue, c: Queue, ids: seq<Id>, handlers: set<string>, poll: Poll, n: nat)
    requires Claimed(q, c, ids, poll.claimAt) && poll.Valid() && n < |ids|
    requires AfterFinishes(q, c, ids, handlers, poll, n).rows.Keys == q.rows.Keys
    ensures Visited(AfterFinishes(q, c, ids, handlers, poll, n), AfterFinishes(q, c, ids, handlers, poll, n + 1),
                    q.rows[ids[n]], ids[n], handlers, poll, n)
  {
    var (id, before) := (ids[n], AfterFinishes(q, c, ids, handlers, poll, n));
    if !poll.finishFails(n) {
      RunAppend(c, Finishes(q, ids, handlers, poll, n),
                FinishOf(id, q.rows[id].kind, handlers, poll.answers, poll.clock(n)));
      EndOfAttempt(before, q.rows[id], id, handlers, poll.answers, poll.claimAt, poll.clock(n));
    }
  }

  /** The row of a job after n visits: ended when one of them was its own and went through, else as it was. */
  ghost predicate RowAfter(q: Queue, c: Queue, ids: seq<Id>, handlers: set<string>, poll: Poll, n: nat, i: Id,
        after: Queue)
    requires poll.Valid() && n <= |ids| && i in q.rows && i in c.rows
  {
    && after.rows.Keys == q.rows.Keys
    && ((forall k :: 0 <= k < n && ids[k] == i ==> poll.finishFails(k)) ==> after.rows[i] == c.rows[i])
    && forall k :: 0 <= k < n && ids[k] == i && !poll.finishFails(k)
        ==> Ended(q.rows[i], after.rows[i], handlers, poll.answers(i))
  }

  lemma RowAfterVisit(q: Queue, c: Queue, ids: seq<Id>, handlers: set<string>, poll: Poll, n: nat, i: Id,
        before: Queue, after: Queue)
    requires Claimed(q, c, ids, poll.claimAt) && poll.Valid() && n < |ids| && i in q.rows
    requires RowAfter(q, c, ids, handlers, poll, n, i, before)
    requires Visited(before, after, q.rows[ids[n]], ids[n], handlers, poll, n)
    ensures RowAfter(q, c, ids, handlers, poll, n + 1, i, after)
  {
    if ids[n] == i {
      assert Started(q.rows[i], c.rows[i], poll.claimAt);
      assert forall k :: 0 <= k < n ==> ids[k] != i;
      assert before.rows[i] == c.rows[i];
    }
  }

  /** The tables between the visits, each one visit after the one before. */
  ghost predicate Visits(q: Queue, ids: seq<Id>, handlers: set<string>, poll: Poll, tables: seq<Queue>)
    requires poll.Valid() && forall k :: 0 <= k < |ids| ==> ids[k] in q.rows
  {
    && 0 < |tables| <= |ids| + 1
    && (forall k :: 0 <= k < |tables| ==> tables[k].rows.Keys == q.rows.Keys)
    && forall k :: 0 < k < |tables|
        ==> Visited(tables[k - 1], tables[k], q.rows[ids[k - 1]], ids[k - 1], handlers, poll, k - 1)
  }

  lemma VisitsAppend(q: Queue, ids: seq<Id>, handlers: set<string>, poll: Poll, tables: seq<Queue>, last: Queue)
    requires poll.Valid() && forall k :: 0 <= k < |ids| ==> ids[k] in q.rows
    requires Visits(q, ids, handlers, poll, tables) && |tables| <= |ids|
    requires var n := |tables| - 1; Visited(tables[n], last, q.rows[ids[n]], ids[n], handlers, poll, n)
    ensures Visits(q, ids, handlers, poll, tables + [last])
  {
    var more := tables + [last];
    forall k | 0 < k < |more|
      ensures Visited(more[k - 1], more[k], q.rows[ids[k - 1]], ids[k - 1], handlers, poll, k - 1)
    {
      if k < |tables| {
        assert more[k - 1] == tables[k - 1] && more[k] == tables[k];
      } else {
        assert more[k - 1] == tables[|tables| - 1] && more[k] == last;
      }
    }
  }

  lemma {:induction false} FinishesVisit(q: Queue, c: Queue, ids: seq<Id>, handlers: set<string>, poll: Poll, n: nat)
    returns (tables: seq<Queue>)
    requires Claimed(q, c, ids, poll.claimAt) && poll.Valid() && n <= |ids|
    ensures Visits(q, ids, handlers, poll, tables) && |tables| == n + 1 && tables[0] == c
    ensures tables[n] == AfterFinishes(q, c, ids, handlers, poll, n)
  {
    if n == 0 {
      tables := [c];
    } else {
      tables := FinishesVisit(q, c, ids, handlers, poll, n - 1);
      LastFinish(q, c, ids, handlers, poll, n - 1);
      var last := AfterFinishes(q, c, ids, handlers, poll, n);
      VisitsAppend(q, ids, handlers, poll, tables, last);
      tables := tables + [last];
    }
  }

  lemma {:induction false} RowAfterVisits(q: Queue, ids: seq<Id>, handlers: set<string>, poll: Poll, n: nat, i: Id,
        tables: seq<Queue>)
    requires poll.Valid() && forall k :: 0 <= k < |ids| ==> ids[k] in q.rows
    requires Visits(q, ids, handlers, poll, tables) && n < |tables|
    requires Claimed(q, tables[0], ids, poll.claimAt) && i in q.rows
    ensures RowAfter(q, tables[0], ids, handlers, poll, n, i, tables[n])
  {
    if n > 0 {
      RowAfterVisits(q, ids, handlers, poll, n - 1, i, tables);
      RowAfterVisit(q, tables[0], ids, handlers, poll, n - 1, i, tables[n - 1], tables[n]);
    }
  }

  lemma OneAct(q: Queue, act: Act)
    requires q.Valid() && act.Valid()
    ensures Run(q, [act]) == Next(q, act)
  {
    assert Run(q, [act]) == Run(Next(q, act), []);
  }

  lemma PollRun(q: Queue, batch: int, handlers: set<string>, poll: Poll)
    requires q.Valid() && poll.Valid() && !poll.claimFails
    ensures forall k :: 0 <= k < |Batch(q, batch, poll.claimAt)| ==> Batch(q, batch, poll.claimAt)[k] in q.rows
    ensures var (c, ids) := (Next(q, Claim(batch, poll.claimAt)), Batch(q, batch, poll.claimAt));
            Run(q, PollActs(q, batch, handlers, poll))
            == Run(c, Finishes(q, ids, handlers, poll, Smaller(|ids|, poll.stopAfter)))
  {
    var ids := Batch(q, batch, poll.claimAt);
    BatchRows(q, batch, poll.claimAt);
    RunConcat(q, [Claim(batch, poll.claimAt)], Finishes(q, ids, handlers, poll, Smaller(|ids|, poll.stopAfter)));
    OneAct(q, Claim(batch, poll.claimAt));
  }

  lemma PollRow(q: Queue, c: Queue, batch: int, handlers: set<string>, poll: Poll, ids: seq<Id>, i: Id, after: Queue)
    requires q.Valid() && poll.Valid() && !poll.claimFails && i in q.rows
    requires ids == Batch(q, batch, poll.claimAt) && c == Next(q, Claim(batch, poll.claimAt))
    requires after == Run(q, PollActs(q, batch, handlers, poll))
    ensures Claimed(q, c, ids, poll.claimAt) && (i !in ids ==> c.rows[i] == q.rows[i])
    ensures RowAfter(q, c, ids, handlers, poll, Smaller(|ids|, poll.stopAfter), i, after)
  {
    var n := Smaller(|ids|, poll.stopAfter);
    PollRun(q, batch, handlers, poll);
    BatchIsClaimed(q, batch, poll.claimAt);
    var tables := FinishesVisit(q, c, ids, handlers, poll, n);
    RowAfterVisits(q, ids, handlers, poll, n, i, tables);
  }

  lemma RowOutcome(q: Queue, c: Queue, ids: seq<Id>, handlers: set<string>, poll: Poll, n: nat, k: nat, after: Queue)
    requires poll.Valid() && k < |ids| && n == Smaller(|ids|, poll.stopAfter)
    requires Claimed(q, c, ids, poll.claimAt) && RowAfter(q, c, ids, handlers, poll, n, ids[k], after)
    ensures if k < poll.stopAfter && !poll.finishFails(k)
      then Ended(q.rows[ids[k]], after.rows[ids[k]], handlers, poll.answers(ids[k]))
      else Started(q.rows[ids[k]], after.rows[ids[k]], poll.claimAt)
  {
    if k >= n || poll.finishFails(k) {
      assert forall l :: 0 <= l < n && ids[l] == ids[k] ==> l == k;
    }
  }

  /**
   * One poll, job by job: a batched job that was reached and whose finish went through ended
   * by its handler's answer; any other batched job is left running; the rest is untouched.
   */
  lemma PollOutcome(q: Queue, batch: int, handlers: set<string>, poll: Poll, ids: seq<Id>, k: nat, after: Queue)
    requires q.Valid() && poll.Valid() && !poll.claimFails
    requires ids == Batch(q, batch, poll.claimAt) && k < |ids|
    requires after == Run(q, PollActs(q, batch, handlers, poll))
    ensures ids[k] in q.rows && ids[k] in after.rows
    ensures if k < poll.stopAfter && !poll.finishFails(k)
      then Ended(q.rows[ids[k]], after.rows[ids[k]], handlers, poll.answers(ids[k]))
      else Started(q.rows[ids[k]], after.rows[ids[k]], poll.claimAt)
  {
    BatchRows(q, batch, poll.claimAt);
    var c := Next(q, Claim(batch, poll.claimAt));
    PollRow(q, c, batch, handlers, poll, ids, ids[k], after);
    RowOutcome(q, c, ids, handlers, poll, Smaller(|ids|, poll.stopAfter), k, after);
  }

  lemma PollSpares(q: Queue, batch: int, handlers: set<string>, poll: Poll, i: Id, after: Queue)
    requires q.Valid() && poll.Valid() && !poll.claimFails && i in q.rows && i !in Batch(q, batch, poll.claimAt)
    requires after == Run(q, PollActs(q, batch, handlers, poll))
    ensures after.rows.Keys == q.rows.Keys && after.rows[i] == q.rows[i]
  {
    PollRow(q, Next(q, Claim(batch, poll.claimAt)), batch, handlers, poll, Batch(q, batch, poll.claimAt), i, after);
  }

  // ----- what the worker's acts look like

  /** Claims with one batch size, and finishes. */
  ghost predicate Polling(acts: seq<Act>, batch: int) {
    forall k :: 0 <= k < |acts| ==> acts[k].Finish? || (acts[k].Claim? && acts[k].limit == batch)
  }

  /** The readings of the clock never go back, and start no earlier than a given one. */
  ghost predicate Ticking(acts: seq<Act>, clock: Instant) {
    && (forall k :: 0 <= k < |acts| ==> !Earlier(acts[k].now, clock))
    && (forall k, l :: 0 <= k < l < |acts| ==> !Earlier(acts[l].now, acts[k].now))
  }

  ghost predicate AllBy(acts: seq<Act>, later: Instant) {
    forall k :: 0 <= k < |acts| ==> !Earlier(later, acts[k].now)
  }

  /** Polls one after the other, on a clock that does not go back. */
  ghost predicate InOrder(polls: seq<Poll>, clock: Instant) {
    && (forall k :: 0 <= k < |polls| ==> polls[k].Forward() && !Earlier(polls[k].claimAt, clock))
    && (forall k, l :: 0 <= k < l < |polls| ==> polls[k].Until(polls[l].claimAt))
  }

  /** The polls whose claim went through. */
  function Successes(polls: seq<Poll>): nat {
    if polls == [] then 0
    else Successes(polls[..|polls| - 1]) + if polls[|polls| - 1].claimFails then 0 else 1
  }

  lemma {:induction false} FinishesPoll(q: Queue, ids: seq<Id>, handlers: set<string>, poll: Poll, n: nat, batch: int)
    requires n <= |ids| && poll.Valid() && forall k :: 0 <= k < |ids| ==> ids[k] in q.rows
    ensures Polling(Finishes(q, ids, handlers, poll, n), batch) && Claims(Finishes(q, ids, handlers, poll, n)) == 0
  {
    if n > 0 {
      FinishesPoll(q, ids, handlers, poll, n - 1, batch);
      var act := FinishOf(ids[n - 1], q.rows[ids[n - 1]].kind, handlers, poll.answers, poll.clock(n - 1));
      ClaimsConcat(Finishes(q, ids, handlers, poll, n - 1), [act]);
    }
  }

  lemma {:induction false} FinishesAllBy(q: Queue, ids: seq<Id>, handlers: set<string>, poll: Poll, n: nat,
        later: Instant)
    requires n <= |ids| && poll.Valid() && forall k :: 0 <= k < |ids| ==> ids[k] in q.rows
    requires forall k: nat :: k < n ==> !Earlier(later, poll.clock(k))
    ensures AllBy(Finishes(q, ids, handlers, poll, n), later)
  {
    if n > 0 {
      FinishesAllBy(q, ids, handlers, poll, n - 1, later);
    }
  }

  lemma {:induction false} FinishesTick(q: Queue, ids: seq<Id>, handlers: set<string>, poll: Poll, n: nat)
    requires n <= |ids| && poll.Valid() && poll.Forward() && forall k :: 0 <= k < |ids| ==> ids[k] in q.rows
    ensures Ticking(Finishes(q, ids, handlers, poll, n), poll.claimAt)
  {
    if n > 0 {
      FinishesTick(q, ids, handlers, poll, n - 1);
      FinishesAllBy(q, ids, handlers, poll, n - 1, poll.clock(n - 1));
    }
  }

  lemma PollAllBy(q: Queue, batch: int, handlers: set<string>, poll: Poll, later: Instant)
    requires q.Valid() && poll.Valid() && poll.Until(later)
    ensures AllBy(PollActs(q, batch, handlers, poll), later)
  {
    if !poll.claimFails {
      var ids := Batch(q, batch, poll.claimAt);
      BatchRows(q, batch, poll.claimAt);
      FinishesAllBy(q, ids, handlers, poll, Smaller(|ids|, poll.stopAfter), later);
    }
  }

  lemma PollTicks(q: Queue, batch: int, handlers: set<string>, poll: Poll)
    requires q.Valid() && poll.Valid() && poll.Forward()
    ensures Ticking(PollActs(q, batch, handlers, poll), poll.claimAt)
  {
    if !poll.claimFails {
      var ids := Batch(q, batch, poll.claimAt);
      BatchRows(q, batch, poll.claimAt);
      FinishesTick(q, ids, handlers, poll, Smaller(|ids|, poll.stopAfter));
    }
  }

  lemma PollPolls(q: Queue, batch: int, handlers: set<string>, poll: Poll)
    requires q.Valid() && poll.Valid()
    ensures Polling(PollActs(q, batch, handlers, poll), batch)
    ensures Claims(PollActs(q, batch, handlers, poll)) == if poll.claimFails then 0 else 1
  {
    if !poll.claimFails {
      var ids := Batch(q, batch, poll.claimAt);
      var n := Smaller(|ids|, poll.stopAfter);
      BatchRows(q, batch, poll.claimAt);
      FinishesPoll(q, ids, handlers, poll, n, batch);
      ClaimsConcat([Claim(batch, poll.claimAt)], Finishes(q, ids, handlers, poll, n));
    }
  }

  lemma {:induction false} WorkerPolls(q: Queue, batch: int, handlers: set<string>, polls: seq<Poll>)
    requires q.Valid() && ValidPolls(polls)
    ensures Polling(WorkerActs(q, batch, handlers, polls), batch)
    ensures Claims(WorkerActs(q, batch, handlers, polls)) == Successes(polls)
    decreases |polls|
  {
    if polls != [] {
      var last := |polls| - 1;
      var before := WorkerActs(q, batch, handlers, polls[..last]);
      WorkerPolls(q, batch, handlers, polls[..last]);
      PollPolls(Run(q, before), batch, handlers, polls[last]);
      ClaimsConcat(before, PollActs(Run(q, before), batch, handlers, polls[last]));
    }
  }

  lemma TickingConcat(a: seq<Act>, b: seq<Act>, clock: Instant, between: Instant)
    requires Ticking(a, clock) && Ticking(b, between) && AllBy(a, between) && !Earlier(between, clock)
    ensures Ticking(a + b, clock)
  {
    forall k, l | 0 <= k < |a| && 0 <= l < |b| ensures !Earlier(b[l].now, a[k].now) {
      assert !Earlier(between, a[k].now) && !Earlier(b[l].now, between);
    }
  }

  lemma {:induction false} WorkerAllBy(q: Queue, batch: int, handlers: set<string>, polls: seq<Poll>, later: Instant)
    requires q.Valid() && ValidPolls(polls) && forall k :: 0 <= k < |polls| ==> polls[k].Until(later)
    ensures AllBy(WorkerActs(q, batch, handlers, polls), later)
    decreases |polls|
  {
    if polls != [] {
      var last := |polls| - 1;
      WorkerAllBy(q, batch, handlers, polls[..last], later);
      PollAllBy(Run(q, WorkerActs(q, batch, handlers, polls[..last])), batch, handlers, polls[last], later);
    }
  }

  lemma {:induction false} WorkerTicks(q: Queue, batch: int, handlers: set<string>, polls: seq<Poll>, clock: Instant)
    requires q.Valid() && ValidPolls(polls) && InOrder(polls, clock)
    ensures Ticking(WorkerActs(q, batch, handlers, polls), clock)
    decreases |polls|
  {
    if polls != [] {
      var last := |polls| - 1;
      var before := WorkerActs(q, batch, handlers, polls[..last]);
      WorkerTicks(q, batch, handlers, polls[..last], clock);
      WorkerAllBy(q, batch, handlers, polls[..last], polls[last].claimAt);
      PollTicks(Run(q, before), batch, handlers, polls[last]);
      TickingConcat(before, PollActs(Run(q, before), batch, handlers, polls[last]), clock, polls[last].claimAt);
    }
  }

  // ----- the bound for the worker

  /** Every job's attempts, recoveries granted, stay where delays are exact. */
  ghost predicate Capped(t: Tracked) {
    && AllBounded(t)
    && forall i :: i in t.q.rows ==> t.q.rows[i].maxAttempts + t.recoveries[i] <= MAX_EXACT_ATTEMPTS
  }

  lemma CappedStep(t: Tracked, act: Act)
    requires Capped(t) && act.Valid() && (act.Finish? || act.Claim?)
    ensures Capped(NextTracked(t, act))
  {
    BoundedStep(t, act);
    RecoveriesKept(t, act);
    var t' := NextTracked(t, act);
    forall i | i in t'.q.rows ensures i in t.q.rows && t'.q.rows[i].maxAttempts == t.q.rows[i].maxAttempts {
    }
  }

  lemma {:induction false} PollingIsOrderly(t: Tracked, acts: seq<Act>, due: Instant, batch: int, clock: Instant)
    requires Capped(t) && ValidActs(acts) && due.Valid() && Polling(acts, batch) && Ticking(acts, clock)
    ensures Orderly(t.q, acts, due, batch, clock)
    decreases |acts|
  {
    if acts != [] {
      assert acts[0].Finish? && acts[0].id in t.q.rows ==> Bounded(t.q.rows[acts[0].id], t.recoveries[acts[0].id]);
      CappedStep(t, acts[0]);
      assert Ticking(acts[1..], acts[0].now);
      PollingIsOrderly(NextTracked(t, acts[0]), acts[1..], due, batch, acts[0].now);
    }
  }

  /**
   * A job whose second has passed, with r jobs ahead of it, is claimed by one of the
   * worker's next r / batch + 1 successful polls, whatever handlers answer and finishes fail.
   */
  lemma ClaimedWithinPolls(t: Tracked, batch: int, handlers: set<string>, polls: seq<Poll>, j: Id, clock: Instant)
    requires Capped(t) && ValidPolls(polls) && InOrder(polls, clock) && clock.Valid()
    requires j in t.q.rows && t.q.rows[j].Waiting() && t.q.rows[j].available.sec < clock.sec
    requires Successes(polls) >= |Ahead(t.q, j)| / Limit(batch) + 1
    ensures ClaimedDuring(t.q, WorkerActs(t.q, batch, handlers, polls), j)
  {
    var acts := WorkerActs(t.q, batch, handlers, polls);
    WorkerPolls(t.q, batch, handlers, polls);
    WorkerTicks(t.q, batch, handlers, polls, clock);
    PollingIsOrderly(t, acts, t.q.rows[j].available, batch, clock);
    BoundedWaitingByTheClock(t.q, acts, j, batch, clock);
  }
}
