/** The job store against the table functions of Jobs. */
module JobStore {
  import opened Wrappers
  import opened Calendar
  import opened Jobs
  import opened JobWaiting

  lemma FrontAppend(q: Queue, s: set<Id>, ids: seq<Id>, i: Id)
    requires q.Valid() && s <= q.rows.Keys && IsFront(q, s, |ids|, ids)
    requires IsLeast(q, s - (set k | k in ids), i)
    ensures IsFront(q, s, |ids| + 1, ids + [i])
  {
    var more := ids + [i];
    CountOf(q, ids);
    assert |s| > |ids| by {
      Sums.SubsetSize((set k | k in ids) + {i}, s);
    }
    forall j, k | j in s && j !in more && 0 <= k < |more| ensures Before(q.rows, more[k], j) {
      assert j !in ids && j != i by {
        assert more[|ids|] == i;
        forall l | 0 <= l < |ids| ensures ids[l] != j {
          assert more[l] == ids[l];
        }
      }
    }
  }

  lemma {:induction false} FrontComplete(q: Queue, s: set<Id>, limit: nat, ids: seq<Id>)
    requires q.Valid() && s <= q.rows.Keys && IsFront(q, s, |ids|, ids) && |ids| <= limit
    requires |ids| == limit || s <= (set k | k in ids)
    ensures ids == Front(q, s, limit)
  {
    CountOf(q, ids);
    Sums.SubsetSize((set k | k in ids), s);
    if |ids| < limit {
      Sums.SubsetSize(s, (set k | k in ids));
    }
    FrontIsUnique(q, s, limit, ids, Front(q, s, limit));
  }

  lemma FrontDistinct(q: Queue, s: set<Id>, limit: nat, ids: seq<Id>, k: nat)
    requires q.Valid() && s <= q.rows.Keys && IsFront(q, s, limit, ids) && k < |ids|
    ensures ids[k] !in ids[..k]
  {
    forall l | 0 <= l < k ensures ids[l] != ids[k] {
      assert Before(q.rows, ids[l], ids[k]);
      BeforeIsStrictOrder(q, ids[l], ids[k], ids[l]);
    }
  }

  /** Rows that can be marked one after the other: distinct, and all waiting. */
  ghost predicate Markable(rows: map<Id, Job>, ids: seq<Id>) {
    forall k :: 0 <= k < |ids| ==> ids[k] in rows && rows[ids[k]].Waiting() && ids[k] !in ids[..k]
  }

  lemma BatchIsMarkable(q: Queue, limit: int, now: Instant)
    requires q.Valid() && now.Valid()
    ensures Markable(q.rows, Batch(q, limit, now))
  {
    var ids := Batch(q, limit, now);
    forall k | 0 <= k < |ids| ensures ids[k] in q.rows && q.rows[ids[k]].Waiting() && ids[k] !in ids[..k] {
      FrontDistinct(q, Due(q, now), Limit(limit), ids, k);
      assert ids[k] in Due(q, now);
    }
  }

  /** Marking the next row: it still waits, and it is the only one that changes. */
  lemma ClaimOneMore(q: Queue, ids: seq<Id>, k: nat, now: Instant)
    requires Markable(q.rows, ids) && k < |ids|
    ensures var part := ClaimAll(q, ids[..k], now);
            && ids[k] in part.rows && part.rows[ids[k]] == q.rows[ids[k]]
            && ClaimAll(q, ids[..k + 1], now) == part.(rows := part.rows[ids[k] := ClaimedJob(q.rows[ids[k]], now)])
  {
    assert ids[..k + 1] == ids[..k] + [ids[k]];
  }

  class Store {
    var rows: map<Id, Job>
    var next: Id

    constructor (rows: map<Id, Job>, next: Id)
      requires Queue(rows, next).Valid()
      ensures State() == Queue(rows, next)
    {
      this.rows, this.next := rows, next;
    }

    function State(): Queue reads this { Queue(rows, next) }

    ghost predicate Valid() reads this { State().Valid() }

    method EnqueueJob(kind: string, key: string, payload: string, maxAttempts: int, available: Instant, now: Instant)
      returns (r: Result<Job, JobError>)
      requires Valid() && available.Valid() && now.Valid()
      modifies this
      ensures Valid() && State() == Next(old(State()), Enqueue(kind, key, payload, maxAttempts, available, now))
      ensures r.Ok? <==> maxAttempts >= 1 && !KeyTaken(old(State()), key)
      ensures r.Ok? ==> r.value.id !in old(rows) && r.value.id in rows && r.value == rows[r.value.id]
    {
      if maxAttempts < 1 {
        return Err(InvalidAttempts);
      }
      if KeyTaken(State(), key) {
        return Err(DuplicateKey);
      }
      var job := NewJob(next, kind, key, payload, maxAttempts, available, now);
      rows := rows[next := job];
      next := next + 1;
      r := Ok(job);
    }

    /** The row that comes first in claim order. */
    method First(s: set<Id>) returns (i: Id)
      requires Valid() && s <= rows.Keys && s != {}
      ensures IsLeast(State(), s, i)
    {
      i := Sums.Pick(s);
      var rest := s - {i};
      while rest != {}
        invariant rest <= s && i in s && i !in rest
        invariant forall j :: j in s && j !in rest && j != i ==> Before(rows, i, j)
        decreases |rest|
      {
        var j := Sums.Pick(rest);
        BeforeIsStrictOrder(State(), i, j, j);
        if Before(rows, j, i) {
          forall k | k in s && k !in rest && k != i ensures Before(rows, j, k) {
            BeforeIsStrictOrder(State(), j, i, k);
          }
          i := j;
        }
        rest := rest - {j};
      }
    }

    /** Reads the first `limit` due rows in claim order. */
    method SelectDue(limit: nat, now: Instant) returns (jobs: seq<Job>, ghost ids: seq<Id>)
      requires Valid() && now.Valid()
      ensures ids == Front(State(), Due(State(), now), limit)
      ensures var front := Front(State(), Due(State(), now), limit);
              |jobs| == |front| && forall k :: 0 <= k < |jobs| ==> jobs[k] == rows[front[k]]
    {
      var due := Due(State(), now);
      var rest := due;
      jobs, ids := [], [];
      while |jobs| < limit && rest != {}
        invariant |ids| <= limit && rest == due - (set k | k in ids)
        invariant IsFront(State(), due, |ids|, ids)
        invariant |jobs| == |ids| && forall k :: 0 <= k < |jobs| ==> jobs[k] == rows[ids[k]]
        decreases |rest|
      {
        var i := First(rest);
        FrontAppend(State(), due, ids, i);
        jobs, ids, rest := jobs + [rows[i]], ids + [i], rest - {i};
      }
      FrontComplete(State(), due, limit, ids);
    }

    /** Sets a row running if it still waits, and answers how many rows that changed. */
    method MarkRunning(id: Id, now: Instant) returns (n: nat)
      modifies this
      ensures next == old(next)
      ensures n == (if id in old(rows) && old(rows)[id].Waiting() then 1 else 0)
      ensures rows == if n == 1 then old(rows)[id := ClaimedJob(old(rows)[id], now)] else old(rows)
    {
      n := 0;
      if id in rows && rows[id].Waiting() {
        rows := rows[id := rows[id].(status := Running, attempts := rows[id].attempts + 1,
                                     lockedAt := Some(now), updatedAt := now)];
        n := 1;
      }
    }

    method MarkAll(selected: seq<Job>, now: Instant, ghost ids: seq<Id>) returns (jobs: seq<Job>)
      requires Valid() && Markable(rows, ids)
      requires |selected| == |ids| && forall k :: 0 <= k < |ids| ==> selected[k] == rows[ids[k]]
      modifies this
      ensures State() == ClaimAll(old(State()), ids, now)
      ensures |jobs| == |ids|
      ensures forall k :: 0 <= k < |ids| ==>
          jobs[k] == ClaimedJob(selected[k], now).(updatedAt := selected[k].updatedAt)
    {
      ghost var q := State();
      jobs := selected;
      assert ClaimAll(q, ids[..0], now).rows == q.rows;
      for i := 0 to |jobs|
        invariant State() == ClaimAll(q, ids[..i], now)
        invariant |jobs| == |ids|
        invariant forall k :: i <= k < |ids| ==> jobs[k] == selected[k]
        invariant forall k :: 0 <= k < i ==>
            jobs[k] == ClaimedJob(selected[k], now).(updatedAt := selected[k].updatedAt)
      {
        ClaimOneMore(q, ids, i, now);
        assert q.rows[ids[i]].id == ids[i];
        var n := MarkRunning(jobs[i].id, now);
        assert n == 1;
        jobs := jobs[i := jobs[i].(status := Running, attempts := jobs[i].attempts + 1, lockedAt := Some(now))];
      }
      assert ids[..|ids|] == ids;
    }

    /** The due jobs in order, at most `limit`, all set running; the update never conflicts. */
    method ClaimJobs(limit: int, now: Instant) returns (jobs: seq<Job>)
      requires Valid() && now.Valid()
      modifies this
      ensures Valid() && State() == Next(old(State()), Claim(limit, now))
      ensures |jobs| == |Batch(old(State()), limit, now)|
      ensures forall k :: 0 <= k < |jobs| ==>
        var id := Batch(old(State()), limit, now)[k];
        jobs[k].id == id && jobs[k] == ClaimedJob(old(rows)[id], now).(updatedAt := old(rows)[id].updatedAt)
    {
      BatchIsMarkable(State(), limit, now);
      var selected, ids := SelectDue(Limit(limit), now);
      jobs := MarkAll(selected, now, ids);
    }

    method FinishJob(id: Id, error: Option<string>, now: Instant) returns (r: Result<(), JobError>)
      requires Valid() && now.Valid()
      modifies this
      ensures Valid() && State() == Next(old(State()), Finish(id, error, now))
      ensures r.Ok? <==> id in old(rows) && old(rows)[id].status.Running?
    {
      if id !in rows || !rows[id].status.Running? {
        return Err(Conflict);
      }
      var (attempts, max) := (rows[id].attempts, rows[id].maxAttempts);
      if error.None? {
        rows := rows[id := rows[id].(status := Succeeded, lockedAt := None, lastError := "", updatedAt := now)];
        return Ok(());
      }
      var status := Retry;
      var available := AddNanos(now, Delay(attempts));
      if attempts >= max {
        status := Failed;
      }
      rows := rows[id := rows[id].(status := status, available := available, lockedAt := None,
                                   lastError := error.value, updatedAt := now)];
      r := Ok(());
    }

    method RecoverJobs(staleBefore: Instant, now: Instant) returns (count: nat)
      requires Valid() && staleBefore.Valid() && now.Valid()
      modifies this
      ensures Valid() && State() == Next(old(State()), Recover(staleBefore, now))
      ensures count == |set i | i in old(rows) && IsStale(old(rows)[i], staleBefore)|
    {
      var stale := set i | i in rows && IsStale(rows[i], staleBefore);
      var updated := map i | i in rows ::
        if i in stale
        then rows[i].(status := Retry, available := now, lockedAt := None,
                      lastError := "recovered after interrupted worker", updatedAt := now)
        else rows[i];
      forall i | i in rows ensures updated[i] == Next(State(), Recover(staleBefore, now)).rows[i] {
        assert i in stale <==> IsStale(rows[i], staleBefore);
      }
      rows := updated;
      count := |stale|;
    }
  }
}
