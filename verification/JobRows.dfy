/** What each statement of the job store does to a row, column by column, over single acts and runs. */
module JobRows {
  import opened Wrappers
  import opened Calendar
  import opened TimeText
  import opened Text
  import opened Jobs
  import opened JobWaiting
  import opened Sums

  // ----- enqueue

  /** A new key and a positive cap make one pending row, due from when it was asked for. */
  lemma EnqueueRow(q: Queue, act: Act)
    requires q.Valid() && act.Valid() && act.Enqueue?
    ensures Next(q, act) ==
      if act.maxAttempts >= 1 && (forall i :: i in q.rows ==> q.rows[i].key != act.key)
      then Queue(q.rows[q.next := Job(q.next, act.kind, act.key, act.payload, Pending, 0, act.maxAttempts,
                                      act.available, "", None, act.now, act.now)], q.next + 1)
      else q
  {
  }

  // ----- claim

  /** The due rows that come before a row: by stored time, then by id. */
  ghost function DueBefore(q: Queue, i: Id, now: Instant): set<Id>
    requires q.Valid() && i in q.rows && now.Valid()
  {
    set k | k in q.rows && (q.rows[k].status.Pending? || q.rows[k].status.Retry?)
            && !TextBefore(now, q.rows[k].available)
            && (TextBefore(q.rows[k].available, q.rows[i].available)
                || (q.rows[k].available == q.rows[i].available && k < i))
  }

  /** Whether a claim takes a row: it is due, and fewer than the limit are due before it. */
  ghost predicate Taken(q: Queue, i: Id, limit: int, now: Instant)
    requires q.Valid() && i in q.rows && now.Valid()
  {
    && (q.rows[i].status.Pending? || q.rows[i].status.Retry?) && !TextBefore(now, q.rows[i].available)
    && |DueBefore(q, i, now)| < (if limit >= 1 then limit else 1)
  }

  lemma OrderedPart(q: Queue, ids: seq<Id>, m: nat)
    requires q.Valid() && m <= |ids| && forall k :: 0 <= k < |ids| ==> ids[k] in q.rows
    requires forall k, l :: 0 <= k < l < |ids| ==> Before(q.rows, ids[k], ids[l])
    ensures |set k | k in ids[..m]| == m
  {
    CountOf(q, ids[..m]);
  }

  /** The members of a set that come before a row in claim order. */
  ghost function InFrontOf(q: Queue, s: set<Id>, i: Id): set<Id>
    requires q.Valid() && s <= q.rows.Keys && i in q.rows
  {
    set k | k in s && Before(q.rows, k, i)
  }

  lemma DueInFront(q: Queue, i: Id, now: Instant)
    requires q.Valid() && i in q.rows && now.Valid()
    ensures InFrontOf(q, Due(q, now), i) == DueBefore(q, i, now)
  {
    forall k ensures k in InFrontOf(q, Due(q, now), i) <==> k in DueBefore(q, i, now) {
    }
  }

  lemma PlaceBefore(q: Queue, ids: seq<Id>, l: nat, m: nat)
    requires q.Valid() && l < |ids| && m < |ids| && forall k :: 0 <= k < |ids| ==> ids[k] in q.rows
    requires forall k, h :: 0 <= k < h < |ids| ==> Before(q.rows, ids[k], ids[h])
    requires Before(q.rows, ids[l], ids[m])
    ensures l < m
  {
    BeforeIsStrictOrder(q, ids[l], ids[m], ids[l]);
  }

  lemma OutsideIsBehind(q: Queue, s: set<Id>, limit: nat, ids: seq<Id>, m: nat, k: Id)
    requires q.Valid() && s <= q.rows.Keys && IsFront(q, s, limit, ids) && m < |ids| && k in s && k !in ids
    ensures !Before(q.rows, k, ids[m])
  {
    BeforeIsStrictOrder(q, k, ids[m], k);
  }

  lemma FrontMember(q: Queue, s: set<Id>, limit: nat, ids: seq<Id>, m: nat)
    requires q.Valid() && s <= q.rows.Keys && IsFront(q, s, limit, ids) && m < |ids|
    ensures InFrontOf(q, s, ids[m]) == set k | k in ids[..m]
  {
    var i := ids[m];
    forall k | k in s && Before(q.rows, k, i) ensures k in ids[..m] {
      if k !in ids {
        OutsideIsBehind(q, s, limit, ids, m, k);
      }
      var l :| 0 <= l < |ids| && ids[l] == k;
      PlaceBefore(q, ids, l, m);
      assert ids[..m][l] == k;
    }
    forall k | k in ids[..m] ensures k in s && Before(q.rows, k, i) {
      var l :| 0 <= l < m && ids[l] == k;
      assert Before(q.rows, ids[l], ids[m]);
    }
  }

  /** A row is in the front exactly when fewer than the limit come before it. */
  lemma FrontByCount(q: Queue, s: set<Id>, limit: nat, ids: seq<Id>, i: Id)
    requires q.Valid() && s <= q.rows.Keys && IsFront(q, s, limit, ids) && i in s
    ensures i in ids <==> |InFrontOf(q, s, i)| < limit
  {
    var ahead := InFrontOf(q, s, i);
    if i in ids {
      var m :| 0 <= m < |ids| && ids[m] == i;
      FrontMember(q, s, limit, ids, m);
      OrderedPart(q, ids, m);
    } else {
      FrontShort(q, s, limit, ids, i);
      OrderedPart(q, ids, |ids|);
      assert ids[..|ids|] == ids;
      forall k | k in ids ensures k in ahead {
        var l :| 0 <= l < |ids| && ids[l] == k;
        assert Before(q.rows, ids[l], i);
      }
      SubsetSize((set k | k in ids), ahead);
    }
  }

  lemma TakenIsBatched(q: Queue, i: Id, limit: int, now: Instant)
    requires q.Valid() && i in q.rows && now.Valid()
    ensures i in Batch(q, limit, now) <==> Taken(q, i, limit, now)
  {
    var (due, ids) := (Due(q, now), Batch(q, limit, now));
    if i in ids {
      var l :| 0 <= l < |ids| && ids[l] == i;
      assert ids[l] in due;
    }
    if i in due {
      FrontByCount(q, due, Limit(limit), ids, i);
      DueInFront(q, i, now);
    }
  }

  /** A claim sets exactly the taken rows running, with an attempt more and the lock of now. */
  lemma ClaimRow(q: Queue, limit: int, now: Instant, i: Id)
    requires q.Valid() && now.Valid() && i in q.rows
    ensures Next(q, Claim(limit, now)).rows.Keys == q.rows.Keys
    ensures Next(q, Claim(limit, now)).rows[i] ==
      if Taken(q, i, limit, now)
      then q.rows[i].(status := Running, attempts := q.rows[i].attempts + 1, lockedAt := Some(now), updatedAt := now)
      else q.rows[i]
  {
    TakenIsBatched(q, i, limit, now);
  }

  // ----- finish

  /** The end of an attempt: done without an error, with one back for a retry below the cap, else failed for good. */
  lemma FinishRow(q: Queue, id: Id, error: Option<string>, now: Instant)
    requires q.Valid() && now.Valid()
    ensures
      var q' := Next(q, Finish(id, error, now));
      if id in q.rows && q.rows[id].status.Running? then
        var job := q.rows[id];
        && (error == None ==>
              q'.rows == q.rows[id := job.(status := Succeeded, lockedAt := None, lastError := "", updatedAt := now)])
        && (error.Some? ==>
              q'.rows == q.rows[id := job.(status := q'.rows[id].status, available := q'.rows[id].available,
                                           lockedAt := None, lastError := error.value, updatedAt := now)])
        && (error.Some? ==> q'.rows[id].status == if job.attempts < job.maxAttempts then Retry else Failed)
        && (error.Some? && job.attempts <= 96_038 ==>
              q'.rows[id].available == Instant(now.sec + job.attempts * job.attempts, now.nano))
      else q' == q
  {
    if id in q.rows && q.rows[id].status.Running? && error.Some? && q.rows[id].attempts <= 96_038 {
      RetryAfter(now, q.rows[id].attempts);
    }
  }

  /** Whoever failed for good has used all attempts. */
  ghost predicate SpentWhenFailed(q: Queue) {
    forall i :: i in q.rows && q.rows[i].status.Failed? ==> q.rows[i].attempts >= q.rows[i].maxAttempts
  }

  lemma SpentStep(q: Queue, act: Act)
    requires q.Valid() && act.Valid() && SpentWhenFailed(q)
    ensures SpentWhenFailed(Next(q, act))
  {
    match act
    case Claim(limit, now) =>
      forall i | i in q.rows ensures Next(q, act).rows[i].status.Failed? ==> Next(q, act).rows[i] == q.rows[i] {
        ClaimRow(q, limit, now, i);
      }
    case Finish(id, error, now) => FinishRow(q, id, error, now);
    case Enqueue(_, _, _, _, _, _) => EnqueueRow(q, act);
    case Recover(_, _) =>
  }

  /** Over every run a job becomes failed only once it has used at least the attempts it was allowed. */
  lemma {:induction false} FailedOnlyWhenSpent(q: Queue, acts: seq<Act>)
    requires q.Valid() && ValidActs(acts) && SpentWhenFailed(q)
    ensures forall i :: i in Run(q, acts).rows && Run(q, acts).rows[i].status.Failed? ==>
              Run(q, acts).rows[i].attempts >= Run(q, acts).rows[i].maxAttempts
    decreases |acts|
  {
    if acts != [] {
      SpentStep(q, acts[0]);
      FailedOnlyWhenSpent(Next(q, acts[0]), acts[1..]);
    }
  }

  /** An error below the cap is always retried: the job waits again, with the error it had. */
  lemma ErrorIsRetried(q: Queue, acts: seq<Act>, id: Id, text: string, now: Instant)
    requires q.Valid() && ValidActs(acts) && now.Valid()
    requires id in Run(q, acts).rows && Run(q, acts).rows[id].status.Running?
    ensures var (before, after) := (Run(q, acts).rows[id], Next(Run(q, acts), Finish(id, Some(text), now)).rows[id]);
            && (before.attempts < before.maxAttempts <==> after.status.Retry?)
            && (before.attempts >= before.maxAttempts <==> after.status.Failed?) && after.lastError == text
  {
    FinishRow(Run(q, acts), id, Some(text), now);
  }

  // ----- recovery

  /** A recovery moves exactly the running jobs locked, by stored text, before the given time. */
  lemma RecoverRow(q: Queue, staleBefore: Instant, now: Instant, i: Id)
    requires q.Valid() && staleBefore.Valid() && now.Valid() && i in q.rows
    ensures Next(q, Recover(staleBefore, now)).rows.Keys == q.rows.Keys
    ensures Next(q, Recover(staleBefore, now)).rows[i] ==
      if q.rows[i].status.Running? && TextBefore(q.rows[i].lockedAt.value, staleBefore)
      then q.rows[i].(status := Retry, available := now, lockedAt := None, updatedAt := now,
                      lastError := "recovered after interrupted worker")
      else q.rows[i]
  {
  }

  /** In bytes, for years of four digits: a running job is left alone unless its lock's text sorts below. */
  lemma RecoverByText(q: Queue, staleBefore: Instant, now: Instant, i: Id)
    requires q.Valid() && staleBefore.FourDigitYear() && now.Valid() && i in q.rows
    requires q.rows[i].status.Running? && q.rows[i].lockedAt.value.FourDigitYear()
    ensures var (before, after) := (q.rows[i], Next(q, Recover(staleBefore, now)).rows[i]);
            if TextLess(TimeText.TimeText(before.lockedAt.value), TimeText.TimeText(staleBefore))
            then after.status.Retry? else after == before
  {
    RecoverRow(q, staleBefore, now, i);
    TextOrderAgainstTimeOrder(q.rows[i].lockedAt.value, staleBefore);
  }

  /** In seconds: locks of earlier seconds are recovered, locks of later ones never. */
  lemma RecoverBySeconds(q: Queue, staleBefore: Instant, now: Instant, i: Id)
    requires q.Valid() && staleBefore.Valid() && now.Valid() && i in q.rows && q.rows[i].status.Running?
    ensures var (before, after) := (q.rows[i], Next(q, Recover(staleBefore, now)).rows[i]);
            && (before.lockedAt.value.sec > staleBefore.sec ==> after == before)
            && (before.lockedAt.value.sec < staleBefore.sec ==> after.status.Retry? && after.available == now)
  {
    RecoverRow(q, staleBefore, now, i);
    TextOrderKeepsSeconds(q.rows[i].lockedAt.value, staleBefore);
    TextOrderKeepsSeconds(staleBefore, q.rows[i].lockedAt.value);
    TextBeforeIsTotal(q.rows[i].lockedAt.value, staleBefore);
  }
}
