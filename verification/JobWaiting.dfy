/**
 * Bounded waiting: no due job is overtaken for ever. With one batch limit and no job put in
 * front of it, every claim round takes `limit` jobs that were ahead, and a failed job comes
 * back strictly behind.
 */
module JobWaiting {
  import opened Calendar
  import opened TimeText
  import opened Jobs
  import opened Sums

  /** The longest delay that fits int64 nanoseconds. */
  const MAX_EXACT_ATTEMPTS := 96_038

  lemma SquareMonotone(a: int, b: int)
    requires 0 <= a <= b
    ensures 0 <= Square(a) <= Square(b)
  {
    assert b * b - a * a == (b - a) * (b + a);
  }

  /** The delay is attempts squared in seconds exactly while that fits; beyond, it wraps. */
  lemma {:induction false} DelayExactUpTo(attempts: int)
    requires 0 <= attempts
    ensures Delay(attempts) == Square(attempts) * NANOS_PER_SECOND <==> attempts <= MAX_EXACT_ATTEMPTS
  {
    if attempts <= MAX_EXACT_ATTEMPTS {
      SquareMonotone(attempts, MAX_EXACT_ATTEMPTS);
      assert Square(MAX_EXACT_ATTEMPTS) == 9_223_297_444;
    } else {
      SquareMonotone(MAX_EXACT_ATTEMPTS + 1, attempts);
      assert Square(MAX_EXACT_ATTEMPTS + 1) == 9_223_489_521;
    }
  }

  /** One attempt more and the retry lands 292 years in the past. */
  lemma DelayWrapsNegative()
    ensures Delay(MAX_EXACT_ATTEMPTS + 1) < 0
  {
    assert Square(96_039) == 9_223_489_521;
    assert Wrap64(9_223_489_521_000_000_000) == 9_223_489_521_000_000_000 - TWO_TO_64;
  }

  lemma {:induction false} RetryAfter(now: Instant, attempts: int)
    requires now.Valid() && 1 <= attempts <= MAX_EXACT_ATTEMPTS
    ensures AddNanos(now, Delay(attempts)) == Instant(now.sec + Square(attempts), now.nano)
    ensures Square(attempts) >= 1
  {
    DelayExactUpTo(attempts);
    SquareMonotone(1, attempts);
    WholeSeconds(now, Square(attempts));
  }

  lemma WholeSeconds(t: Instant, s: int)
    requires t.Valid()
    ensures AddNanos(t, s * NANOS_PER_SECOND) == Instant(t.sec + s, t.nano)
  {
  }

  /** The jobs that would be claimed before this one. */
  ghost function Ahead(q: Queue, j: Id): set<Id>
    requires q.Valid() && j in q.rows
  {
    set i | i in q.rows && q.rows[i].Waiting() && Before(q.rows, i, j)
  }

  /**
   * The conditions of the bound, act by act: one limit, a clock that does not go back, the
   * job due whenever a claim reads the clock, no new job in front of it, retries whose
   * delay does not overflow, and no recovery.
   */
  ghost predicate FairStep(q: Queue, act: Act, j: Id, limit: int, clock: Instant)
    requires q.Valid() && j in q.rows && act.Valid()
  {
    && act.now.sec >= clock.sec
    && match act
       case Claim(l, now) => l == limit && TextAtMost(q.rows[j].available, now)
       case Enqueue(_, _, _, _, available, _) => TextAtMost(q.rows[j].available, available)
       case Finish(i, error, _) =>
         error.Some? && i in q.rows && q.rows[i].status.Running? ==> q.rows[i].attempts <= MAX_EXACT_ATTEMPTS
       case Recover(_, _) => false
  }

  ghost predicate Fair(q: Queue, acts: seq<Act>, j: Id, limit: int, clock: Instant)
    requires q.Valid() && j in q.rows && ValidActs(acts)
    decreases |acts|
  {
    acts == [] || Takes(q, acts[0], j) ||
    (FairStep(q, acts[0], j, limit, clock) && Fair(Next(q, acts[0]), acts[1..], j, limit, acts[0].now))
  }

  /** Whether an act is the claim that takes the job. */
  ghost predicate Takes(q: Queue, act: Act, j: Id)
    requires q.Valid() && act.Valid()
  {
    act.Claim? && j in Batch(q, act.limit, act.now)
  }

  /** Whether some claim of the run takes the job. */
  ghost predicate ClaimedDuring(q: Queue, acts: seq<Act>, j: Id)
    requires q.Valid() && ValidActs(acts)
    decreases |acts|
  {
    acts != [] && (Takes(q, acts[0], j) || ClaimedDuring(Next(q, acts[0]), acts[1..], j))
  }

  function Claims(acts: seq<Act>): nat {
    if acts == [] then 0 else (if acts[0].Claim? then 1 else 0) + Claims(acts[1..])
  }

  lemma BatchIsAhead(q: Queue, j: Id, limit: int, now: Instant)
    requires q.Valid() && now.Valid() && j in q.rows && IsDue(q.rows[j], now)
    requires j !in Batch(q, limit, now)
    ensures (set i | i in Batch(q, limit, now)) <= Ahead(q, j)
    ensures |set i | i in Batch(q, limit, now)| == Limit(limit)
  {
    var ids := Batch(q, limit, now);
    CountOf(q, ids);
    assert j in Due(q, now);
    FrontShort(q, Due(q, now), Limit(limit), ids, j);
    forall i | i in ids ensures i in Ahead(q, j) {
      var k :| 0 <= k < |ids| && ids[k] == i;
      assert Before(q.rows, ids[k], j);
    }
  }

  lemma ClaimTakesFromAhead(q: Queue, j: Id, limit: int, now: Instant)
    requires q.Valid() && now.Valid() && j in q.rows && IsDue(q.rows[j], now)
    requires j !in Batch(q, limit, now)
    ensures var q' := Next(q, Claim(limit, now));
            q'.rows[j] == q.rows[j] && |Ahead(q', j)| + Limit(limit) <= |Ahead(q, j)|
  {
    var q' := Next(q, Claim(limit, now));
    var taken := set i | i in Batch(q, limit, now);
    BatchIsAhead(q, j, limit, now);
    forall i | i in Ahead(q', j) ensures i in Ahead(q, j) - taken {
      assert q'.rows[i] == q.rows[i];
    }
    SubsetSize(Ahead(q', j), Ahead(q, j) - taken);
    assert |Ahead(q, j) - taken| == |Ahead(q, j)| - |taken|;
  }

  /** A batch that leaves a due job out is full. */
  lemma FrontShort(q: Queue, s: set<Id>, limit: nat, ids: seq<Id>, j: Id)
    requires q.Valid() && s <= q.rows.Keys && IsFront(q, s, limit, ids)
    requires j in s && j !in ids
    ensures |ids| == limit
  {
    if |ids| < limit {
      var taken := set i | i in ids;
      CountOf(q, ids);
      SubsetSize(taken, s - {j});
    }
  }

  /** The rows of a batch are distinct. */
  lemma {:induction false} CountOf(q: Queue, ids: seq<Id>)
    requires q.Valid() && forall k :: 0 <= k < |ids| ==> ids[k] in q.rows
    requires forall k, l :: 0 <= k < l < |ids| ==> Before(q.rows, ids[k], ids[l])
    ensures |set i | i in ids| == |ids|
  {
    if ids != [] {
      var tail := ids[1..];
      forall k, l | 0 <= k < l < |tail| ensures Before(q.rows, tail[k], tail[l]) {
        assert Before(q.rows, ids[k + 1], ids[l + 1]);
      }
      CountOf(q, tail);
      forall k | 0 <= k < |tail| ensures tail[k] != ids[0] {
        assert Before(q.rows, ids[0], ids[k + 1]);
        BeforeIsStrictOrder(q, ids[0], ids[k + 1], ids[0]);
      }
      assert (set i | i in ids) == {ids[0]} + (set i | i in tail);
    }
  }

  lemma {:induction false} FinishStaysBehind(q: Queue, j: Id, act: Act, clock: Instant)
    requires q.Valid() && act.Valid() && j in q.rows && q.rows[j].Waiting() && q.rows[j].available.sec <= clock.sec
    requires act.Finish? && FairStep(q, act, j, 1, clock)
    ensures var q' := Next(q, act); q'.rows[j] == q.rows[j] && Ahead(q', j) <= Ahead(q, j)
  {
    var q' := Next(q, act);
    var i := act.id;
    if i in q.rows && q.rows[i].status.Running? {
      if act.error.Some? {
        RetryAfter(act.now, q.rows[i].attempts);
        TextOrderKeepsSeconds(q.rows[j].available, q'.rows[i].available);
        TextBeforeIsTotal(q.rows[j].available, q'.rows[i].available);
      }
      forall k | k in Ahead(q', j) ensures k in Ahead(q, j) {
        assert k != i;
      }
    }
  }

  lemma EnqueueStaysBehind(q: Queue, j: Id, act: Act, clock: Instant)
    requires q.Valid() && act.Valid() && j in q.rows
    requires act.Enqueue? && FairStep(q, act, j, 1, clock)
    ensures var q' := Next(q, act); q'.rows[j] == q.rows[j] && Ahead(q', j) <= Ahead(q, j)
  {
    var q' := Next(q, act);
    forall k | k in Ahead(q', j) ensures k in Ahead(q, j) {
      TextBeforeIsTotal(q.rows[j].available, act.available);
      assert k in q.rows;
    }
  }

  lemma WaitStep(q: Queue, act: Act, j: Id, limit: int, clock: Instant)
    requires q.Valid() && act.Valid() && j in q.rows && FairStep(q, act, j, limit, clock)
    requires q.rows[j].Waiting() && q.rows[j].available.sec <= clock.sec
    requires !Takes(q, act, j)
    ensures Next(q, act).rows[j] == q.rows[j]
    ensures |Ahead(Next(q, act), j)| + (if act.Claim? then Limit(limit) else 0) <= |Ahead(q, j)|
  {
    match act {
      case Claim(l, now) => ClaimTakesFromAhead(q, j, l, now);
      case Finish(_, _, _) => FinishStaysBehind(q, j, act, clock); SubsetSize(Ahead(Next(q, act), j), Ahead(q, j));
      case Enqueue(_, _, _, _, _, _) =>
        EnqueueStaysBehind(q, j, act, clock);
        SubsetSize(Ahead(Next(q, act), j), Ahead(q, j));
      case Recover(_, _) => assert false;
    }
  }

  lemma FairRunStep(q: Queue, acts: seq<Act>, j: Id, limit: int, clock: Instant)
    requires q.Valid() && ValidActs(acts) && j in q.rows && acts != []
    requires Fair(q, acts, j, limit, clock) && !ClaimedDuring(q, acts, j)
    ensures FairStep(q, acts[0], j, limit, clock)
    ensures !Takes(q, acts[0], j)
    ensures Fair(Next(q, acts[0]), acts[1..], j, limit, acts[0].now)
    ensures !ClaimedDuring(Next(q, acts[0]), acts[1..], j)
  {
  }

  /** The jobs that full batches take. */
  function TakenBy(acts: seq<Act>, limit: nat): nat {
    if acts == [] then 0 else (if acts[0].Claim? then limit else 0) + TakenBy(acts[1..], limit)
  }

  lemma {:induction false} TakenByClaims(acts: seq<Act>, limit: nat)
    ensures TakenBy(acts, limit) == Claims(acts) * limit
  {
    if acts != [] {
      TakenByClaims(acts[1..], limit);
      assert (1 + Claims(acts[1..])) * limit == limit + Claims(acts[1..]) * limit;
    }
  }

  lemma {:induction false} TakenWhileWaiting(q: Queue, acts: seq<Act>, j: Id, limit: int, clock: Instant)
    requires q.Valid() && ValidActs(acts) && j in q.rows && Fair(q, acts, j, limit, clock)
    requires q.rows[j].Waiting() && q.rows[j].available.sec <= clock.sec
    requires !ClaimedDuring(q, acts, j)
    ensures TakenBy(acts, Limit(limit)) <= |Ahead(q, j)|
    decreases |acts|
  {
    if acts != [] {
      FairRunStep(q, acts, j, limit, clock);
      WaitStep(q, acts[0], j, limit, clock);
      TakenWhileWaiting(Next(q, acts[0]), acts[1..], j, limit, acts[0].now);
    }
  }

  /** Each claim round that leaves the job waiting takes `limit` of the jobs ahead of it. */
  lemma {:induction false} RoundsSpentWaiting(q: Queue, acts: seq<Act>, j: Id, limit: int, clock: Instant)
    requires q.Valid() && ValidActs(acts) && j in q.rows && Fair(q, acts, j, limit, clock)
    requires q.rows[j].Waiting() && q.rows[j].available.sec <= clock.sec
    requires !ClaimedDuring(q, acts, j)
    ensures Claims(acts) * Limit(limit) <= |Ahead(q, j)|
  {
    TakenWhileWaiting(q, acts, j, limit, clock);
    TakenByClaims(acts, Limit(limit));
  }

  lemma {:induction false} EnoughRounds(ahead: nat, limit: nat, claims: nat)
    requires limit > 0 && claims >= ahead / limit + 1
    ensures claims * limit > ahead
  {
    var k := ahead / limit;
    assert ahead == limit * k + ahead % limit;
    assert claims * limit >= (k + 1) * limit;
  }

  /** With r jobs ahead, one of the next r / limit + 1 claim rounds takes the job. */
  lemma {:induction false} BoundedWaiting(q: Queue, acts: seq<Act>, j: Id, limit: int, clock: Instant)
    requires q.Valid() && ValidActs(acts) && j in q.rows && Fair(q, acts, j, limit, clock)
    requires q.rows[j].Waiting() && q.rows[j].available.sec <= clock.sec
    requires Claims(acts) >= |Ahead(q, j)| / Limit(limit) + 1
    ensures ClaimedDuring(q, acts, j)
  {
    if !ClaimedDuring(q, acts, j) {
      RoundsSpentWaiting(q, acts, j, limit, clock);
      EnoughRounds(|Ahead(q, j)|, Limit(limit), Claims(acts));
    }
  }

  // ----- when a due job stays due

  /** Once its second has passed, a job is due at every later reading of the clock. */
  lemma DueForGood(available: Instant, clock: Instant, now: Instant)
    requires available.Valid() && clock.Valid() && now.Valid()
    requires available.sec < clock.sec && !Earlier(now, clock)
    ensures TextAtMost(available, now)
  {
    TextOrderKeepsSeconds(available, now);
    TextBeforeIsTotal(available, now);
  }

  /**
   * A clock that moves forward keeps every due job due exactly when the written fraction of
   * the later reading does not continue that of the earlier one in the same second.
   */
  lemma DueKeptExactly(clock: Instant, now: Instant)
    requires clock.Valid() && now.Valid() && !Earlier(now, clock)
    ensures (forall a: Instant :: a.Valid() && TextAtMost(a, clock) ==> TextAtMost(a, now))
       <==> !FractionsClash(clock, now)
  {
    if FractionsClash(clock, now) {
      assert TextAtMost(clock, clock) && !TextAtMost(clock, now);
    } else {
      forall a: Instant | a.Valid() && TextAtMost(a, clock) ensures TextAtMost(a, now) {
        if TextBefore(now, a) {
          TextBeforeIsTotal(a, clock);
          TextBeforeIsTotal(clock, now);
          if a != clock {
            TextBeforeIsTransitive(now, a, clock);
          }
        }
      }
    }
  }

  /** A concrete loss: a job due at the full second is not due half a second later. */
  lemma DueLost()
    ensures var (available, now) := (Instant(0, 0), Instant(0, 500_000_000));
            Earlier(available, now) && TextAtMost(available, available) && !TextAtMost(available, now)
  {
    HalfSecondFraction();
  }

  /**
   * The bound with conditions on the surroundings alone: one limit, a clock that does not go
   * back, no new job in front, no recovery, and delays that fit.
   */
  ghost predicate Orderly(q: Queue, acts: seq<Act>, due: Instant, limit: int, clock: Instant)
    requires q.Valid() && ValidActs(acts) && due.Valid()
    decreases |acts|
  {
    acts == [] ||
    (OrderlyStep(q, acts[0], due, limit, clock) && Orderly(Next(q, acts[0]), acts[1..], due, limit, acts[0].now))
  }

  ghost predicate OrderlyStep(q: Queue, act: Act, due: Instant, limit: int, clock: Instant)
    requires q.Valid() && act.Valid() && due.Valid()
  {
    && !Earlier(act.now, clock)
    && match act
       case Claim(l, _) => l == limit
       case Enqueue(_, _, _, _, available, _) => TextAtMost(due, available)
       case Finish(i, error, _) =>
         error.Some? && i in q.rows && q.rows[i].status.Running? ==> q.rows[i].attempts <= MAX_EXACT_ATTEMPTS
       case Recover(_, _) => false
  }

  lemma OrderlyStepIsFair(q: Queue, act: Act, j: Id, limit: int, clock: Instant)
    requires q.Valid() && act.Valid() && j in q.rows && clock.Valid() && q.rows[j].available.sec < clock.sec
    requires OrderlyStep(q, act, q.rows[j].available, limit, clock)
    ensures FairStep(q, act, j, limit, clock)
  {
    DueForGood(q.rows[j].available, clock, act.now);
  }

  lemma {:induction false} OrderlyIsFair(q: Queue, acts: seq<Act>, j: Id, limit: int, clock: Instant)
    requires q.Valid() && ValidActs(acts) && j in q.rows && clock.Valid()
    requires q.rows[j].Waiting() && q.rows[j].available.sec < clock.sec
    requires Orderly(q, acts, q.rows[j].available, limit, clock)
    ensures Fair(q, acts, j, limit, clock)
    decreases |acts|
  {
    if acts != [] && !Takes(q, acts[0], j) {
      OrderlyStepIsFair(q, acts[0], j, limit, clock);
      WaitStep(q, acts[0], j, limit, clock);
      OrderlyIsFair(Next(q, acts[0]), acts[1..], j, limit, acts[0].now);
    }
  }

  /** A job whose second has passed is claimed within r / limit + 1 rounds of an orderly run. */
  lemma {:induction false} BoundedWaitingByTheClock(q: Queue, acts: seq<Act>, j: Id, limit: int, clock: Instant)
    requires q.Valid() && ValidActs(acts) && j in q.rows && clock.Valid()
    requires q.rows[j].Waiting() && q.rows[j].available.sec < clock.sec
    requires Orderly(q, acts, q.rows[j].available, limit, clock)
    requires Claims(acts) >= |Ahead(q, j)| / Limit(limit) + 1
    ensures ClaimedDuring(q, acts, j)
  {
    OrderlyIsFair(q, acts, j, limit, clock);
    BoundedWaiting(q, acts, j, limit, clock);
  }
}
