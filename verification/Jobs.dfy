/**
 * The durable job table: what each statement of the job store does to it, on values.
 * Stored times are instants; SQL compares them by `TextBefore` (module TimeText).
 */
module Jobs {
  import opened Wrappers
  import opened Calendar
  import opened TimeText
  import opened Sums

  type Id = int

  datatype JobStatus = Pending | Running | Retry | Succeeded | Failed

  datatype Job = Job(id: Id, kind: string, key: string, payload: string, status: JobStatus,
                     attempts: int, maxAttempts: int, available: Instant, lastError: string,
                     lockedAt: Option<Instant>, createdAt: Instant, updatedAt: Instant)
  {
    predicate Waiting() { status.Pending? || status.Retry? }

    ghost predicate Valid() {
      && available.Valid() && (lockedAt.Some? ==> lockedAt.value.Valid())
      && 0 <= attempts && (status.Running? ==> 1 <= attempts && lockedAt.Some?)
    }
  }

  datatype Queue = Queue(rows: map<Id, Job>, next: Id) {
    ghost predicate Valid() {
      && forall i :: i in rows ==> i < next && rows[i].id == i && rows[i].Valid()
    }
  }

  datatype JobError = InvalidAttempts | DuplicateKey | Conflict

  // ----- backoff

  const INT64_MIN := -0x8000_0000_0000_0000
  const INT64_MAX := 0x7FFF_FFFF_FFFF_FFFF
  const TWO_TO_64 := 0x1_0000_0000_0000_0000

  /** Two's-complement wrap-around of Go's int64 arithmetic. */
  function Wrap64(x: int): (w: int)
    ensures INT64_MIN <= w <= INT64_MAX
    decreases if x > INT64_MAX then x - INT64_MAX else if x < INT64_MIN then INT64_MIN - x else 0
  {
    if x > INT64_MAX then Wrap64(x - TWO_TO_64)
    else if x < INT64_MIN then Wrap64(x + TWO_TO_64)
    else x
  }

  function Square(n: int): int { n * n }

  /** `time.Duration(attempts*attempts) * time.Second`, in nanoseconds. */
  function Delay(attempts: int): int {
    Wrap64(Wrap64(Square(attempts)) * NANOS_PER_SECOND)
  }

  function AddNanos(t: Instant, d: int): Instant {
    var total := t.nano + d;
    Instant(t.sec + total / NANOS_PER_SECOND, total % NANOS_PER_SECOND)
  }

  // ----- the claim order

  /** By the stored time, then by id. */
  predicate Before(rows: map<Id, Job>, i: Id, j: Id)
    requires i in rows && j in rows && rows[i].available.Valid() && rows[j].available.Valid()
  {
    || TextBefore(rows[i].available, rows[j].available)
    || (rows[i].available == rows[j].available && i < j)
  }

  predicate IsDue(job: Job, now: Instant)
    requires job.available.Valid() && now.Valid()
  {
    job.Waiting() && TextAtMost(job.available, now)
  }

  function Due(q: Queue, now: Instant): set<Id>
    requires q.Valid() && now.Valid()
  {
    set i | i in q.rows && IsDue(q.rows[i], now)
  }

  /** The first `limit` of a set of rows in claim order. */
  ghost predicate IsFront(q: Queue, s: set<Id>, limit: nat, ids: seq<Id>)
    requires q.Valid() && s <= q.rows.Keys
  {
    && (forall k :: 0 <= k < |ids| ==> ids[k] in s)
    && (forall k, l :: 0 <= k < l < |ids| ==> Before(q.rows, ids[k], ids[l]))
    && |ids| == (if |s| < limit then |s| else limit)
    && (forall i, k :: i in s && i !in ids && 0 <= k < |ids| ==> Before(q.rows, ids[k], i))
  }

  lemma BeforeIsStrictOrder(q: Queue, i: Id, j: Id, k: Id)
    requires q.Valid() && i in q.rows && j in q.rows && k in q.rows
    ensures i == j || Before(q.rows, i, j) || Before(q.rows, j, i)
    ensures !(Before(q.rows, i, j) && Before(q.rows, j, i))
    ensures Before(q.rows, i, j) && Before(q.rows, j, k) ==> Before(q.rows, i, k)
  {
    var (a, b, c) := (q.rows[i].available, q.rows[j].available, q.rows[k].available);
    TextBeforeIsTotal(a, b);
    if TextBefore(a, b) && TextBefore(b, c) {
      TextBeforeIsTransitive(a, b, c);
    }
  }

  /** Every finite set of rows has a first `limit`. */
  ghost function Front(q: Queue, s: set<Id>, limit: nat): (ids: seq<Id>)
    requires q.Valid() && s <= q.rows.Keys
    ensures IsFront(q, s, limit, ids)
    decreases limit
  {
    if limit == 0 || s == {} then []
    else
      var i := Least(q, s);
      var more := Front(q, s - {i}, limit - 1);
      FrontGrows(q, s, limit, i, more);
      [i] + more
  }

  ghost predicate IsLeast(q: Queue, s: set<Id>, i: Id)
    requires q.Valid() && s <= q.rows.Keys
  {
    i in s && forall j :: j in s && j != i ==> Before(q.rows, i, j)
  }

  ghost function Least(q: Queue, s: set<Id>): (i: Id)
    requires q.Valid() && s <= q.rows.Keys && s != {}
    ensures IsLeast(q, s, i)
  {
    LeastExists(q, s);
    var i :| IsLeast(q, s, i);
    i
  }

  lemma {:induction false} LeastExists(q: Queue, s: set<Id>)
    requires q.Valid() && s <= q.rows.Keys && s != {}
    ensures exists i :: IsLeast(q, s, i)
    decreases |s|
  {
    var i := AnyOf(s);
    if s == {i} {
      assert IsLeast(q, s, i);
    } else {
      LeastExists(q, s - {i});
      var m :| IsLeast(q, s - {i}, m);
      BeforeIsStrictOrder(q, i, m, m);
      if Before(q.rows, i, m) {
        forall j | j in s && j != i ensures Before(q.rows, i, j) {
          BeforeIsStrictOrder(q, i, m, j);
        }
        assert IsLeast(q, s, i);
      } else {
        assert IsLeast(q, s, m);
      }
    }
  }

  lemma OrderGrows(q: Queue, s: set<Id>, i: Id, more: seq<Id>)
    requires q.Valid() && s <= q.rows.Keys && IsLeast(q, s, i)
    requires forall k :: 0 <= k < |more| ==> more[k] in s && more[k] != i
    requires forall k, l :: 0 <= k < l < |more| ==> Before(q.rows, more[k], more[l])
    ensures var ids := [i] + more; forall k, l :: 0 <= k < l < |ids| ==> Before(q.rows, ids[k], ids[l])
  {
    var ids := [i] + more;
    forall k, l | 0 <= k < l < |ids| ensures Before(q.rows, ids[k], ids[l]) {
      assert ids[l] == more[l - 1];
      if k > 0 {
        assert Before(q.rows, more[k - 1], more[l - 1]);
      }
    }
  }

  lemma OthersStayBehind(q: Queue, s: set<Id>, i: Id, more: seq<Id>, j: Id, k: nat)
    requires q.Valid() && s <= q.rows.Keys && IsLeast(q, s, i)
    requires forall m :: 0 <= m < |more| ==> more[m] in s
    requires forall h, m :: h in s - {i} && h !in more && 0 <= m < |more| ==> Before(q.rows, more[m], h)
    requires j in s && j !in [i] + more && k <= |more|
    ensures Before(q.rows, ([i] + more)[k], j)
  {
    assert j != i && j !in more by {
      assert ([i] + more)[0] == i;
      assert forall m :: 0 <= m < |more| ==> ([i] + more)[m + 1] == more[m];
    }
    if k > 0 {
      assert ([i] + more)[k] == more[k - 1] && j in s - {i};
    }
  }

  lemma FrontGrows(q: Queue, s: set<Id>, limit: nat, i: Id, more: seq<Id>)
    requires q.Valid() && s <= q.rows.Keys && limit > 0
    requires IsLeast(q, s, i)
    requires IsFront(q, s - {i}, limit - 1, more)
    ensures IsFront(q, s, limit, [i] + more)
  {
    var ids := [i] + more;
    assert |s - {i}| == |s| - 1;
    OrderGrows(q, s, i, more);
    forall j, k | j in s && j !in ids && 0 <= k < |ids| ensures Before(q.rows, ids[k], j) {
      OthersStayBehind(q, s, i, more, j, k);
    }
  }

  /** The batch is determined by the order: there is only one. */
  lemma {:induction false} FrontIsUnique(q: Queue, s: set<Id>, limit: nat, a: seq<Id>, b: seq<Id>)
    requires q.Valid() && s <= q.rows.Keys
    requires IsFront(q, s, limit, a) && IsFront(q, s, limit, b)
    ensures a == b
    decreases limit
  {
    if a != [] {
      FrontHead(q, s, limit, a, b);
      var t := s - {a[0]};
      assert |t| == |s| - 1;
      FrontTail(q, s, limit, a);
      FrontTail(q, s, limit, b);
      FrontIsUnique(q, t, limit - 1, a[1..], b[1..]);
      assert a == [a[0]] + a[1..] && b == [b[0]] + b[1..];
    }
  }

  lemma FrontHead(q: Queue, s: set<Id>, limit: nat, a: seq<Id>, b: seq<Id>)
    requires q.Valid() && s <= q.rows.Keys && a != [] && b != []
    requires IsFront(q, s, limit, a) && IsFront(q, s, limit, b)
    ensures a[0] == b[0]
  {
    if a[0] != b[0] {
      FirstIsLeast(q, s, limit, a, b[0]);
      FirstIsLeast(q, s, limit, b, a[0]);
      BeforeIsStrictOrder(q, a[0], b[0], b[0]);
    }
  }

  lemma FirstIsLeast(q: Queue, s: set<Id>, limit: nat, ids: seq<Id>, j: Id)
    requires q.Valid() && s <= q.rows.Keys && ids != [] && IsFront(q, s, limit, ids)
    requires j in s && j != ids[0]
    ensures Before(q.rows, ids[0], j)
  {
    if j in ids {
      var k :| 0 <= k < |ids| && ids[k] == j;
      assert Before(q.rows, ids[0], ids[k]);
    }
  }

  lemma FrontTail(q: Queue, s: set<Id>, limit: nat, ids: seq<Id>)
    requires q.Valid() && s <= q.rows.Keys && ids != [] && IsFront(q, s, limit, ids)
    ensures limit > 0 && IsFront(q, s - {ids[0]}, limit - 1, ids[1..])
  {
    var (t, tail) := (s - {ids[0]}, ids[1..]);
    assert |t| == |s| - 1;
    forall k | 0 <= k < |tail| ensures tail[k] in t {
      assert Before(q.rows, ids[0], ids[k + 1]);
      BeforeIsStrictOrder(q, ids[0], ids[k + 1], ids[0]);
    }
    forall k, l | 0 <= k < l < |tail| ensures Before(q.rows, tail[k], tail[l]) {
      assert Before(q.rows, ids[k + 1], ids[l + 1]);
    }
    forall i, k | i in t && i !in tail && 0 <= k < |tail| ensures Before(q.rows, tail[k], i) {
      assert i !in ids;
      assert Before(q.rows, ids[k + 1], i);
    }
  }

  // ----- the statements

  /** A limit below one counts as one. */
  function Limit(limit: int): nat { if limit < 1 then 1 else limit }

  /** The rows a claim selects: the first `limit` due ones. */
  ghost function Batch(q: Queue, limit: int, now: Instant): seq<Id>
    requires q.Valid() && now.Valid()
  {
    Front(q, Due(q, now), Limit(limit))
  }

  function ClaimedJob(job: Job, now: Instant): Job {
    job.(status := Running, attempts := job.attempts + 1, lockedAt := Some(now), updatedAt := now)
  }

  function ClaimAll(q: Queue, ids: seq<Id>, now: Instant): Queue {
    q.(rows := map i | i in q.rows :: if i in ids then ClaimedJob(q.rows[i], now) else q.rows[i])
  }

  /** The row after its attempt ends: done, or back for a retry, or failed for good. */
  function FinishedJob(job: Job, error: Option<string>, now: Instant): Job {
    match error
    case None => job.(status := Succeeded, lockedAt := None, lastError := "", updatedAt := now)
    case Some(text) =>
      job.(status := if job.attempts >= job.maxAttempts then Failed else Retry,
           available := AddNanos(now, Delay(job.attempts)), lockedAt := None, lastError := text, updatedAt := now)
  }

  predicate IsStale(job: Job, staleBefore: Instant)
    requires job.lockedAt.Some? ==> job.lockedAt.value.Valid()
    requires staleBefore.Valid()
  {
    job.status.Running? && job.lockedAt.Some? && TextBefore(job.lockedAt.value, staleBefore)
  }

  const RECOVERED := "recovered after interrupted worker"

  function RecoveredJob(job: Job, now: Instant): Job {
    job.(status := Retry, available := now, lockedAt := None, lastError := RECOVERED, updatedAt := now)
  }

  function NewJob(id: Id, kind: string, key: string, payload: string, maxAttempts: int, available: Instant,
        now: Instant): Job {
    Job(id, kind, key, payload, Pending, 0, maxAttempts, available, "", None, now, now)
  }

  predicate KeyTaken(q: Queue, key: string) {
    exists i :: i in q.rows && q.rows[i].key == key
  }

  /** One statement or transaction of the job store. */
  datatype Act =
    | Enqueue(kind: string, key: string, payload: string, maxAttempts: int, available: Instant, now: Instant)
    | Claim(limit: int, now: Instant)
    | Finish(id: Id, error: Option<string>, now: Instant)
    | Recover(staleBefore: Instant, now: Instant)
  {
    ghost predicate Valid() {
      && now.Valid() && (Enqueue? ==> available.Valid()) && (Recover? ==> staleBefore.Valid())
    }
  }

  ghost function Next(q: Queue, act: Act): (q': Queue)
    requires q.Valid() && act.Valid()
    ensures q'.Valid() && q.rows.Keys <= q'.rows.Keys
  {
    match act
    case Enqueue(kind, key, payload, maxAttempts, available, now) =>
      if maxAttempts < 1 || KeyTaken(q, key) then q
      else Queue(q.rows[q.next := NewJob(q.next, kind, key, payload, maxAttempts, available, now)], q.next + 1)
    case Claim(limit, now) => ClaimAll(q, Batch(q, limit, now), now)
    case Finish(id, error, now) =>
      if id in q.rows && q.rows[id].status.Running? then q.(rows := q.rows[id := FinishedJob(q.rows[id], error, now)])
      else q
    case Recover(staleBefore, now) =>
      q.(rows := map i | i in q.rows :: if IsStale(q.rows[i], staleBefore) then RecoveredJob(q.rows[i], now)
        else q.rows[i])
  }

  ghost predicate ValidActs(acts: seq<Act>) { forall k :: 0 <= k < |acts| ==> acts[k].Valid() }

  /** A run of the job store. */
  ghost function Run(q: Queue, acts: seq<Act>): (q': Queue)
    requires q.Valid() && ValidActs(acts)
    ensures q'.Valid()
    decreases |acts|
  {
    if acts == [] then q else Run(Next(q, acts[0]), acts[1..])
  }
}
