/**
 * Enrollments that race on an idempotency key. A call looks the key up outside its
 * transaction, and any number of other calls and transactions may come in between.
 */
module KeyRace {
  import opened Wrappers
  import opened Schema
  import opened Services
  import opened Runs
  import opened Hub
  import opened SeatLaws
  import opened Sums

  datatype Client = Client(p: Principal, requestId: string, req: EnrollRequest)

  /** Where a call stands: before its lookup, past a lookup that found nothing, or answered. */
  datatype Phase = Waiting | Missed | Done(r: Result<Enrollment, HubError>)

  datatype World = World(t: Tables, phases: map<Id, Phase>)

  /** A lookup may fail for reasons of its own; the code then goes on as if the key were new. */
  datatype Move =
    | Look(c: Id, fails: bool)
    | Transact(c: Id, clock: EnrollClock, commits: bool)
    | Other(s: Step)

  ghost function RowWith(enrollments: Enrollments, key: string): (row: Enrollment)
    requires KeyUsed(enrollments, key)
    ensures row in enrollments.Values && row.key == key
  {
    var e :| e in enrollments && enrollments[e].key == key;
    assert e in enrollments.Keys;
    enrollments[e]
  }

  ghost function Looked(t: Tables, client: Client, fails: bool): Phase {
    var refused := EnrollRefused(client.p, client.req);
    if refused.Some? then Done(Err(refused.value))
    else if fails || !KeyUsed(t.enrollments, client.req.key) then Missed
    else
      var row := RowWith(t.enrollments, client.req.key);
      if row.studentId != client.req.studentId || row.sessionId != client.req.sessionId then Done(Err(PayloadMismatch))
      else Done(Ok(row))
  }

  function Decided(ref: Reference, t: Tables, client: Client, clock: EnrollClock): (d: Result<Effect, HubError>)
    ensures d.Ok? ==> Allowed(t, d.value)
  {
    Enrolling(ref, t, client.requestId, client.req, clock)
  }

  function Answered(t: Tables, d: Result<Effect, HubError>, client: Client, clock: EnrollClock, commits: bool): Phase {
    Done(if d.Ok? && commits
      then Ok(NewEnrollment(t, client.req.studentId, client.req.sessionId, client.req.key, clock.storedAt))
         else Err(Failure(d)))
  }

  ghost predicate CanMove(clients: map<Id, Client>, w: World, m: Move) {
    && w.phases.Keys == clients.Keys
    && match m
       case Look(c, _) => c in clients && w.phases[c].Waiting?
       case Transact(c, _, _) => c in clients && w.phases[c].Missed?
       case Other(s) => Allowed(w.t, s.effect)
  }

  ghost function Moved(ref: Reference, clients: map<Id, Client>, w: World, m: Move): (w': World)
    requires CanMove(clients, w, m)
    ensures w'.phases.Keys == clients.Keys
  {
    match m
    case Look(c, fails) => w.(phases := w.phases[c := Looked(w.t, clients[c], fails)])
    case Transact(c, clock, commits) =>
      var (client, d) := (clients[c], Decided(ref, w.t, clients[c], clock));
      World(Settled(w.t, d, client.p, client.requestId, clock.auditAt, commits),
            w.phases[c := Answered(w.t, d, client, clock, commits)])
    case Other(s) => w.(t := Next(w.t, s))
  }

  ghost predicate CanRun(ref: Reference, clients: map<Id, Client>, w: World, moves: seq<Move>)
    decreases |moves|
  {
    moves == [] || (CanMove(clients, w, moves[0]) && CanRun(ref, clients, Moved(ref, clients, w, moves[0]), moves[1..]))
  }

  ghost function After(ref: Reference, clients: map<Id, Client>, w: World, moves: seq<Move>): World
    requires CanRun(ref, clients, w, moves)
    decreases |moves|
  {
    if moves == [] then w else After(ref, clients, Moved(ref, clients, w, moves[0]), moves[1..])
  }

  // ----- what every interleaving keeps

  /** The answer is a row of the table, with the key and the payload of the request. */
  ghost predicate Backed(enrollments: Enrollments, req: EnrollRequest, e: Enrollment) {
    && e.id in enrollments
    && enrollments[e.id].key == e.key == req.key
    && enrollments[e.id].studentId == e.studentId == req.studentId
    && enrollments[e.id].sessionId == e.sessionId == req.sessionId
  }

  ghost predicate Honest(clients: map<Id, Client>, w: World) {
    && w.phases.Keys == clients.Keys
    && Seating(w.t)
    && forall c :: c in clients && w.phases[c].Done? && w.phases[c].r.Ok? ==>
         Backed(w.t.enrollments, clients[c].req, w.phases[c].r.value)
  }

  /** Enrollment rows keep their key, student and session. */
  ghost predicate SameSeats(before: Enrollments, after: Enrollments) {
    forall e :: e in before ==>
      && e in after && after[e].key == before[e].key
      && after[e].studentId == before[e].studentId && after[e].sessionId == before[e].sessionId
  }

  lemma SameSeatsClosed(rows: Enrollments, s: Id)
    ensures SameSeats(rows, ClosedEnrollments(rows, s))
  {
  }

  lemma SeatsStay(t: Tables, e: Effect)
    requires Seating(t) && Allowed(t, e)
    ensures SameSeats(t.enrollments, Apply(t, e).enrollments)
  {
    match e
    case Seat(row) => assert row.id !in t.enrollments;
    case Closing(s, _, _, _) => SameSeatsClosed(t.enrollments, s);
    case _ =>
  }

  lemma HonestLook(clients: map<Id, Client>, w: World, c: Id, fails: bool)
    requires Honest(clients, w) && c in clients
    ensures Honest(clients, w.(phases := w.phases[c := Looked(w.t, clients[c], fails)]))
  {
  }

  lemma HonestStep(clients: map<Id, Client>, w: World, s: Step)
    requires Honest(clients, w) && Allowed(w.t, s.effect)
    ensures Honest(clients, w.(t := Next(w.t, s)))
  {
    SeatingStep(w.t, s.effect);
    SeatsStay(w.t, s.effect);
  }

  /** What a transaction seats is what it answers. */
  lemma DecidedSeat(ref: Reference, t: Tables, client: Client, clock: EnrollClock)
    ensures var d := Decided(ref, t, client, clock);
            d.Ok? ==> d.value == Seat(NewEnrollment(t, client.req.studentId, client.req.sessionId, client.req.key,
              clock.storedAt))
  {
  }

  lemma HonestAnswer(clients: map<Id, Client>, w: World, c: Id, t: Tables, row: Enrollment, s: Step)
    requires Honest(clients, w) && c in clients && s.effect == Seat(row) && Allowed(w.t, s.effect) && t == Next(w.t, s)
    requires row.key == clients[c].req.key && row.studentId == clients[c].req.studentId
        && row.sessionId == clients[c].req.sessionId
    ensures Honest(clients, World(t, w.phases[c := Done(Ok(row))]))
  {
    HonestStep(clients, w, s);
  }

  lemma HonestMove(ref: Reference, clients: map<Id, Client>, w: World, m: Move)
    requires Honest(clients, w) && CanMove(clients, w, m)
    ensures Honest(clients, Moved(ref, clients, w, m))
  {
    match m
    case Look(c, fails) => HonestLook(clients, w, c, fails);
    case Other(s) => HonestStep(clients, w, s);
    case Transact(c, clock, commits) =>
      var (client, d) := (clients[c], Decided(ref, w.t, clients[c], clock));
      if d.Ok? && commits {
        DecidedSeat(ref, w.t, client, clock);
        var s := Step(d.value, Some(Receipt(client.p.accountId, client.requestId, clock.auditAt)));
        HonestAnswer(clients, w, c, Next(w.t, s), d.value.row, s);
      }
  }

  lemma {:induction false} HonestRun(ref: Reference, clients: map<Id, Client>, w: World, moves: seq<Move>)
    requires Honest(clients, w) && CanRun(ref, clients, w, moves)
    ensures Honest(clients, After(ref, clients, w, moves))
    decreases |moves|
  {
    if moves != [] {
      HonestMove(ref, clients, w, moves[0]);
      HonestRun(ref, clients, Moved(ref, clients, w, moves[0]), moves[1..]);
    }
  }

  /**
   * However the calls interleave, all that succeed with one key return one enrollment, and
   * they all asked for its student and its session.
   */
  lemma OneKeyOneEnrollment(ref: Reference, clients: map<Id, Client>, w: World, moves: seq<Move>, c: Id, d: Id)
    requires Honest(clients, w) && CanRun(ref, clients, w, moves)
    requires c in clients && d in clients && clients[c].req.key == clients[d].req.key
    requires var last := After(ref, clients, w, moves).phases;
             c in last && d in last && last[c].Done? && last[c].r.Ok? && last[d].Done? && last[d].r.Ok?
    ensures var last := After(ref, clients, w, moves).phases;
            && last[c].r.value.id == last[d].r.value.id
            && clients[c].req.studentId == clients[d].req.studentId == last[c].r.value.studentId
            && clients[c].req.sessionId == clients[d].req.sessionId == last[c].r.value.sessionId
  {
    HonestRun(ref, clients, w, moves);
  }

  // ----- seats are consumed once

  function RowsWith(enrollments: Enrollments, key: string): set<Id> {
    set e | e in enrollments && enrollments[e].key == key
  }

  lemma AtMostOneRow(t: Tables, key: string)
    requires Seating(t)
    ensures |RowsWith(t.enrollments, key)| <= 1
  {
    var rows := RowsWith(t.enrollments, key);
    if rows != {} {
      var e := AnyOf(rows);
      forall f | f in rows ensures f == e {
        assert t.enrollments[f].key == t.enrollments[e].key;
      }
      SubsetSize(rows, {e});
    }
  }

  /** Whether a move commits an enrollment with the key. */
  ghost function Takes(ref: Reference, clients: map<Id, Client>, w: World, m: Move, key: string): nat
    requires CanMove(clients, w, m)
  {
    match m
    case Look(_, _) => 0
    case Transact(c, clock, commits) =>
      if commits && Decided(ref, w.t, clients[c], clock).Ok? && clients[c].req.key == key then 1 else 0
    case Other(s) => if s.effect.Seat? && s.effect.row.key == key then 1 else 0
  }

  ghost function TakesIn(ref: Reference, clients: map<Id, Client>, w: World, moves: seq<Move>, key: string): nat
    requires CanRun(ref, clients, w, moves)
    decreases |moves|
  {
    if moves == [] then 0
    else
      Takes(ref, clients, w, moves[0], key)
      + TakesIn(ref, clients, Moved(ref, clients, w, moves[0]), moves[1..], key)
  }

  lemma RowsAfterInsert(rows: Enrollments, row: Enrollment, key: string)
    requires row.id !in rows
    ensures |RowsWith(rows[row.id := row], key)| == |RowsWith(rows, key)| + if row.key == key then 1 else 0
  {
    var (before, after) := (RowsWith(rows, key), RowsWith(rows[row.id := row], key));
    if row.key == key {
      assert after == before + {row.id};
    } else {
      assert after == before;
    }
  }

  lemma RowsAfterClosing(rows: Enrollments, s: Id, key: string)
    ensures RowsWith(ClosedEnrollments(rows, s), key) == RowsWith(rows, key)
  {
    SameSeatsClosed(rows, s);
    forall e ensures e in RowsWith(ClosedEnrollments(rows, s), key) <==> e in RowsWith(rows, key) {
      assert e in rows ==> ClosedEnrollments(rows, s)[e].key == rows[e].key;
    }
  }

  lemma RowsAfterEffect(t: Tables, e: Effect, key: string)
    requires Seating(t) && Allowed(t, e)
    ensures |RowsWith(Apply(t, e).enrollments, key)| ==
            |RowsWith(t.enrollments, key)| + if e.Seat? && e.row.key == key then 1 else 0
  {
    match e
    case Seat(row) => RowsAfterInsert(t.enrollments, row, key);
    case Closing(s, _, _, _) => RowsAfterClosing(t.enrollments, s, key);
    case _ =>
  }

  lemma RowsAfterMove(ref: Reference, clients: map<Id, Client>, w: World, m: Move, key: string)
    requires Honest(clients, w) && CanMove(clients, w, m)
    ensures |RowsWith(Moved(ref, clients, w, m).t.enrollments, key)| ==
            |RowsWith(w.t.enrollments, key)| + Takes(ref, clients, w, m, key)
  {
    match m
    case Look(_, _) =>
    case Other(s) => RowsAfterEffect(w.t, s.effect, key);
    case Transact(c, clock, commits) =>
      var d := Decided(ref, w.t, clients[c], clock);
      if d.Ok? && commits {
        DecidedSeat(ref, w.t, clients[c], clock);
        RowsAfterEffect(w.t, d.value, key);
      }
  }

  lemma {:induction false} RowsAfterRun(ref: Reference, clients: map<Id, Client>, w: World, moves: seq<Move>,
        key: string)
    requires Honest(clients, w) && CanRun(ref, clients, w, moves)
    ensures |RowsWith(After(ref, clients, w, moves).t.enrollments, key)| ==
            |RowsWith(w.t.enrollments, key)| + TakesIn(ref, clients, w, moves, key)
    decreases |moves|
  {
    if moves != [] {
      HonestMove(ref, clients, w, moves[0]);
      RowsAfterMove(ref, clients, w, moves[0], key);
      RowsAfterRun(ref, clients, Moved(ref, clients, w, moves[0]), moves[1..], key);
    }
  }

  /** Of all calls and transactions with one key at most one commits, and none when it was used before. */
  lemma KeyCommitsOnce(ref: Reference, clients: map<Id, Client>, w: World, moves: seq<Move>, key: string)
    requires Honest(clients, w) && CanRun(ref, clients, w, moves)
    ensures TakesIn(ref, clients, w, moves, key) <= 1
    ensures KeyUsed(w.t.enrollments, key) ==> TakesIn(ref, clients, w, moves, key) == 0
  {
    HonestRun(ref, clients, w, moves);
    RowsAfterRun(ref, clients, w, moves, key);
    AtMostOneRow(After(ref, clients, w, moves).t, key);
    if KeyUsed(w.t.enrollments, key) {
      assert RowWith(w.t.enrollments, key).id in RowsWith(w.t.enrollments, key);
    }
  }

  /** Once a key is used, a call with it succeeds exactly by a lookup that works and a payload that matches. */
  lemma UsedKeyAnswers(ref: Reference, t: Tables, client: Client, fails: bool, clock: EnrollClock)
    requires Seating(t) && KeyUsed(t.enrollments, client.req.key)
    ensures var row := RowWith(t.enrollments, client.req.key);
            (Looked(t, client, fails).Done? && Looked(t, client, fails).r.Ok?) <==>
              EnrollRefused(client.p, client.req).None? && !fails
              && row.studentId == client.req.studentId && row.sessionId == client.req.sessionId
    ensures Decided(ref, t, client, clock).Err?
  {
  }
}
