/**
 * What can happen only once: a row is closed, returned, joined, graded or keyed a single
 * time, and of all callers that hold one version of a row at most one succeeds.
 */
module OnceLaws {
  import opened Wrappers
  import opened Schema
  import opened Services
  import opened Runs
  import opened Calls
  import opened SeatLaws
  import opened LockLaws

  // ----- deeds

  /** What an effect uses up. */
  datatype Deed = KeyTaken(key: string) | SeatTaken(sessionId: Id, studentId: Id) | CourseClosed(id: Id)
                | LoanReturned(id: Id) | MemberJoined(enrollmentId: Id) | AssessmentGraded(id: Id)

  ghost predicate Does(e: Effect, d: Deed) {
    match e
    case Seat(row) => d == KeyTaken(row.key) || d == SeatTaken(row.sessionId, row.studentId)
    case Closing(s, _, _, _) => d == CourseClosed(s)
    case Lending(_) => false
    case Return(l, _, _) => d == LoanReturned(l)
    case Joining(_, m) => d == MemberJoined(m)
    case Publishing(a, _, _, _) => d == AssessmentGraded(a)
  }

  ghost predicate IsDone(t: Tables, d: Deed) {
    match d
    case KeyTaken(key) => KeyUsed(t.enrollments, key)
    case SeatTaken(s, student) => PairUsed(t.enrollments, s, student)
    case CourseClosed(s) => s in t.sessions && !t.sessions[s].status.Scheduled?
    case LoanReturned(l) => l in t.loans && !t.loans[l].status.Active?
    case MemberJoined(m) => m in t.members
    case AssessmentGraded(a) => a in t.assessments && !t.assessments[a].status.Submitted?
  }

  lemma KeptByInsert(rows: Enrollments, row: Enrollment, key: string, s: Id, student: Id)
    requires row.id !in rows
    ensures KeyUsed(rows[row.id := row], key) <==> KeyUsed(rows, key) || row.key == key
    ensures PairUsed(rows[row.id := row], s, student) <==>
            PairUsed(rows, s, student) || (row.sessionId == s && row.studentId == student)
  {
    var after := rows[row.id := row];
    assert after[row.id] == row;
    forall e | e in rows ensures e in after && after[e] == rows[e] {
    }
  }

  lemma KeptByClosing(rows: Enrollments, closing: Id, key: string, s: Id, student: Id)
    ensures KeyUsed(ClosedEnrollments(rows, closing), key) <==> KeyUsed(rows, key)
    ensures PairUsed(ClosedEnrollments(rows, closing), s, student) <==> PairUsed(rows, s, student)
  {
    var after := ClosedEnrollments(rows, closing);
    forall e | e in rows
      ensures e in after && after[e].key == rows[e].key
      ensures after[e].sessionId == rows[e].sessionId && after[e].studentId == rows[e].studentId
    {
    }
  }

  lemma RowsOfDeed(t: Tables, e: Effect, key: string, s: Id, student: Id)
    requires FreshIds(t) && Allowed(t, e)
    ensures KeyUsed(Apply(t, e).enrollments, key) <==> KeyUsed(t.enrollments, key) || Does(e, KeyTaken(key))
    ensures PairUsed(Apply(t, e).enrollments, s, student)
        <==> PairUsed(t.enrollments, s, student) || Does(e, SeatTaken(s, student))
  {
    match e
    case Seat(row) => KeptByInsert(t.enrollments, row, key, s, student);
    case Closing(closing, _, _, _) => KeptByClosing(t.enrollments, closing, key, s, student);
    case _ =>
  }

  lemma DeedIsNew(t: Tables, e: Effect, d: Deed)
    requires Allowed(t, e) && Does(e, d)
    ensures !IsDone(t, d)
  {
  }

  lemma CourseLasts(t: Tables, e: Effect, s: Id)
    requires Allowed(t, e) && (IsDone(t, CourseClosed(s)) || Does(e, CourseClosed(s)))
    ensures s in Apply(t, e).sessions && !Apply(t, e).sessions[s].status.Scheduled?
  {
  }

  lemma LoanLasts(t: Tables, e: Effect, l: Id)
    requires FreshIds(t) && Allowed(t, e) && (IsDone(t, LoanReturned(l)) || Does(e, LoanReturned(l)))
    ensures l in Apply(t, e).loans && !Apply(t, e).loans[l].status.Active?
  {
  }

  lemma GradeLasts(t: Tables, e: Effect, a: Id)
    requires Allowed(t, e) && (IsDone(t, AssessmentGraded(a)) || Does(e, AssessmentGraded(a)))
    ensures a in Apply(t, e).assessments && !Apply(t, e).assessments[a].status.Submitted?
  {
  }

  lemma MemberLasts(t: Tables, e: Effect, m: Id)
    requires Allowed(t, e) && (IsDone(t, MemberJoined(m)) || Does(e, MemberJoined(m)))
    ensures m in Apply(t, e).members
  {
  }

  /** What is done, or done by a step, is done after it. */
  lemma DeedLasts(t: Tables, e: Effect, d: Deed)
    requires FreshIds(t) && Allowed(t, e) && (IsDone(t, d) || Does(e, d))
    ensures IsDone(Apply(t, e), d)
  {
    match d
    case KeyTaken(key) => RowsOfDeed(t, e, key, 0, 0);
    case SeatTaken(s, student) => RowsOfDeed(t, e, "", s, student);
    case CourseClosed(s) => CourseLasts(t, e, s);
    case LoanReturned(l) => LoanLasts(t, e, l);
    case MemberJoined(m) => MemberLasts(t, e, m);
    case AssessmentGraded(a) => GradeLasts(t, e, a);
  }

  lemma DoneForGood(t: Tables, steps: seq<Step>, d: Deed)
    requires FreshIds(t) && AllowedRun(t, steps) && IsDone(t, d)
    ensures IsDone(Run(t, steps), d)
  {
    var inv := (u: Tables) => FreshIds(u) && IsDone(u, d);
    forall u: Tables, e: Effect, log: seq<AuditEvent> | inv(u) && Allowed(u, e)
      ensures inv(Apply(u, e).(audit := log))
    {
      FreshStep(u, e);
      DeedLasts(u, e, d);
    }
    RunKeeps(t, steps, inv);
  }

  /** What one committed transaction did, no later one does again, under whatever version it comes. */
  lemma NothingDoneTwice(t: Tables, steps: seq<Step>, i: nat, j: nat, d: Deed)
    requires FreshIds(t) && AllowedRun(t, steps) && i < j < |steps|
    requires Does(steps[i].effect, d)
    ensures !Does(steps[j].effect, d)
  {
    var (u, v) := (StateAt(t, steps, i), StateAt(t, steps, j));
    StepAllowed(t, steps, i);
    StepAllowed(t, steps, j);
    Segment(t, steps, i + 1, j);
    DeedLasts(u, steps[i].effect, d);
    FreshStep(u, steps[i].effect);
    DoneForGood(StateAt(t, steps, i + 1), steps[i + 1..j], d);
    if Does(steps[j].effect, d) {
      DeedIsNew(v, steps[j].effect, d);
    }
  }

  /** The k-th step is allowed where it comes, and leads to the next state. */
  lemma StepAllowed(t: Tables, steps: seq<Step>, k: nat)
    requires FreshIds(t) && AllowedRun(t, steps) && k < |steps|
    ensures FreshIds(StateAt(t, steps, k)) && Allowed(StateAt(t, steps, k), steps[k].effect)
    ensures StateAt(t, steps, k + 1) == Next(StateAt(t, steps, k), steps[k])
  {
    Segment(t, steps, k, k + 1);
    FreshRun(t, steps[..k]);
    OneStep(StateAt(t, steps, k), steps[k..k + 1]);
    assert steps[k..k + 1][0] == steps[k];
  }

  lemma OneStep(t: Tables, steps: seq<Step>)
    requires |steps| == 1 && AllowedRun(t, steps)
    ensures Allowed(t, steps[0].effect) && Run(t, steps) == Next(t, steps[0])
  {
    assert steps[1..] == [];
  }

  // ----- calls that hold a version

  /** The row and the version a call brings with it, read by its caller at some time before. */
  ghost function Held(call: Call): Option<(RowRef, int)> {
    match call
    case Cancels(_, _, sessionId, _, read, _, _, _) => Some((SessionRow(sessionId), read.version))
    case Assigns(_, _, _, groupId, expectedVersion, _) => Some((GroupRow(groupId), expectedVersion))
    case Publishes(_, _, grade, _, _, _, _) => Some((AssessmentRow(grade.assessmentId), grade.expectedVersion))
    case _ => None
  }

  /** A call that commits writes the row it holds, at the version it holds. */
  lemma CommitMeetsVersion(ref: Reference, t: Tables, a: Attempt)
    requires StepOf(ref, t, a).Some? && Held(a.call).Some?
    ensures var (r, version) := Held(a.call).value;
            Writes(t, StepOf(ref, t, a).value.effect, r) && Exists(t, r) && VersionOf(t, r) == version
  {
  }

  lemma {:induction false} CallsSplit(ref: Reference, t: Tables, a: seq<Attempt>, b: seq<Attempt>)
    ensures AfterCalls(ref, t, a + b) == AfterCalls(ref, AfterCalls(ref, t, a), b)
    decreases |a|
  {
    if a == [] {
      assert a + b == b;
    } else {
      assert (a + b)[0] == a[0] && (a + b)[1..] == a[1..] + b;
      CallsSplit(ref, AfterCall(ref, t, a[0]), a[1..], b);
    }
  }

  lemma FreshAfterCalls(ref: Reference, t: Tables, calls: seq<Attempt>)
    requires FreshIds(t)
    ensures FreshIds(AfterCalls(ref, t, calls))
  {
    CallsAreARun(ref, t, calls);
    FreshRun(t, StepsOf(ref, t, calls));
  }

  /** After a commit of the first call its row is past the version the call held. */
  lemma VersionPassed(ref: Reference, t: Tables, calls: seq<Attempt>)
    requires FreshIds(t) && calls != [] && StepOf(ref, t, calls[0]).Some? && Held(calls[0].call).Some?
    ensures var (r, version) := Held(calls[0].call).value;
            Exists(AfterCalls(ref, t, calls), r) && version < VersionOf(AfterCalls(ref, t, calls), r)
  {
    var steps := StepsOf(ref, t, calls);
    CallsAreARun(ref, t, calls);
    CommitMeetsVersion(ref, t, calls[0]);
    assert steps[0] == StepOf(ref, t, calls[0]).value;
    FirstWriteWins(t, steps, Held(calls[0].call).value.0);
  }

  /** Of any calls that hold the same version of the same row, whoever comes between, at most one commits. */
  lemma OneHolderCommits(ref: Reference, t: Tables, calls: seq<Attempt>, i: nat, j: nat)
    requires FreshIds(t) && i < j < |calls|
    requires Held(calls[i].call).Some? && Held(calls[i].call) == Held(calls[j].call)
    ensures StepOf(ref, AfterCalls(ref, t, calls[..i]), calls[i]).None?
         || StepOf(ref, AfterCalls(ref, t, calls[..j]), calls[j]).None?
  {
    var (u, v) := (AfterCalls(ref, t, calls[..i]), AfterCalls(ref, t, calls[..j]));
    if StepOf(ref, u, calls[i]).Some? {
      assert calls[..i] + calls[i..j] == calls[..j] && calls[i..j][0] == calls[i];
      CallsSplit(ref, t, calls[..i], calls[i..j]);
      FreshAfterCalls(ref, t, calls[..i]);
      VersionPassed(ref, u, calls[i..j]);
      if StepOf(ref, v, calls[j]).Some? {
        CommitMeetsVersion(ref, v, calls[j]);
      }
    }
  }

  // ----- store operations on snapshots

  /** After a reservation no other on the same snapshot version succeeds. */
  lemma OneReservationPerVersion(t: Tables, steps: seq<Step>, studentId: Id, sessionId: Id, version: int, key: string,
        at: Time,
                                 other: Id, otherKey: string, later: Time)
    requires FreshIds(t) && AllowedRun(t, steps) && steps != []
    requires Reservation(t, studentId, sessionId, version, key, at) == Ok(steps[0].effect)
    ensures Reservation(Run(t, steps), other, sessionId, version, otherKey, later) == Err(VersionConflict)
  {
    FirstWriteWins(t, steps, SessionRow(sessionId));
  }

  /** After an acquisition no other on the same snapshot version succeeds. */
  lemma OneAcquisitionPerVersion(t: Tables, steps: seq<Step>, equipmentId: Id, version: int, studentId: Id,
        sessionId: Id,
                                 actorId: Id, at: Time, other: Id, otherSession: Id, otherActor: Id, later: Time)
    requires FreshIds(t) && AllowedRun(t, steps) && steps != []
    requires Acquisition(t, equipmentId, version, studentId, sessionId, actorId, at) == Ok(steps[0].effect)
    ensures Acquisition(Run(t, steps), equipmentId, version, other, otherSession, otherActor, later)
        == Err(VersionConflict)
  {
    FirstWriteWins(t, steps, ItemRow(equipmentId));
  }
}
