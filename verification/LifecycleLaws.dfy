/**
 * The lifecycle table refined: every status any operation writes follows a declared edge,
 * and whatever reaches a terminal state stays there.
 */
module LifecycleLaws {
  import opened Schema
  import opened States
  import opened Runs
  import opened LockLaws
  import J = Jobs

  // ----- the tables of the hub

  /** From one row to the next version of it: the status stays or takes a declared edge. */
  ghost predicate Moves(machine: string, from: string, to: string) {
    from == to || ValidateTransition(machine, from, to).Ok?
  }

  ghost predicate SessionsMove(before: map<Id, Session>, after: map<Id, Session>) {
    forall i :: i in before ==> i in after && Moves("course", CourseText(before[i].status), CourseText(after[i].status))
  }

  ghost predicate EnrollmentsMove(before: map<Id, Enrollment>, after: map<Id, Enrollment>) {
    && (forall i :: i in before ==>
          i in after && Moves("enrollment", EnrollmentText(before[i].status), EnrollmentText(after[i].status)))
    && (forall i :: i in after && i !in before ==> after[i].status.Confirmed?)
  }

  ghost predicate AssessmentsMove(before: map<Id, Assessment>, after: map<Id, Assessment>) {
    forall i :: i in before ==>
      i in after && Moves("assessment", AssessmentText(before[i].status), AssessmentText(after[i].status))
  }

  ghost predicate ItemsMove(before: map<Id, Equipment>, after: map<Id, Equipment>) {
    forall i :: i in before ==>
      i in after && Moves("equipment", EquipmentText(before[i].status), EquipmentText(after[i].status))
  }

  ghost predicate LoansMove(before: map<Id, Loan>, after: map<Id, Loan>) {
    && (forall i :: i in before ==> i in after && Moves("loan", LoanText(before[i].status), LoanText(after[i].status)))
    && (forall i :: i in after && i !in before ==> after[i].status.Active?)
  }

  ghost predicate TablesMove(t: Tables, u: Tables) {
    && SessionsMove(t.sessions, u.sessions) && EnrollmentsMove(t.enrollments, u.enrollments)
    && AssessmentsMove(t.assessments, u.assessments)
    && ItemsMove(t.equipment, u.equipment) && LoansMove(t.loans, u.loans)
  }

  lemma SessionsStep(t: Tables, e: Effect)
    requires Allowed(t, e)
    ensures SessionsMove(t.sessions, Apply(t, e).sessions)
  {
    CourseEdgesAreDeclared(Scheduled, Canceled);
  }

  lemma ClosedEnrollmentsMove(rows: map<Id, Enrollment>, s: Id)
    ensures EnrollmentsMove(rows, ClosedEnrollments(rows, s))
  {
    EnrollmentEdgesAreDeclared(Confirmed, MakeupDue);
    var after := ClosedEnrollments(rows, s);
    forall i | i in rows
      ensures after[i].status == rows[i].status || (rows[i].status.Confirmed? && after[i].status.MakeupDue?)
    {
      assert i in ConfirmedOf(rows, s) ==> rows[i].status.Confirmed?;
    }
  }

  lemma NewEnrollmentMoves(rows: map<Id, Enrollment>, row: Enrollment)
    requires row.id !in rows && row.status.Confirmed?
    ensures EnrollmentsMove(rows, rows[row.id := row])
  {
  }

  lemma EnrollmentsStep(t: Tables, e: Effect)
    requires FreshIds(t) && Allowed(t, e)
    ensures EnrollmentsMove(t.enrollments, Apply(t, e).enrollments)
  {
    match e
    case Seat(row) => NewEnrollmentMoves(t.enrollments, row);
    case Closing(s, _, _, _) => ClosedEnrollmentsMove(t.enrollments, s);
    case _ =>
  }

  lemma AssessmentsStep(t: Tables, e: Effect)
    requires Allowed(t, e)
    ensures AssessmentsMove(t.assessments, Apply(t, e).assessments)
  {
    AssessmentEdgesAreDeclared(Submitted, Passed);
    AssessmentEdgesAreDeclared(Submitted, AssessmentFailed);
  }

  lemma ItemsStep(t: Tables, e: Effect)
    requires Allowed(t, e)
    ensures ItemsMove(t.equipment, Apply(t, e).equipment)
  {
    EquipmentEdgesAreDeclared(Available, CheckedOut);
    EquipmentEdgesAreDeclared(CheckedOut, Available);
    EquipmentEdgesAreDeclared(CheckedOut, Isolated);
  }

  lemma LoansStep(t: Tables, e: Effect)
    requires FreshIds(t) && Allowed(t, e)
    ensures LoansMove(t.loans, Apply(t, e).loans)
  {
    LoanEdgesAreDeclared(Active, Returned);
    LoanEdgesAreDeclared(Active, Damaged);
  }

  /** Every status change between two neighbouring states of any run is a declared edge. */
  lemma {:induction false} EveryChangeIsDeclared(t: Tables, steps: seq<Step>, k: nat)
    requires FreshIds(t) && AllowedRun(t, steps) && k < |steps|
    ensures TablesMove(StateAt(t, steps, k), StateAt(t, steps, k + 1))
  {
    var u := StateAt(t, steps, k);
    Segment(t, steps, k, k + 1);
    FreshRun(t, steps[..k]);
    assert steps[k..k + 1] == [steps[k]];
    OneStepMoves(u, steps[k], steps[k..k + 1]);
  }

  lemma OneStepMoves(t: Tables, s: Step, steps: seq<Step>)
    requires FreshIds(t) && steps == [s] && AllowedRun(t, steps)
    ensures TablesMove(t, Run(t, steps))
  {
    assert Run(t, steps) == Run(Next(t, s), steps[1..]) == Next(t, s);
    SessionsStep(t, s.effect);
    EnrollmentsStep(t, s.effect);
    AssessmentsStep(t, s.effect);
    ItemsStep(t, s.effect);
    LoansStep(t, s.effect);
  }

  // ----- terminal states

  /** Rows in a terminal state are not written at all. */
  ghost predicate TerminalsRest(t0: Tables, t: Tables) {
    && (forall i :: i in t0.sessions && IsTerminal("course", CourseText(t0.sessions[i].status)) ==>
          i in t.sessions && t.sessions[i] == t0.sessions[i])
    && (forall i :: i in t0.assessments && IsTerminal("assessment", AssessmentText(t0.assessments[i].status)) ==>
          i in t.assessments && t.assessments[i] == t0.assessments[i])
  }

  lemma TerminalTexts(c: CourseStatus, a: AssessmentStatus)
    ensures IsTerminal("course", CourseText(c)) <==> c.Completed? || c.Canceled?
    ensures IsTerminal("assessment", AssessmentText(a)) <==> a.Passed?
  {
  }

  lemma RestStep(t0: Tables, t: Tables, e: Effect)
    requires TerminalsRest(t0, t) && Allowed(t, e)
    ensures TerminalsRest(t0, Apply(t, e))
  {
    forall c: CourseStatus, a: AssessmentStatus
      ensures IsTerminal("course", CourseText(c)) <==> c.Completed? || c.Canceled?
      ensures IsTerminal("assessment", AssessmentText(a)) <==> a.Passed?
    {
      TerminalTexts(c, a);
    }
  }

  /** A course or an assessment that has ended stays as it ended for the rest of every run. */
  lemma TerminalRowsRest(t: Tables, steps: seq<Step>)
    requires AllowedRun(t, steps)
    ensures TerminalsRest(t, Run(t, steps))
  {
    var inv := (u: Tables) => TerminalsRest(t, u);
    forall u: Tables, e: Effect, log: seq<AuditEvent> | inv(u) && Allowed(u, e)
      ensures inv(Apply(u, e).(audit := log))
    {
      RestStep(t, u, e);
    }
    RunKeeps(t, steps, inv);
  }

  // ----- jobs

  function JobText(s: J.JobStatus): string {
    match s
    case Pending => "pending"
    case Running => "running"
    case Retry => "retry"
    case Succeeded => "succeeded"
    case Failed => "failed"
  }

  predicate JobEdge(from: J.JobStatus, to: J.JobStatus) {
    || ((from.Pending? || from.Retry?) && to.Running?)
    || (from.Running? && (to.Succeeded? || to.Retry? || to.Failed?))
  }

  lemma JobEdgesAreDeclared(from: J.JobStatus, to: J.JobStatus)
    ensures JobEdge(from, to) <==> ValidateTransition("job", JobText(from), JobText(to)).Ok?
  {
    AcceptedIsDeclared("job", JobText(from), JobText(to));
  }

  ghost predicate JobsMove(before: map<J.Id, J.Job>, after: map<J.Id, J.Job>) {
    && (forall i :: i in before ==> i in after && Moves("job", JobText(before[i].status), JobText(after[i].status)))
    && (forall i :: i in after && i !in before ==> after[i].status.Pending?)
  }

  lemma ClaimedWasWaiting(q: J.Queue, limit: int, now: J.Calendar.Instant, i: J.Id)
    requires q.Valid() && now.Valid() && i in J.Batch(q, limit, now)
    ensures i in q.rows && q.rows[i].Waiting()
  {
  }

  /** No statement of the job store, recovery included, leaves the declared table. */
  lemma EveryJobChangeIsDeclared(q: J.Queue, act: J.Act)
    requires q.Valid() && act.Valid()
    ensures JobsMove(q.rows, J.Next(q, act).rows)
  {
    var after := J.Next(q, act).rows;
    forall i | i in q.rows ensures after[i].status == q.rows[i].status || JobEdge(q.rows[i].status, after[i].status) {
      if act.Claim? && i in J.Batch(q, act.limit, act.now) {
        ClaimedWasWaiting(q, act.limit, act.now, i);
      }
    }
    forall i | i in q.rows ensures Moves("job", JobText(q.rows[i].status), JobText(after[i].status)) {
      JobEdgesAreDeclared(q.rows[i].status, after[i].status);
    }
  }

  lemma TerminalJobStep(q: J.Queue, act: J.Act, i: J.Id)
    requires q.Valid() && act.Valid() && i in q.rows && IsTerminal("job", JobText(q.rows[i].status))
    ensures J.Next(q, act).rows[i] == q.rows[i]
  {
    assert q.rows[i].status.Succeeded? || q.rows[i].status.Failed?;
    if act.Claim? && i in J.Batch(q, act.limit, act.now) {
      ClaimedWasWaiting(q, act.limit, act.now, i);
    }
  }

  /** A job that succeeded or failed is never touched again, not even by recovery. */
  lemma {:induction false} TerminalJobsRest(q: J.Queue, acts: seq<J.Act>, i: J.Id)
    requires q.Valid() && J.ValidActs(acts) && i in q.rows && IsTerminal("job", JobText(q.rows[i].status))
    ensures i in J.Run(q, acts).rows && J.Run(q, acts).rows[i] == q.rows[i]
    decreases |acts|
  {
    if acts != [] {
      TerminalJobStep(q, acts[0], i);
      TerminalJobsRest(J.Next(q, acts[0]), acts[1..], i);
    }
  }
}
