/**
 * Optimistic locks: along any run, the same id and version mean the same row, however old
 * the snapshot, and of all writers holding one version at most one succeeds.
 */
module LockLaws {
  import opened Schema
  import opened Runs

  function SessionVersion(r: Session): int { r.version }
  function EnrollmentVersion(r: Enrollment): int { r.version }
  function GroupVersion(r: Group): int { r.version }
  function AssessmentVersion(r: Assessment): int { r.version }
  function ItemVersion(r: Equipment): int { r.version }
  function LoanVersion(r: Loan): int { r.version }

  /** No row goes, no version falls, and a row that keeps its version is unchanged. */
  ghost predicate Advances<R>(before: map<Id, R>, after: map<Id, R>, version: R -> int) {
    forall i :: i in before ==>
      && i in after && version(before[i]) <= version(after[i])
      && (version(before[i]) == version(after[i]) ==> before[i] == after[i])
  }

  ghost predicate Locked(t0: Tables, t: Tables) {
    && Advances(t0.sessions, t.sessions, SessionVersion)
    && Advances(t0.enrollments, t.enrollments, EnrollmentVersion)
    && Advances(t0.groups, t.groups, GroupVersion)
    && Advances(t0.assessments, t.assessments, AssessmentVersion)
    && Advances(t0.equipment, t.equipment, ItemVersion)
    && Advances(t0.loans, t.loans, LoanVersion)
  }

  lemma AdvancesByUpdate<R>(before: map<Id, R>, after: map<Id, R>, version: R -> int, i: Id, row: R)
    requires Advances(before, after, version)
    requires i in before ==> i in after && version(after[i]) < version(row)
    ensures Advances(before, after[i := row], version)
  {
  }

  lemma AdvancesByClosing(before: map<Id, Enrollment>, after: map<Id, Enrollment>, sessionId: Id)
    requires Advances(before, after, EnrollmentVersion)
    ensures Advances(before, ClosedEnrollments(after, sessionId), EnrollmentVersion)
  {
    forall i | i in before
      ensures var row := ClosedEnrollments(after, sessionId)[i];
              row == after[i] || row.version == after[i].version + 1
    {
    }
  }

  /** Row ids come from counters, so a new row never replaces an old one. */
  ghost predicate FreshIds(t: Tables) {
    && (forall e :: e in t.enrollments ==> e < t.nextEnrollment)
    && (forall l :: l in t.loans ==> l < t.nextLoan)
  }

  lemma FreshStep(t: Tables, e: Effect)
    requires FreshIds(t) && Allowed(t, e)
    ensures FreshIds(Apply(t, e))
  {
  }

  lemma LockedStep(t0: Tables, t: Tables, e: Effect)
    requires Locked(t0, t) && FreshIds(t) && Allowed(t, e)
    ensures Locked(t0, Apply(t, e))
  {
    match e
    case Seat(row) =>
      AdvancesByUpdate(t0.sessions, t.sessions, SessionVersion, row.sessionId,
        SeatedSession(t.sessions[row.sessionId]));
      assert row.id !in t.enrollments;
      AdvancesByUpdate(t0.enrollments, t.enrollments, EnrollmentVersion, row.id, row);
    case Closing(s, reason, _, _) =>
      AdvancesByUpdate(t0.sessions, t.sessions, SessionVersion, s, ClosedSession(t.sessions[s], reason));
      AdvancesByClosing(t0.enrollments, t.enrollments, s);
    case Lending(loan) =>
      AdvancesByUpdate(t0.equipment, t.equipment, ItemVersion, loan.equipmentId,
        Apply(t, e).equipment[loan.equipmentId]);
      assert loan.id !in t.loans;
      AdvancesByUpdate(t0.loans, t.loans, LoanVersion, loan.id, loan);
    case Return(l, damage, at) =>
      var i := t.loans[l].equipmentId;
      AdvancesByUpdate(t0.loans, t.loans, LoanVersion, l, ClosedLoan(t.loans[l], damage.Some?, at));
      AdvancesByUpdate(t0.equipment, t.equipment, ItemVersion, i, Apply(t, e).equipment[i]);
    case Joining(g, _) =>
      AdvancesByUpdate(t0.groups, t.groups, GroupVersion, g, Apply(t, e).groups[g]);
    case Publishing(a, score, notes, _) =>
      AdvancesByUpdate(t0.assessments, t.assessments, AssessmentVersion, a,
        PublishedAssessment(t.assessments[a], score, notes));
  }

  /**
   * A snapshot taken at `t` is still exact after any run if its version is: a conditional
   * write that finds the version therefore acts on the row that was validated.
   */
  lemma {:induction false} SameVersionSameRow(t: Tables, steps: seq<Step>)
    requires FreshIds(t) && AllowedRun(t, steps)
    ensures Locked(t, Run(t, steps))
  {
    var inv := (u: Tables) => Locked(t, u) && FreshIds(u);
    forall u: Tables, e: Effect, log: seq<AuditEvent> | inv(u) && Allowed(u, e)
      ensures inv(Apply(u, e).(audit := log))
    {
      LockedStep(t, u, e);
      FreshStep(u, e);
    }
    RunKeeps(t, steps, inv);
  }

  // ----- one winner

  datatype RowRef = SessionRow(id: Id) | ItemRow(id: Id) | GroupRow(id: Id) | AssessmentRow(id: Id) | LoanRow(id: Id)

  ghost predicate Exists(t: Tables, r: RowRef) {
    match r
    case SessionRow(i) => i in t.sessions
    case ItemRow(i) => i in t.equipment
    case GroupRow(i) => i in t.groups
    case AssessmentRow(i) => i in t.assessments
    case LoanRow(i) => i in t.loans
  }

  ghost function VersionOf(t: Tables, r: RowRef): int
    requires Exists(t, r)
  {
    match r
    case SessionRow(i) => t.sessions[i].version
    case ItemRow(i) => t.equipment[i].version
    case GroupRow(i) => t.groups[i].version
    case AssessmentRow(i) => t.assessments[i].version
    case LoanRow(i) => t.loans[i].version
  }

  /** The rows an effect writes under a version condition. */
  ghost predicate Writes(t: Tables, e: Effect, r: RowRef) {
    match e
    case Seat(row) => r == SessionRow(row.sessionId)
    case Closing(s, _, _, _) => r == SessionRow(s)
    case Lending(loan) => r == ItemRow(loan.equipmentId)
    case Return(l, _, _) => r == LoanRow(l) || (l in t.loans && r == ItemRow(t.loans[l].equipmentId))
    case Joining(g, _) => r == GroupRow(g)
    case Publishing(a, _, _, _) => r == AssessmentRow(a)
  }

  lemma WriteRaisesVersion(t: Tables, e: Effect, r: RowRef)
    requires Allowed(t, e) && Writes(t, e, r)
    ensures Exists(t, r) && Exists(Apply(t, e), r) && VersionOf(Apply(t, e), r) == VersionOf(t, r) + 1
  {
  }

  /** The tables the k-th step of a run meets. */
  ghost function StateAt(t: Tables, steps: seq<Step>, k: nat): Tables
    requires AllowedRun(t, steps) && k <= |steps|
  {
    assert steps[..k] + steps[k..] == steps;
    RunSplit(t, steps[..k], steps[k..]);
    Run(t, steps[..k])
  }

  lemma FreshRun(t: Tables, steps: seq<Step>)
    requires FreshIds(t) && AllowedRun(t, steps)
    ensures FreshIds(Run(t, steps))
  {
    var inv := (u: Tables) => FreshIds(u);
    forall u: Tables, e: Effect, log: seq<AuditEvent> | inv(u) && Allowed(u, e)
      ensures inv(Apply(u, e).(audit := log))
    {
      FreshStep(u, e);
    }
    RunKeeps(t, steps, inv);
  }

  lemma FirstWriteWins(t: Tables, steps: seq<Step>, r: RowRef)
    requires FreshIds(t) && AllowedRun(t, steps) && steps != []
    requires Writes(t, steps[0].effect, r)
    ensures Exists(t, r) && Exists(Run(t, steps), r) && VersionOf(t, r) < VersionOf(Run(t, steps), r)
  {
    var t' := Next(t, steps[0]);
    FreshStep(t, steps[0].effect);
    WriteRaisesVersion(t, steps[0].effect, r);
    SameVersionSameRow(t', steps[1..]);
  }

  /** Two committed writes to one row never met the same version of it. */
  lemma OneWinnerPerVersion(t: Tables, steps: seq<Step>, i: nat, j: nat, r: RowRef)
    requires FreshIds(t) && AllowedRun(t, steps) && i < j < |steps|
    requires Writes(StateAt(t, steps, i), steps[i].effect, r)
    ensures Exists(StateAt(t, steps, i), r) && Exists(StateAt(t, steps, j), r)
    ensures VersionOf(StateAt(t, steps, i), r) < VersionOf(StateAt(t, steps, j), r)
  {
    var (u, between) := (StateAt(t, steps, i), steps[i..j]);
    Segment(t, steps, i, j);
    FreshRun(t, steps[..i]);
    FirstWriteWins(u, between, r);
  }

  lemma Segment(t: Tables, steps: seq<Step>, i: nat, j: nat)
    requires AllowedRun(t, steps) && i <= j <= |steps|
    ensures AllowedRun(t, steps[..i])
    ensures AllowedRun(StateAt(t, steps, i), steps[i..j])
        && Run(StateAt(t, steps, i), steps[i..j]) == StateAt(t, steps, j)
  {
    assert steps[..j] + steps[j..] == steps;
    RunSplit(t, steps[..j], steps[j..]);
    assert steps[..i] + steps[i..j] == steps[..j];
    RunSplit(t, steps[..i], steps[i..j]);
  }
}
