/**
 * Exactly when each operation succeeds: the guards, the version conditions and the unique
 * indexes of a transaction, put together, against a plain statement of what is needed.
 */
module Outcomes {
  import opened Wrappers
  import opened States
  import opened Schema
  import opened Services
  import opened Runs
  import opened Needs
  import opened SeatLaws
  import opened CustodyLaws
  import opened LockLaws

  // ----- enrollment

  /** The seat as it was asked for. */
  function AskedSeat(t: Tables, req: EnrollRequest, at: Time): Effect {
    Seat(Enrollment(t.nextEnrollment, req.sessionId, req.studentId, Confirmed, req.key, 1, at))
  }

  /** No row has the key, and none has the session and the student. */
  ghost predicate Unused(rows: map<Id, Enrollment>, req: EnrollRequest) {
    forall e :: e in rows ==>
      rows[e].key != req.key && (rows[e].sessionId != req.sessionId || rows[e].studentId != req.studentId)
  }

  /** A transaction whose guards found this unmet. */
  lemma {:induction false} EnrollingBy(ref: Reference, t: Tables, requestId: string, req: EnrollRequest,
        clock: EnrollClock, unmet: Option<HubError>)
    requires Found(ref, t, req.studentId, req.sessionId)
    requires unmet == Ineligible(SnapshotOf(ref, t, req.studentId, req.sessionId, clock.snapshotAt).value, clock.openAt)
    ensures Enrolling(ref, t, requestId, req, clock) ==
      if unmet.Some? then Err(unmet.value)
      else if !t.sessions[req.sessionId].status.Scheduled?
              || t.sessions[req.sessionId].enrolled >= t.sessions[req.sessionId].capacity then Err(VersionConflict)
      else if !Unused(t.enrollments, req) then Err(InsertFailed)
      else if !AuditAccepts(requestId, t.nextEnrollment) then Err(InvalidAudit)
      else Ok(AskedSeat(t, req, clock.storedAt))
  {
  }

  /**
   * What an enrollment's transaction comes to: each refusal exactly at the first need not
   * met, a conflict exactly on a full session, else the seat as it was asked for.
   */
  lemma {:induction false} EnrollsExactlyWhen(ref: Reference, t: Tables, requestId: string, req: EnrollRequest,
        clock: EnrollClock)
    ensures
      var found := Found(ref, t, req.studentId, req.sessionId);
      var inTime := found && OpenFor(t.sessions[req.sessionId], clock.openAt);
      var oldEnough := inTime && OldEnough(ref, t, req);
      var consenting := oldEnough && Consenting(ref, t, req, clock);
      var prepared := consenting && Prepared(ref, t.certs, req.studentId, t.sessions[req.sessionId]);
      var eligible := prepared && Coached(ref, t, req.sessionId);
      var free := eligible && t.sessions[req.sessionId].enrolled < t.sessions[req.sessionId].capacity;
      var unused := free && Unused(t.enrollments, req);
      match Enrolling(ref, t, requestId, req, clock)
      case Err(TargetNotFound) => !found
      case Err(SessionClosed) => found && !inTime
      case Err(MinimumAgeNotMet) => inTime && !oldEnough
      case Err(ConsentRequired) => oldEnough && !consenting
      case Err(PrerequisiteMissing) => consenting && !prepared
      case Err(CoachUnqualified) => prepared && !eligible
      case Err(VersionConflict) => eligible && !free
      case Err(InsertFailed) => free && !unused
      case Err(InvalidAudit) => unused && !Traceable(requestId, t.nextEnrollment)
      case Err(_) => false
      case Ok(effect) =>
        unused && Traceable(requestId, t.nextEnrollment) && effect == AskedSeat(t, req, clock.storedAt)
  {
    AcceptedIsTraceable(requestId, t.nextEnrollment);
    if Found(ref, t, req.studentId, req.sessionId) {
      FirstUnmet(ref, t, req, clock);
      EnrollingBy(ref, t, requestId, req, clock,
        Ineligible(SnapshotOf(ref, t, req.studentId, req.sessionId, clock.snapshotAt).value, clock.openAt));
    }
  }

  /** A reservation on a snapshot of any age commits only on the very row that was read. */
  lemma StaleReservation(t0: Tables, steps: seq<Step>, studentId: Id, sessionId: Id, key: string, at: Time)
    requires FreshIds(t0) && AllowedRun(t0, steps) && sessionId in t0.sessions
    ensures var (t, read) := (Run(t0, steps), t0.sessions[sessionId]);
            && sessionId in t.sessions
            && (Reservation(t, studentId, sessionId, read.version, key, at).Ok? <==>
                  && t.sessions[sessionId] == read && read.status.Scheduled? && read.enrolled < read.capacity
                  && !KeyUsed(t.enrollments, key) && !PairUsed(t.enrollments, sessionId, studentId))
  {
    SameVersionSameRow(t0, steps);
  }

  // ----- cancellation

  /**
   * What a cancellation with a row read before comes to: it commits exactly when the session
   * is scheduled and still at the version that was read.
   */
  lemma CancelsExactlyWhen(t: Tables, requestId: string, sessionId: Id, reason: string, read: Session, expiry: Time,
        at: Time)
    ensures
      var current := sessionId in t.sessions && t.sessions[sessionId].status.Scheduled?
                     && t.sessions[sessionId].version == read.version;
      match Canceling(t, requestId, sessionId, reason, read, expiry, at)
      case Err(TransitionRefused(UnchangedState)) => read.status.Canceled?
      case Err(TransitionRefused(IllegalTransition)) => read.status.Completed?
      case Err(VersionConflict) => (read.status.Scheduled? || read.status.InProgress?) && !current
      case Err(InvalidAudit) =>
        (read.status.Scheduled? || read.status.InProgress?) && current && !Traceable(requestId, sessionId)
      case Err(_) => false
      case Ok(effect) =>
        && (read.status.Scheduled? || read.status.InProgress?) && current && Traceable(requestId, sessionId)
        && effect == Closing(sessionId, TrimSpace(reason), expiry, at)
  {
    AcceptedIsTraceable(requestId, sessionId);
  }

  /**
   * A cancellation that validated an old row commits exactly when that row still stands and
   * is scheduled: an in-progress course passes the transition table and never the update.
   */
  lemma StaleCancellation(t0: Tables, steps: seq<Step>, requestId: string, sessionId: Id, reason: string,
        expiry: Time, at: Time)
    requires FreshIds(t0) && AllowedRun(t0, steps) && sessionId in t0.sessions
    ensures var (t, read) := (Run(t0, steps), t0.sessions[sessionId]);
            && sessionId in t.sessions
            && (Canceling(t, requestId, sessionId, reason, read, expiry, at).Ok? <==>
                  t.sessions[sessionId] == read && read.status.Scheduled? && AuditAccepts(requestId, sessionId))
  {
    SameVersionSameRow(t0, steps);
  }

  /** The declared edges allow what the update refuses: in-progress courses cannot be canceled. */
  lemma InProgressNeverCanceled(t: Tables, requestId: string, sessionId: Id, reason: string, expiry: Time, at: Time)
    requires sessionId in t.sessions && t.sessions[sessionId].status.InProgress?
    ensures ValidateTransition("course", CourseText(InProgress), CourseText(Canceled)).Ok?
    ensures Canceling(t, requestId, sessionId, reason, t.sessions[sessionId], expiry, at) == Err(VersionConflict)
  {
    CourseEdgesAreDeclared(InProgress, Canceled);
  }

  // ----- custody

  /** A pair of shoes fits by shoe size, anything else by helmet size. */
  ghost predicate Fits(item: Equipment, student: Student) {
    if item.kind == Shoes then item.size == student.shoeSize else item.size == student.helmetSize
  }

  lemma OnePair(rows: map<Id, Enrollment>, e: Id, f: Id)
    requires Unique(rows) && e in rows && f in rows
    requires rows[e].sessionId == rows[f].sessionId && rows[e].studentId == rows[f].studentId
    ensures e == f
  {
  }

  /** At most one enrollment of a student in a session, so counting one is finding one. */
  lemma EnrolledIsSeated(t: Tables, studentId: Id, sessionId: Id)
    requires Seating(t)
    ensures IsEnrolled(t.enrollments, studentId, sessionId) <==> Seated(t, studentId, sessionId)
  {
    var rows := ConfirmedRows(t.enrollments, studentId, sessionId);
    if Seated(t, studentId, sessionId) {
      var e :| e in t.enrollments && t.enrollments[e].studentId == studentId
               && t.enrollments[e].sessionId == sessionId && t.enrollments[e].status.Confirmed?;
      forall f | f in rows ensures f == e {
        OnePair(t.enrollments, e, f);
      }
      assert rows == {e};
    } else {
      forall e ensures e !in rows {
      }
      assert rows == {};
    }
  }

  /**
   * What a checkout comes to while seats and custody agree: each refusal exactly at the first
   * need not met, and for a free, inspected, fitting item and a seated student the loan as it
   * was asked for. Neither the version nor the active-loan index ever refuses.
   */
  lemma ChecksOutExactlyWhen(ref: Reference, t: Tables, p: Principal, requestId: string,
                             equipmentId: Id, studentId: Id, sessionId: Id, now: Time, at: Time)
    requires Seating(t) && Custody(t)
    ensures
      var found := equipmentId in t.equipment && Found(ref, t, studentId, sessionId);
      var available := found && t.equipment[equipmentId].status.Available?;
      var inspected := available && Inspected(ref, equipmentId, now);
      var seated := inspected && Seated(t, studentId, sessionId);
      var suited := seated && t.equipment[equipmentId].sport == ref.templates[t.sessions[sessionId].templateId].sport;
      var fitting := suited && Fits(t.equipment[equipmentId], ref.students[studentId]);
      match CheckingOut(ref, t, p, requestId, equipmentId, studentId, sessionId, now, at)
      case Err(TargetNotFound) => !found
      case Err(EquipmentUnavailable) => found && !available
      case Err(InspectionExpired) => available && !inspected
      case Err(StudentNotEnrolled) => inspected && !seated
      case Err(SportMismatch) => seated && !suited
      case Err(FitMismatch) => suited && !fitting
      case Err(InvalidAudit) => fitting && !Traceable(requestId, equipmentId)
      case Err(_) => false
      case Ok(effect) =>
        && fitting && Traceable(requestId, equipmentId)
        && effect == Lending(Loan(t.nextLoan, equipmentId, studentId, sessionId, p.accountId, Active, at, None, 1))
  {
    AcceptedIsTraceable(requestId, equipmentId);
    EnrolledIsSeated(t, studentId, sessionId);
    if equipmentId in t.equipment && t.equipment[equipmentId].status.Available? {
      FreeItemHasNoLoan(t, equipmentId);
    }
  }

  lemma FreeItemHasNoLoan(t: Tables, i: Id)
    requires Custody(t) && i in t.equipment && t.equipment[i].status.Available?
    ensures ActiveLoans(t.loans, i) == {}
  {
    assert |ActiveLoans(t.loans, i)| == 0;
  }

  /** A checkout on an item row of any age commits exactly when that very row still stands and is free. */
  lemma StaleAcquisition(t0: Tables, steps: seq<Step>, equipmentId: Id, studentId: Id, sessionId: Id, actorId: Id,
        at: Time)
    requires Custody(t0) && FreshIds(t0) && AllowedRun(t0, steps) && equipmentId in t0.equipment
    ensures var (t, read) := (Run(t0, steps), t0.equipment[equipmentId]);
            && equipmentId in t.equipment
            && (Acquisition(t, equipmentId, read.version, studentId, sessionId, actorId, at).Ok? <==>
                  t.equipment[equipmentId] == read && read.status.Available?)
  {
    SameVersionSameRow(t0, steps);
    CustodyConserved(t0, steps);
    if Run(t0, steps).equipment[equipmentId].status.Available? {
      FreeItemHasNoLoan(Run(t0, steps), equipmentId);
    }
  }

  /**
   * What a return comes to while custody agrees: it commits exactly on an active loan, with
   * the case it asks for, and no update ever misses its row.
   */
  lemma ReturnsExactlyWhen(t: Tables, p: Principal, requestId: string, req: ReturnRequest, at: Time)
    requires Custody(t)
    ensures
      var found := req.loanId in t.loans;
      match Returning(t, p, requestId, req, at)
      case Err(LoanNotFound) => !found
      case Err(TransitionRefused(UnchangedState)) =>
        found && t.loans[req.loanId].status == (if req.damaged then Damaged else Returned)
      case Err(TransitionRefused(IllegalTransition)) =>
        found && t.loans[req.loanId].status == (if req.damaged then Returned else Damaged)
      case Err(InvalidAudit) =>
        found && t.loans[req.loanId].status.Active? && !Traceable(requestId, t.loans[req.loanId].equipmentId)
      case Err(_) => false
      case Ok(effect) =>
        && found && t.loans[req.loanId].status.Active? && Traceable(requestId, t.loans[req.loanId].equipmentId)
        && effect == Effect.Return(req.loanId,
             if req.damaged
             then Some(Case(t.nextCase, t.loans[req.loanId].equipmentId, Some(req.loanId), p.accountId,
                            req.damageCode, req.responsibility, req.notes, at))
             else None, at)
  {
    if req.loanId in t.loans {
      AcceptedIsTraceable(requestId, t.loans[req.loanId].equipmentId);
      if t.loans[req.loanId].status.Active? {
        ActiveLoanHoldsItsItem(t, req.loanId);
      }
    }
  }

  /** While a loan stays active, nobody writes it or the row of its item. */
  ghost predicate Held(t0: Tables, t: Tables, l: Id)
    requires l in t0.loans && t0.loans[l].equipmentId in t0.equipment
  {
    var i := t0.loans[l].equipmentId;
    && l in t.loans && t.loans[l].equipmentId == i && i in t.equipment
    && t0.loans[l].version <= t.loans[l].version
    && (t.loans[l].status.Active? ==> t.loans[l] == t0.loans[l] && t.equipment[i] == t0.equipment[i])
    && (!t.loans[l].status.Active? ==> t0.loans[l].version < t.loans[l].version)
  }

  lemma HeldStep(t0: Tables, t: Tables, e: Effect, l: Id)
    requires l in t0.loans && t0.loans[l].equipmentId in t0.equipment
    requires Custody(t) && Held(t0, t, l) && Allowed(t, e)
    ensures Held(t0, Apply(t, e), l)
  {
    if t.loans[l].status.Active? {
      ActiveLoanHoldsItsItem(t, l);
    }
    match e
    case Return(k, _, _) =>
      if t.loans[l].status.Active? && t.loans[k].equipmentId == t.loans[l].equipmentId {
        assert k in ActiveLoans(t.loans, t.loans[l].equipmentId);
      }
    case _ =>
  }

  lemma HeldRun(t: Tables, steps: seq<Step>, l: Id)
    requires Custody(t) && AllowedRun(t, steps) && l in t.loans && t.loans[l].status.Active?
    ensures Custody(Run(t, steps)) && Held(t, Run(t, steps), l)
  {
    var inv := (u: Tables) => Custody(u) && Held(t, u, l);
    forall u: Tables, e: Effect, log: seq<AuditEvent> | inv(u) && Allowed(u, e)
      ensures inv(Apply(u, e).(audit := log))
    {
      CustodyStep(u, e);
      HeldStep(t, u, e, l);
    }
    RunKeeps(t, steps, inv);
  }

  /**
   * A return on loan and item rows of any age, read together while the loan was active,
   * commits exactly when the loan is active still: the second version never conflicts alone.
   */
  lemma StaleReturn(t0: Tables, steps: seq<Step>, req: ReturnRequest, actorId: Id, at: Time)
    requires Custody(t0) && AllowedRun(t0, steps) && req.loanId in t0.loans && t0.loans[req.loanId].status.Active?
    ensures var (t, loan) := (Run(t0, steps), t0.loans[req.loanId]);
            && req.loanId in t.loans
            && (Completion(t, req, loan.version, t0.equipment[loan.equipmentId].version, actorId, at).Ok? <==>
                  t.loans[req.loanId].status.Active?)
  {
    HeldRun(t0, steps, req.loanId);
    if Run(t0, steps).loans[req.loanId].status.Active? {
      ActiveLoanHoldsItsItem(Run(t0, steps), req.loanId);
    }
  }

  // ----- groups and assessments

  /** What an assignment comes to: each refusal exactly at the first need not met. */
  lemma AssignsExactlyWhen(ref: Reference, t: Tables, p: Principal, requestId: string, enrollmentId: Id,
        groupId: Id, expectedVersion: int)
    ensures
      var allowed := p.role.CoachRole? || p.role.AdministratorRole?;
      var found := allowed && groupId in t.groups && t.groups[groupId].coachId in ref.coachAccounts;
      var known := found && enrollmentId in t.enrollments;
      var matching := known && t.enrollments[enrollmentId].status.Confirmed?
                      && t.enrollments[enrollmentId].sessionId == t.groups[groupId].sessionId;
      var own := matching
                 && (p.role.AdministratorRole? || ref.coachAccounts[t.groups[groupId].coachId] == p.accountId);
      var room := own && |(set e | e in t.members && t.members[e] == groupId)| < t.groups[groupId].capacity;
      var current := room && t.groups[groupId].version == expectedVersion;
      var single := current && enrollmentId !in t.members;
      match Assigning(ref, t, p, requestId, enrollmentId, groupId, expectedVersion)
      case Err(AssignmentForbidden) => !allowed
      case Err(GroupNotFound) => allowed && !found
      case Err(EnrollmentNotFound) => found && !known
      case Err(GroupMismatch) => known && !matching
      case Err(CoachGroupMismatch) => matching && !own
      case Err(GroupFull) => own && !room
      case Err(VersionConflict) => room && !current
      case Err(InsertFailed) => current && !single
      case Err(InvalidAudit) => single && !Traceable(requestId, groupId)
      case Err(_) => false
      case Ok(effect) => single && Traceable(requestId, groupId) && effect == Joining(groupId, enrollmentId)
  {
    AcceptedIsTraceable(requestId, groupId);
    assert MembersOf(t.members, groupId) == (set e | e in t.members && t.members[e] == groupId);
  }

  /** What a publication comes to: each refusal exactly at the first need not met. */
  lemma PublishesExactlyWhen(ref: Reference, t: Tables, p: Principal, requestId: string, req: PublishRequest,
        from: Time, until: Time, at: Time)
    ensures
      var allowed := p.role.CoachRole? || p.role.AdministratorRole?;
      var graded := allowed && 0 <= req.score <= 100 && req.assessmentId >= 1;
      var found := graded && req.assessmentId in t.assessments
                   && t.assessments[req.assessmentId].examinerId in ref.coachAccounts;
      var own := found && Examines(ref, t, p, req.assessmentId);
      var submitted := own && t.assessments[req.assessmentId].status.Submitted?;
      var qualified := submitted && MayExamine(ref, t, req.assessmentId, from, until);
      var current := qualified && t.assessments[req.assessmentId].version == req.expectedVersion;
      match Publication(ref, t, p, requestId, req, from, until, at)
      case Err(AssessmentForbidden) => !allowed
      case Err(InvalidAssessment) => allowed && !graded
      case Err(AssessmentNotFound) => graded && !found
      case Err(ExaminerMismatch) => found && !own
      case Err(TransitionRefused(UnchangedState)) =>
        own && t.assessments[req.assessmentId].status == (if req.score < 70 then AssessmentFailed else Passed)
      case Err(TransitionRefused(IllegalTransition)) =>
        && own && !submitted
        && t.assessments[req.assessmentId].status != (if req.score < 70 then AssessmentFailed else Passed)
      case Err(ExaminerUnqualified) => submitted && !qualified
      case Err(VersionConflict) => qualified && !current
      case Err(InvalidAudit) => current && !Inked(requestId)
      case Err(_) => false
      case Ok(effect) =>
        current && Inked(requestId) && effect == Publishing(req.assessmentId, req.score, TrimSpace(req.notes), at)
  {
    AcceptedIsTraceable(requestId, req.assessmentId);
    if req.assessmentId in t.assessments && t.assessments[req.assessmentId].examinerId in ref.coachAccounts {
      ExaminerQualifiedMeans(ref, t, req.assessmentId, from, until);
    }
  }

  /** The examiner of the assessment, or an administrator. */
  ghost predicate Examines(ref: Reference, t: Tables, p: Principal, assessmentId: Id) {
    && assessmentId in t.assessments && t.assessments[assessmentId].examinerId in ref.coachAccounts
    && (p.role.AdministratorRole? || ref.coachAccounts[t.assessments[assessmentId].examinerId] == p.accountId)
  }

  /** Some coach with the examiner's account is qualified for sport and level now. */
  ghost predicate MayExamine(ref: Reference, t: Tables, assessmentId: Id, from: Time, until: Time) {
    && assessmentId in t.assessments && t.assessments[assessmentId].examinerId in ref.coachAccounts
    && var a := t.assessments[assessmentId];
       Qualified(ref, (iset c | c in ref.coachAccounts && ref.coachAccounts[c] == ref.coachAccounts[a.examinerId]),
                 a.sport, a.level, from, until)
  }

  lemma ExaminerQualifiedMeans(ref: Reference, t: Tables, assessmentId: Id, from: Time, until: Time)
    requires assessmentId in t.assessments && t.assessments[assessmentId].examinerId in ref.coachAccounts
    ensures var a := t.assessments[assessmentId];
            ExaminerQualified(ref, ref.coachAccounts[a.examinerId], a.sport, a.level, from, until)
            <==> MayExamine(ref, t, assessmentId, from, until)
  {
  }

  /** An assignment or a publication on a version of any age writes only the very row that had it. */
  lemma StaleVersions(t0: Tables, steps: seq<Step>, ref: Reference, p: Principal, requestId: string,
                      enrollmentId: Id, groupId: Id, req: PublishRequest, from: Time, until: Time, at: Time)
    requires FreshIds(t0) && AllowedRun(t0, steps)
    ensures var t := Run(t0, steps);
            && (groupId in t0.groups
                && Assigning(ref, t, p, requestId, enrollmentId, groupId, t0.groups[groupId].version).Ok? ==>
                  t.groups[groupId] == t0.groups[groupId])
            && (req.assessmentId in t0.assessments && req.expectedVersion == t0.assessments[req.assessmentId].version
                && Publication(ref, t, p, requestId, req, from, until, at).Ok? ==>
                  t.assessments[req.assessmentId] == t0.assessments[req.assessmentId])
  {
    SameVersionSameRow(t0, steps);
  }
}
