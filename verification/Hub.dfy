/**
 * The hub itself: tables updated in place, one statement after the other, inside
 * transactions that restore every table when anything fails. Each call is proved to commit
 * exactly the effect its decision names, with its audit event, or to change nothing.
 */
module Hub {
  import opened Wrappers
  import opened Calendar
  import opened TimeText
  import opened States
  import opened Schema
  import opened Services
  import opened Runs
  import opened Calls
  import Sums

  /** The tables after a call: the decided effect and its audit event, or nothing at all. */
  function Settled(t: Tables, d: Result<Effect, HubError>, p: Principal, requestId: string, at: Time,
        commits: bool): Tables
    requires d.Ok? ==> Allowed(t, d.value)
  {
    if d.Ok? && commits then Next(t, Step(d.value, Some(Receipt(p.accountId, requestId, at)))) else t
  }

  /** The error of a call that does not commit. */
  function Failure(d: Result<Effect, HubError>): HubError {
    if d.Err? then d.error else CommitFailed
  }

  class Store {
    const ref: Reference
    var db: Tables

    constructor (ref: Reference, db: Tables)
      ensures this.ref == ref && this.db == db
    {
      this.ref, this.db := ref, db;
    }

    method AppendAudit(p: Principal, requestId: string, action: Action, at: Time) returns (r: Result<(), HubError>)
      modifies this
      ensures r == if AuditAccepts(requestId, action.ObjectId()) then Ok(()) else Err(InvalidAudit)
      ensures db == if r.Ok? then old(db).(audit := old(db).audit + [AuditEvent(p.accountId, requestId, action, at)])
          else old(db)
    {
      if Blank(requestId) || action.ObjectId() < 1 {
        return Err(InvalidAudit);
      }
      db := db.(audit := db.audit + [AuditEvent(p.accountId, requestId, action, at)]);
      r := Ok(());
    }

    // ----- enrollment

    method EnrollmentByKey(key: string) returns (r: Option<Enrollment>)
      ensures r.Some? <==> KeyUsed(db.enrollments, key)
      ensures r.Some? ==> r.value in db.enrollments.Values && r.value.key == key
    {
      r := None;
      if KeyUsed(db.enrollments, key) {
        var e :| e in db.enrollments && db.enrollments[e].key == key;
        assert e in db.enrollments.Keys;
        r := Some(db.enrollments[e]);
      }
    }

    /** Counts the consents to sports that are granted by then, outlast the session and stand. */
    method CountConsents(studentId: Id, at: Time, ends: Time) returns (count: nat)
      ensures count > 0 <==> ConsentValid(ref, studentId, at, ends)
    {
      count := Sums.CountRows(ref.consents, (c: Consent) =>
        c.studentId == studentId && c.forSports && TextAtMost(c.granted, at) && TextBefore(ends, c.expires)
          && c.revoked.None?);
    }

    /** Counts the prerequisites of the template for which the student holds no certification. */
    method CountMissing(templateId: Id, studentId: Id, starts: Time) returns (count: nat)
      ensures count == 0 <==> PrerequisitesMet(ref, db.certs, templateId, studentId, starts)
    {
      var certs := db.certs;
      count := Sums.CountRows(ref.prerequisites, (p: Prerequisite) =>
        p.templateId == templateId && !Certified(certs, studentId, p, starts));
    }

    /** Counts the coach's active qualifications that cover sport, level and the whole session. */
    method CountQualifications(coachId: Id, sport: string, level: int, from: Time, until: Time) returns (count: nat)
      ensures count > 0 <==> CoachQualified(ref, coachId, sport, level, from, until)
    {
      count := Sums.CountRows(ref.qualifications, (q: Qualification) =>
        q.coachId == coachId && q.sport == sport && q.level >= level && q.active
        && TextAtMost(q.from, from) && TextAtMost(until, q.until));
    }

    /** Reads student, session and template, and counts the rows that speak for or against the enrollment. */
    method ReadEnrollment(studentId: Id, sessionId: Id, at: Time) returns (r: Option<EnrollmentSnapshot>)
      ensures r == SnapshotOf(ref, db, studentId, sessionId, at)
    {
      if studentId !in ref.students || sessionId !in db.sessions
        || db.sessions[sessionId].templateId !in ref.templates {
        return None;
      }
      var session := db.sessions[sessionId];
      var out := EnrollmentSnapshot(ref.students[studentId], session, ref.templates[session.templateId], false, false,
        false);
      var count := CountConsents(studentId, at, session.ends);
      out := out.(consentValid := count > 0);
      count := CountMissing(session.templateId, studentId, session.starts);
      out := out.(prerequisitesMet := count == 0);
      count := CountQualifications(session.coachId, out.template.sport, out.template.level, session.starts,
        session.ends);
      out := out.(coachQualified := count > 0);
      r := Some(out);
    }

    /** The counter goes up before the insert, which may still fail: then the caller rolls back. */
    method ReserveEnrollment(studentId: Id, sessionId: Id, version: int, key: string, at: Time)
      returns (r: Result<Enrollment, HubError>)
      modifies this
      ensures var d := Reservation(old(db), studentId, sessionId, version, key, at);
              && (d.Err? ==> r == Err(d.error))
              && (d.Ok? ==> r == Ok(d.value.row) && db == Apply(old(db), d.value))
    {
      if sessionId !in db.sessions || db.sessions[sessionId].version != version
         || !db.sessions[sessionId].status.Scheduled?
         || db.sessions[sessionId].enrolled >= db.sessions[sessionId].capacity {
        return Err(VersionConflict);
      }
      var session := db.sessions[sessionId];
      session := session.(enrolled := session.enrolled + 1, version := session.version + 1);
      db := db.(sessions := db.sessions[sessionId := session]);
      if KeyUsed(db.enrollments, key) || PairUsed(db.enrollments, sessionId, studentId) {
        return Err(InsertFailed);
      }
      var row := Enrollment(db.nextEnrollment, sessionId, studentId, Confirmed, key, 1, at);
      db := db.(enrollments := db.enrollments[db.nextEnrollment := row]);
      db := db.(nextEnrollment := db.nextEnrollment + 1);
      r := Ok(row);
    }

    method EnrollWork(p: Principal, requestId: string, req: EnrollRequest, clock: EnrollClock)
      returns (r: Result<Enrollment, HubError>)
      modifies this
      ensures var d := Enrolling(ref, old(db), requestId, req, clock);
              && (d.Err? ==> r == Err(d.error))
              && (d.Ok? ==> r == Ok(NewEnrollment(old(db), req.studentId, req.sessionId, req.key, clock.storedAt))
                            && db == Settled(old(db), d, p, requestId, clock.auditAt, true))
    {
      var read := ReadEnrollment(req.studentId, req.sessionId, clock.snapshotAt);
      if read.None? {
        return Err(TargetNotFound);
      }
      var snapshot := read.value;
      if !snapshot.session.status.Scheduled? || !Earlier(clock.openAt, snapshot.session.starts) {
        return Err(SessionClosed);
      }
      var age := Age.CompletedAge(snapshot.student.birth, snapshot.session.starts);
      if age < snapshot.template.minimumAge {
        return Err(MinimumAgeNotMet);
      }
      if Age.IsMinor(snapshot.student.birth, snapshot.session.starts) && !snapshot.consentValid {
        return Err(ConsentRequired);
      }
      if !snapshot.prerequisitesMet {
        return Err(PrerequisiteMissing);
      }
      if !snapshot.coachQualified {
        return Err(CoachUnqualified);
      }
      r := ReserveEnrollment(req.studentId, req.sessionId, snapshot.session.version, req.key, clock.storedAt);
      if r.Err? {
        return;
      }
      var recorded := AppendAudit(p, requestId, EnrollmentConfirmed(r.value.id, req.sessionId, req.studentId),
        clock.auditAt);
      if recorded.Err? {
        return Err(recorded.error);
      }
    }

    method EnrollTransaction(p: Principal, requestId: string, req: EnrollRequest, clock: EnrollClock, commits: bool)
      returns (r: Result<Enrollment, HubError>)
      modifies this
      ensures var d := Enrolling(ref, old(db), requestId, req, clock);
              && db == Settled(old(db), d, p, requestId, clock.auditAt, commits)
              && r == if d.Ok? && commits
                then Ok(NewEnrollment(old(db), req.studentId, req.sessionId, req.key, clock.storedAt))
                      else Err(Failure(d))
      ensures EnrollRefused(p, req).None? ==>
        db == AfterCall(ref, old(db), Attempt(Enrolls(p, requestId, req, clock, true), commits))
    {
      var saved := db;
      r := EnrollWork(p, requestId, req, clock);
      if r.Ok? && !commits {
        r := Err(CommitFailed);
      }
      if r.Err? {
        db := saved;
      }
    }

    /** Enroll without another client in between: guards, lookup by key, transaction. */
    method Enroll(p: Principal, requestId: string, req: EnrollRequest, clock: EnrollClock, commits: bool)
      returns (r: Result<Enrollment, HubError>)
      modifies this
      ensures EnrollRefused(p, req).Some? ==> r == Err(EnrollRefused(p, req).value) && db == old(db)
      ensures EnrollRefused(p, req).None? && KeyUsed(old(db.enrollments), req.key) ==>
        && db == old(db)
        && (r.Ok? ==> r.value in old(db.enrollments).Values && r.value.key == req.key
                      && r.value.studentId == req.studentId && r.value.sessionId == req.sessionId)
        && (r.Err? ==> r.error == PayloadMismatch)
      ensures EnrollRefused(p, req).None? && !KeyUsed(old(db.enrollments), req.key) ==>
        var d := Enrolling(ref, old(db), requestId, req, clock);
        && db == Settled(old(db), d, p, requestId, clock.auditAt, commits)
        && r == if d.Ok? && commits
                then Ok(NewEnrollment(old(db), req.studentId, req.sessionId, req.key, clock.storedAt))
                else Err(Failure(d))
      ensures db == AfterCall(ref, old(db), Attempt(Enrolls(p, requestId, req, clock, false), commits))
    {
      if !(p.role.GuardianRole? || p.role.AdministratorRole?) {
        return Err(EnrollmentForbidden);
      }
      if req.studentId < 1 || req.sessionId < 1 || Blank(req.key) {
        return Err(InvalidEnrollment);
      }
      var existing := EnrollmentByKey(req.key);
      if existing.Some? {
        if existing.value.studentId != req.studentId || existing.value.sessionId != req.sessionId {
          return Err(PayloadMismatch);
        }
        return Ok(existing.value);
      }
      r := EnrollTransaction(p, requestId, req, clock, commits);
    }

    // ----- cancellation

    method SessionById(id: Id) returns (r: Result<Session, HubError>)
      ensures r == if id in db.sessions then Ok(db.sessions[id]) else Err(SessionNotFound)
    {
      if id !in db.sessions {
        return Err(SessionNotFound);
      }
      r := Ok(db.sessions[id]);
    }

    /** Entitles the confirmed enrollments of the session that have no entitlement yet, and counts them. */
    method InsertEntitlements(sessionId: Id, expiry: Time, at: Time) returns (created: int)
      modifies this
      ensures created == |NewEntitlements(old(db), sessionId, expiry, at)|
      ensures db == old(db).(entitlements := old(db).entitlements + NewEntitlements(old(db), sessionId, expiry, at))
    {
      var rows := map e | e in db.enrollments && db.enrollments[e].sessionId == sessionId
                          && db.enrollments[e].status.Confirmed? && e !in db.entitlements ::
                          Entitlement(sessionId, expiry, at);
      forall e ensures e in rows <==> e in NewEntitlements(db, sessionId, expiry, at) {
        assert e in ConfirmedOf(db.enrollments, sessionId) <==>
          e in db.enrollments && db.enrollments[e].sessionId == sessionId && db.enrollments[e].status.Confirmed?;
      }
      assert rows == NewEntitlements(db, sessionId, expiry, at);
      db := db.(entitlements := db.entitlements + rows);
      created := |rows|;
    }

    /** Turns the confirmed enrollments of the session into make-ups due. */
    method MarkMakeupDue(sessionId: Id)
      modifies this
      ensures db == old(db).(enrollments := ClosedEnrollments(old(db).enrollments, sessionId))
    {
      var rows := map e | e in db.enrollments ::
        if db.enrollments[e].sessionId == sessionId && db.enrollments[e].status.Confirmed?
        then db.enrollments[e].(status := MakeupDue, version := db.enrollments[e].version + 1) else db.enrollments[e];
      forall e | e in rows ensures rows[e] == ClosedEnrollments(db.enrollments, sessionId)[e] {
        assert e in ConfirmedOf(db.enrollments, sessionId) <==>
          db.enrollments[e].sessionId == sessionId && db.enrollments[e].status.Confirmed?;
      }
      assert rows == ClosedEnrollments(db.enrollments, sessionId);
      db := db.(enrollments := rows);
    }

    /** Cancels the session if it is scheduled and still at that version; answers the rows changed. */
    method CloseSession(sessionId: Id, reason: string, version: int) returns (n: nat)
      modifies this
      ensures n == if sessionId in old(db).sessions && old(db).sessions[sessionId].version == version
                      && old(db).sessions[sessionId].status.Scheduled? then 1 else 0
      ensures db == if n == 1
          then old(db).(sessions := old(db).sessions[sessionId := ClosedSession(old(db).sessions[sessionId], reason)])
                    else old(db)
    {
      n := 0;
      if sessionId in db.sessions && db.sessions[sessionId].version == version
        && db.sessions[sessionId].status.Scheduled? {
        var session := db.sessions[sessionId];
        session := session.(status := Canceled, cancelReason := reason, version := session.version + 1);
        db := db.(sessions := db.sessions[sessionId := session]);
        n := 1;
      }
    }

    method CancelSessionRows(sessionId: Id, reason: string, version: int, expiry: Time, at: Time)
      returns (r: Result<int, HubError>)
      modifies this
      ensures var d := Cancellation(old(db), sessionId, reason, version, expiry, at);
              && (d.Err? ==> r == Err(d.error))
              && (d.Ok? ==> r == Ok(|NewEntitlements(old(db), sessionId, expiry, at)|) && db == Apply(old(db), d.value))
    {
      var n := CloseSession(sessionId, reason, version);
      if n != 1 {
        return Err(VersionConflict);
      }
      var created := InsertEntitlements(sessionId, expiry, at);
      MarkMakeupDue(sessionId);
      r := Ok(created);
    }

    method CancelWork(p: Principal, requestId: string, sessionId: Id, reason: string, version: int, expiry: Time,
          at: Time, auditAt: Time)
      returns (r: Result<int, HubError>)
      modifies this
      ensures var d := Cancellation(old(db), sessionId, reason, version, expiry, at);
              && (d.Err? ==> r == Err(d.error))
              && (d.Ok? && !AuditAccepts(requestId, sessionId) ==> r == Err(InvalidAudit))
              && (d.Ok? && AuditAccepts(requestId, sessionId) ==>
                    r == Ok(|NewEntitlements(old(db), sessionId, expiry, at)|)
                    && db == Settled(old(db), d, p, requestId, auditAt, true))
    {
      r := CancelSessionRows(sessionId, reason, version, expiry, at);
      if r.Err? {
        return;
      }
      var recorded := AppendAudit(p, requestId, CourseCanceled(sessionId, reason, r.value), auditAt);
      if recorded.Err? {
        return Err(recorded.error);
      }
    }

    /** The transaction of a cancellation: all of its work, or the tables as they were. */
    method CancelInTx(p: Principal, requestId: string, sessionId: Id, reason: string, version: int,
                      expiry: Time, at: Time, auditAt: Time, commits: bool) returns (r: Result<int, HubError>)
      modifies this
      ensures var d := Cancellation(old(db), sessionId, reason, version, expiry, at);
              var works := d.Ok? && AuditAccepts(requestId, sessionId);
              && db == (if works then Settled(old(db), d, p, requestId, auditAt, commits) else old(db))
              && r == (if works && commits then Ok(|NewEntitlements(old(db), sessionId, expiry, at)|)
                       else if d.Err? then Err(d.error) else if works then Err(CommitFailed) else Err(InvalidAudit))
    {
      var saved := db;
      r := CancelWork(p, requestId, sessionId, reason, version, expiry, at, auditAt);
      if r.Ok? && !commits {
        r := Err(CommitFailed);
      }
      if r.Err? {
        db := saved;
      }
    }

    /** CancelCourse after its read: the session row may be as old as it likes. */
    method CancelTransaction(p: Principal, requestId: string, sessionId: Id, reason: string, read: Session,
                             expiry: Time, at: Time, auditAt: Time, commits: bool) returns (r: Result<int, HubError>)
      modifies this
      ensures var d := Canceling(old(db), requestId, sessionId, reason, read, expiry, at);
              && db == Settled(old(db), d, p, requestId, auditAt, commits)
              && r == if d.Ok? && commits then Ok(|NewEntitlements(old(db), sessionId, expiry, at)|)
                else Err(Failure(d))
      ensures CancelRefused(p, reason).None? ==>
        db == AfterCall(ref, old(db),
          Attempt(Cancels(p, requestId, sessionId, reason, read, expiry, at, auditAt), commits))
    {
      if read.status == Canceled {
        return Err(TransitionRefused(UnchangedState));
      }
      if !CourseEdge(read.status, Canceled) {
        return Err(TransitionRefused(IllegalTransition));
      }
      r := CancelInTx(p, requestId, sessionId, TrimSpace(reason), read.version, expiry, at, auditAt, commits);
    }

    /** CancelCourse without another client in between: guards, read, transaction. */
    method CancelCourse(p: Principal, requestId: string, sessionId: Id, reason: string,
                        expiry: Time, at: Time, auditAt: Time, commits: bool) returns (r: Result<int, HubError>)
      modifies this
      ensures CancelRefused(p, reason).Some? ==> r == Err(CancelRefused(p, reason).value) && db == old(db)
      ensures CancelRefused(p, reason).None? && sessionId !in old(db).sessions ==>
          r == Err(SessionNotFound) && db == old(db)
      ensures CancelRefused(p, reason).None? && sessionId in old(db).sessions ==>
        var read := old(db).sessions[sessionId];
        && db == AfterCall(ref, old(db),
          Attempt(Cancels(p, requestId, sessionId, reason, read, expiry, at, auditAt), commits))
        && (r.Ok? <==> commits && read.status.Scheduled? && AuditAccepts(requestId, sessionId))
        && (r.Ok? ==> r.value == |NewEntitlements(old(db), sessionId, expiry, at)|)
    {
      if !p.role.AdministratorRole? {
        return Err(CancelForbidden);
      }
      if TrimSpace(reason) == "" {
        return Err(CancelReasonRequired);
      }
      var session := SessionById(sessionId);
      if session.Err? {
        return Err(session.error);
      }
      r := CancelTransaction(p, requestId, sessionId, reason, session.value, expiry, at, auditAt, commits);
    }

    // ----- custody

    /** Counts the passed inspections of the item that are still valid. */
    method CountInspections(equipmentId: Id, now: Time) returns (count: nat)
      ensures count > 0 <==> InspectionValid(ref, equipmentId, now)
    {
      count := Sums.CountRows(ref.inspections, (i: Inspection) =>
        i.equipmentId == equipmentId && i.passed && TextBefore(now, i.validUntil));
    }

    /** Counts the confirmed enrollments of the student in the session. */
    method CountEnrollments(studentId: Id, sessionId: Id) returns (count: nat)
      ensures count == |ConfirmedRows(db.enrollments, studentId, sessionId)|
    {
      var rows := db.enrollments;
      var seated := (e: Enrollment) => e.studentId == studentId && e.sessionId == sessionId && e.status.Confirmed?;
      count := Sums.CountKeys(rows, seated);
      assert Sums.KeysWhere(rows, seated) == ConfirmedRows(rows, studentId, sessionId);
    }

    method ReadCheckout(equipmentId: Id, studentId: Id, sessionId: Id, now: Time) returns (r: Option<CheckoutSnapshot>)
      ensures r == CheckoutSnapshotOf(ref, db, equipmentId, studentId, sessionId, now)
    {
      if equipmentId !in db.equipment || studentId !in ref.students || sessionId !in db.sessions
         || db.sessions[sessionId].templateId !in ref.templates {
        return None;
      }
      var sport := ref.templates[db.sessions[sessionId].templateId].sport;
      var out := CheckoutSnapshot(db.equipment[equipmentId], ref.students[studentId], sport, false, false);
      var count := CountEnrollments(studentId, sessionId);
      out := out.(enrolled := count == 1);
      count := CountInspections(equipmentId, now);
      out := out.(inspectionValid := count > 0);
      r := Some(out);
    }

    method AcquireEquipment(equipmentId: Id, version: int, studentId: Id, sessionId: Id, actorId: Id, at: Time)
      returns (r: Result<Loan, HubError>)
      modifies this
      ensures var d := Acquisition(old(db), equipmentId, version, studentId, sessionId, actorId, at);
              && (d.Err? ==> r == Err(d.error))
              && (d.Ok? ==> r == Ok(d.value.loan) && db == Apply(old(db), d.value))
    {
      if equipmentId !in db.equipment || db.equipment[equipmentId].version != version
         || !db.equipment[equipmentId].status.Available? {
        return Err(VersionConflict);
      }
      var item := db.equipment[equipmentId];
      db := db.(equipment := db.equipment[equipmentId := item.(status := CheckedOut, version := item.version + 1)]);
      if ActiveLoans(db.loans, equipmentId) != {} {
        return Err(InsertFailed);
      }
      var loan := Loan(db.nextLoan, equipmentId, studentId, sessionId, actorId, Active, at, None, 1);
      db := db.(loans := db.loans[db.nextLoan := loan]);
      db := db.(nextLoan := db.nextLoan + 1);
      r := Ok(loan);
    }

    method CheckoutWork(p: Principal, requestId: string, equipmentId: Id, studentId: Id, sessionId: Id, now: Time,
          at: Time, auditAt: Time)
      returns (r: Result<Loan, HubError>)
      modifies this
      ensures var d := CheckingOut(ref, old(db), p, requestId, equipmentId, studentId, sessionId, now, at);
              && (d.Err? ==> r == Err(d.error))
              && (d.Ok? ==> r == Ok(NewLoan(old(db), equipmentId, studentId, sessionId, p.accountId, at))
                            && db == Settled(old(db), d, p, requestId, auditAt, true))
    {
      var read := ReadCheckout(equipmentId, studentId, sessionId, now);
      if read.None? {
        return Err(TargetNotFound);
      }
      var snapshot := read.value;
      if !snapshot.item.status.Available? {
        return Err(EquipmentUnavailable);
      }
      if !snapshot.inspectionValid {
        return Err(InspectionExpired);
      }
      if !snapshot.enrolled {
        return Err(StudentNotEnrolled);
      }
      if snapshot.item.sport != snapshot.sport {
        return Err(SportMismatch);
      }
      var expectedSize := snapshot.student.helmetSize;
      if snapshot.item.kind.Shoes? {
        expectedSize := snapshot.student.shoeSize;
      }
      if snapshot.item.size != expectedSize {
        return Err(FitMismatch);
      }
      r := AcquireEquipment(equipmentId, snapshot.item.version, studentId, sessionId, p.accountId, at);
      if r.Err? {
        return;
      }
      var recorded := AppendAudit(p, requestId, EquipmentCheckedOut(equipmentId, r.value.id, studentId), auditAt);
      if recorded.Err? {
        return Err(recorded.error);
      }
    }

    method Checkout(p: Principal, requestId: string, equipmentId: Id, studentId: Id, sessionId: Id,
                    now: Time, at: Time, auditAt: Time, commits: bool) returns (r: Result<Loan, HubError>)
      modifies this
      ensures var refused := CheckoutRefused(p, equipmentId, studentId, sessionId);
              var d := CheckingOut(ref, old(db), p, requestId, equipmentId, studentId, sessionId, now, at);
              && (refused.Some? ==> r == Err(refused.value) && db == old(db))
              && (refused.None? ==> db == Settled(old(db), d, p, requestId, auditAt, commits))
              && (refused.None? ==>
                r == if d.Ok? && commits then Ok(NewLoan(old(db), equipmentId, studentId, sessionId, p.accountId, at))
                                         else Err(Failure(d)))
      ensures db == AfterCall(ref, old(db),
          Attempt(ChecksOut(p, requestId, equipmentId, studentId, sessionId, now, at, auditAt), commits))
    {
      if !(p.role.EquipmentManagerRole? || p.role.AdministratorRole?) {
        return Err(CheckoutForbidden);
      }
      if equipmentId < 1 || studentId < 1 || sessionId < 1 {
        return Err(InvalidCheckout);
      }
      var saved := db;
      r := CheckoutWork(p, requestId, equipmentId, studentId, sessionId, now, at, auditAt);
      if r.Ok? && !commits {
        r := Err(CommitFailed);
      }
      if r.Err? {
        db := saved;
      }
    }

    /** The loan is closed first; when the item's row is not there to update, the caller rolls back. */
    method CompleteReturn(req: ReturnRequest, loanVersion: int, itemVersion: int, actorId: Id, at: Time)
      returns (r: Result<Option<Case>, HubError>)
      modifies this
      ensures var d := Completion(old(db), req, loanVersion, itemVersion, actorId, at);
              && (d.Err? ==> r == Err(d.error))
              && (d.Ok? ==> r == Ok(d.value.damage) && db == Apply(old(db), d.value))
    {
      var (loanState, itemState) := (Returned, Available);
      if req.damaged {
        loanState, itemState := Damaged, Isolated;
      }
      if req.loanId !in db.loans || db.loans[req.loanId].version != loanVersion
        || !db.loans[req.loanId].status.Active? {
        return Err(VersionConflict);
      }
      var loan := db.loans[req.loanId];
      db := db.(loans := db.loans[req.loanId :=
        loan.(status := loanState, returnedAt := Some(at), version := loan.version + 1)]);
      var i := loan.equipmentId;
      if i !in db.equipment || db.equipment[i].version != itemVersion || !db.equipment[i].status.CheckedOut? {
        return Err(VersionConflict);
      }
      db := db.(equipment :=
        db.equipment[i := db.equipment[i].(status := itemState, version := db.equipment[i].version + 1)]);
      if !req.damaged {
        return Ok(None);
      }
      var made := Case(db.nextCase, i, Some(req.loanId), actorId, req.damageCode, req.responsibility, req.notes, at);
      db := db.(cases := db.cases[db.nextCase := made]);
      db := db.(nextCase := db.nextCase + 1);
      r := Ok(Some(made));
    }

    method ReturnWork(p: Principal, requestId: string, req: ReturnRequest, at: Time, auditAt: Time)
      returns (r: Result<Option<Case>, HubError>)
      modifies this
      ensures var d := Returning(old(db), p, requestId, req, at);
              && (d.Err? ==> r == Err(d.error))
              && (d.Ok? ==> r == Ok(d.value.damage) && db == Settled(old(db), d, p, requestId, auditAt, true))
    {
      if req.loanId !in db.loans || db.loans[req.loanId].equipmentId !in db.equipment {
        return Err(LoanNotFound);
      }
      var loan := db.loans[req.loanId];
      var item := db.equipment[loan.equipmentId];
      var target := if req.damaged then Damaged else Returned;
      if loan.status == target {
        return Err(TransitionRefused(UnchangedState));
      }
      if !LoanEdge(loan.status, target) {
        return Err(TransitionRefused(IllegalTransition));
      }
      r := CompleteReturn(req, loan.version, item.version, p.accountId, at);
      if r.Err? {
        return;
      }
      var maintenance := if r.value.Some? then Some(r.value.value.id) else None;
      var recorded := AppendAudit(p, requestId,
        EquipmentReturned(loan.equipmentId, req.loanId, req.damaged, maintenance), auditAt);
      if recorded.Err? {
        return Err(recorded.error);
      }
    }

    method Return(p: Principal, requestId: string, req: ReturnRequest, at: Time, auditAt: Time, commits: bool)
      returns (r: Result<Option<Case>, HubError>)
      modifies this
      ensures var d := Returning(old(db), p, requestId, req, at);
              && (ReturnRefused(p, req).Some? ==> r == Err(ReturnRefused(p, req).value) && db == old(db))
              && (ReturnRefused(p, req).None? ==> db == Settled(old(db), d, p, requestId, auditAt, commits))
              && (ReturnRefused(p, req).None? ==> r == if d.Ok? && commits then Ok(d.value.damage) else Err(Failure(d)))
      ensures db == AfterCall(ref, old(db), Attempt(Returns(p, requestId, req, at, auditAt), commits))
    {
      if !(p.role.EquipmentManagerRole? || p.role.AdministratorRole?) {
        return Err(ReturnForbidden);
      }
      if req.damaged && (Blank(req.damageCode) || Blank(req.responsibility)) {
        return Err(DamageDetailsRequired);
      }
      var saved := db;
      r := ReturnWork(p, requestId, req, at, auditAt);
      if r.Ok? && !commits {
        r := Err(CommitFailed);
      }
      if r.Err? {
        db := saved;
      }
    }

    // ----- groups

    method GuardAssignment(p: Principal, enrollmentId: Id, groupId: Id) returns (r: Option<HubError>)
      ensures r == AssignRefused(ref, db, p, enrollmentId, groupId)
    {
      if !(p.role.CoachRole? || p.role.AdministratorRole?) {
        return Some(AssignmentForbidden);
      }
      if groupId !in db.groups || db.groups[groupId].coachId !in ref.coachAccounts {
        return Some(GroupNotFound);
      }
      var group := db.groups[groupId];
      if enrollmentId !in db.enrollments {
        return Some(EnrollmentNotFound);
      }
      var enrollment := db.enrollments[enrollmentId];
      if enrollment.sessionId != group.sessionId || !enrollment.status.Confirmed? {
        return Some(GroupMismatch);
      }
      if ref.coachAccounts[group.coachId] != p.accountId && !p.role.AdministratorRole? {
        return Some(CoachGroupMismatch);
      }
      var count := |MembersOf(db.members, groupId)|;
      if count >= group.capacity {
        return Some(GroupFull);
      }
      r := None;
    }

    /** The conditional update of the group, then the membership under its unique key. */
    method JoinGroup(enrollmentId: Id, groupId: Id, expectedVersion: int) returns (r: Result<(), HubError>)
      requires groupId in db.groups
      modifies this
      ensures var group := old(db).groups[groupId];
              if group.version != expectedVersion then r == Err(VersionConflict)
              else if enrollmentId in old(db).members then r == Err(InsertFailed)
              else (r == Ok(())
                    && db == old(db).(groups := old(db).groups[groupId := group.(version := group.version + 1)],
                                      members := old(db).members[enrollmentId := groupId]))
    {
      var group := db.groups[groupId];
      if group.version != expectedVersion {
        return Err(VersionConflict);
      }
      db := db.(groups := db.groups[groupId := group.(version := group.version + 1)]);
      if enrollmentId in db.members {
        return Err(InsertFailed);
      }
      db := db.(members := db.members[enrollmentId := groupId]);
      r := Ok(());
    }

    method AssignWork(p: Principal, requestId: string, enrollmentId: Id, groupId: Id, expectedVersion: int,
          auditAt: Time)
      returns (r: Result<(), HubError>)
      modifies this
      ensures var d := Assigning(ref, old(db), p, requestId, enrollmentId, groupId, expectedVersion);
              && (d.Err? ==> r == Err(d.error))
              && (d.Ok? ==> r == Ok(()) && db == Settled(old(db), d, p, requestId, auditAt, true))
    {
      var refused := GuardAssignment(p, enrollmentId, groupId);
      if refused.Some? {
        return Err(refused.value);
      }
      r := JoinGroup(enrollmentId, groupId, expectedVersion);
      if r.Ok? {
        r := AppendAudit(p, requestId, MemberAssigned(groupId, enrollmentId), auditAt);
      }
    }

    method Assign(p: Principal, requestId: string, enrollmentId: Id, groupId: Id, expectedVersion: int,
          auditAt: Time, commits: bool)
      returns (r: Result<(), HubError>)
      modifies this
      ensures var d := Assigning(ref, old(db), p, requestId, enrollmentId, groupId, expectedVersion);
              && db == Settled(old(db), d, p, requestId, auditAt, commits)
              && r == if d.Ok? && commits then Ok(()) else Err(Failure(d))
      ensures db == AfterCall(ref, old(db),
          Attempt(Assigns(p, requestId, enrollmentId, groupId, expectedVersion, auditAt), commits))
    {
      var saved := db;
      r := AssignWork(p, requestId, enrollmentId, groupId, expectedVersion, auditAt);
      if r.Ok? && !commits {
        r := Err(CommitFailed);
      }
      if r.Err? {
        db := saved;
      }
    }

    // ----- assessments

    /** Grants a certification, or renews who granted it and when: the expiry of an old row stays. */
    method UpsertCertification(key: CertKey, grantedBy: Id, at: Time)
      modifies this
      ensures var expires := if key in old(db).certs then old(db).certs[key].expires else None;
              db == old(db).(certs := old(db).certs[key := Certification(grantedBy, at, expires)])
    {
      if key in db.certs {
        db := db.(certs := db.certs[key := db.certs[key].(grantedBy := grantedBy, granted := at)]);
      } else {
        db := db.(certs := db.certs[key := Certification(grantedBy, at, None)]);
      }
    }

    /** The conditional update of the assessment, and the certification when it is passed. */
    method PublishRows(req: PublishRequest, target: AssessmentStatus, at: Time)
      returns (r: Result<Assessment, HubError>)
      requires req.assessmentId in db.assessments && 0 <= req.score <= 100 && target == PublishTarget(req.score)
      modifies this
      ensures var a := old(db).assessments[req.assessmentId];
              if a.version != req.expectedVersion || !a.status.Submitted? then r == Err(VersionConflict)
              else r == Ok(PublishedAssessment(a, req.score, TrimSpace(req.notes)))
                   && db == Apply(old(db), Publishing(req.assessmentId, req.score, TrimSpace(req.notes), at))
    {
      var result := db.assessments[req.assessmentId];
      if result.version != req.expectedVersion || !result.status.Submitted? {
        return Err(VersionConflict);
      }
      result := result.(status := target, score := req.score, notes := TrimSpace(req.notes),
                         version := result.version + 1);
      db := db.(assessments := db.assessments[req.assessmentId := result]);
      if target.Passed? {
        UpsertCertification(CertKey(result.studentId, result.sport, result.level), result.examinerId, at);
      }
      r := Ok(result);
    }

    /** Counts the active qualifications of the coach behind an account that cover sport, level and time. */
    method CountExaminerQualifications(account: Id, sport: string, level: int, from: Time, until: Time)
          returns (count: nat)
      ensures count > 0 <==> ExaminerQualified(ref, account, sport, level, from, until)
    {
      count := Sums.CountRows(ref.qualifications, (q: Qualification) =>
        q.coachId in ref.coachAccounts && ref.coachAccounts[q.coachId] == account && q.sport == sport
          && q.level >= level
        && q.active && TextAtMost(q.from, from) && TextAtMost(until, q.until));
    }

    method GuardPublication(p: Principal, req: PublishRequest, from: Time, until: Time) returns (r: Option<HubError>)
      ensures r == PublishRefused(ref, db, p, req, from, until)
    {
      if !(p.role.CoachRole? || p.role.AdministratorRole?) {
        return Some(AssessmentForbidden);
      }
      if req.score < 0 || req.score > 100 || req.assessmentId < 1 {
        return Some(InvalidAssessment);
      }
      if req.assessmentId !in db.assessments || db.assessments[req.assessmentId].examinerId !in ref.coachAccounts {
        return Some(AssessmentNotFound);
      }
      var result := db.assessments[req.assessmentId];
      var account := ref.coachAccounts[result.examinerId];
      if account != p.accountId && !p.role.AdministratorRole? {
        return Some(ExaminerMismatch);
      }
      var target := AssessmentFailed;
      if req.score >= 70 {
        target := Passed;
      }
      if result.status == target {
        return Some(TransitionRefused(UnchangedState));
      }
      if !AssessmentEdge(result.status, target) {
        return Some(TransitionRefused(IllegalTransition));
      }
      var qualified := CountExaminerQualifications(account, result.sport, result.level, from, until);
      if qualified == 0 {
        return Some(ExaminerUnqualified);
      }
      r := None;
    }

    method PublishWork(p: Principal, requestId: string, req: PublishRequest, from: Time, until: Time, at: Time,
          auditAt: Time)
      returns (r: Result<Assessment, HubError>)
      modifies this
      ensures var d := Publication(ref, old(db), p, requestId, req, from, until, at);
              && (d.Err? ==> r == Err(d.error))
              && (d.Ok? ==> r == Ok(PublishedAssessment(old(db).assessments[req.assessmentId], req.score,
                TrimSpace(req.notes)))
                            && db == Settled(old(db), d, p, requestId, auditAt, true))
    {
      var refused := GuardPublication(p, req, from, until);
      if refused.Some? {
        return Err(refused.value);
      }
      var target := if req.score >= 70 then Passed else AssessmentFailed;
      r := PublishRows(req, target, at);
      if r.Err? {
        return;
      }
      var recorded := AppendAudit(p, requestId, AssessmentPublished(req.assessmentId, target.Passed?, req.score),
        auditAt);
      if recorded.Err? {
        return Err(recorded.error);
      }
    }

    method Publish(p: Principal, requestId: string, req: PublishRequest, from: Time, until: Time, at: Time,
          auditAt: Time, commits: bool)
      returns (r: Result<Assessment, HubError>)
      modifies this
      ensures var d := Publication(ref, old(db), p, requestId, req, from, until, at);
              && db == Settled(old(db), d, p, requestId, auditAt, commits)
              && r == if d.Ok? && commits
                      then Ok(PublishedAssessment(old(db).assessments[req.assessmentId], req.score,
                        TrimSpace(req.notes)))
                      else Err(Failure(d))
      ensures db == AfterCall(ref, old(db), Attempt(Publishes(p, requestId, req, from, until, at, auditAt), commits))
    {
      var saved := db;
      r := PublishWork(p, requestId, req, from, until, at, auditAt);
      if r.Ok? && !commits {
        r := Err(CommitFailed);
      }
      if r.Err? {
        db := saved;
      }
    }
  }
}
