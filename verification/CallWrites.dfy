/**
 * What a call writes when it commits, column by column, and when it commits at all: on the
 * parameters of the call and the rows before it, whatever functions decide and apply it.
 */
module CallWrites {
  import opened Wrappers
  import opened States
  import opened Schema
  import opened Services
  import opened Calls
  import opened Needs
  import opened Outcomes
  import opened SeatLaws
  import opened CustodyLaws

  // ----- the guards before any transaction

  lemma EnrollGuard(p: Principal, req: EnrollRequest)
    ensures EnrollRefused(p, req) ==
      if p.role != GuardianRole && p.role != AdministratorRole then Some(EnrollmentForbidden)
      else if req.studentId <= 0 || req.sessionId <= 0 || !Inked(req.key) then Some(InvalidEnrollment) else None
  {
    BlankIsNotInked(req.key);
  }

  lemma CancelGuard(p: Principal, reason: string)
    ensures CancelRefused(p, reason) ==
      if p.role != AdministratorRole then Some(CancelForbidden)
      else if !Inked(reason) then Some(CancelReasonRequired) else None
  {
    var _, _ := TrimmedText(reason);
  }

  lemma CheckoutGuard(p: Principal, equipmentId: Id, studentId: Id, sessionId: Id)
    ensures CheckoutRefused(p, equipmentId, studentId, sessionId) ==
      if p.role != EquipmentManagerRole && p.role != AdministratorRole then Some(CheckoutForbidden)
      else if equipmentId <= 0 || studentId <= 0 || sessionId <= 0 then Some(InvalidCheckout) else None
  {
    assert p.role == EquipmentManagerRole <==> p.role.EquipmentManagerRole?;
  }

  lemma ReturnGuard(p: Principal, back: ReturnRequest)
    ensures ReturnRefused(p, back) ==
      if p.role != EquipmentManagerRole && p.role != AdministratorRole then Some(ReturnForbidden)
      else if back.damaged && !(Inked(back.damageCode) && Inked(back.responsibility)) then Some(DamageDetailsRequired)
      else None
  {
    BlankIsNotInked(back.damageCode);
    BlankIsNotInked(back.responsibility);
  }

  // ----- what is decided

  lemma {:induction false} EnrollDecides(ref: Reference, t: Tables, requestId: string, req: EnrollRequest,
        clock: EnrollClock)
    ensures Enrolling(ref, t, requestId, req, clock).Ok? <==>
      && Eligible(ref, t, req, clock) && t.sessions[req.sessionId].enrolled < t.sessions[req.sessionId].capacity
      && Unused(t.enrollments, req) && Traceable(requestId, t.nextEnrollment)
  {
    EnrollsExactlyWhen(ref, t, requestId, req, clock);
  }

  lemma {:induction false} EnrollEffect(ref: Reference, t: Tables, requestId: string, req: EnrollRequest,
        clock: EnrollClock)
    requires Enrolling(ref, t, requestId, req, clock).Ok?
    ensures Enrolling(ref, t, requestId, req, clock).value == AskedSeat(t, req, clock.storedAt)
  {
    EnrollsExactlyWhen(ref, t, requestId, req, clock);
  }

  lemma CheckoutDecides(ref: Reference, t: Tables, p: Principal, requestId: string, equipmentId: Id, studentId: Id,
                        sessionId: Id, now: Time, at: Time)
    requires Seating(t) && Custody(t)
    ensures CheckingOut(ref, t, p, requestId, equipmentId, studentId, sessionId, now, at).Ok? <==>
      && equipmentId in t.equipment && Found(ref, t, studentId, sessionId)
      && t.equipment[equipmentId].status.Available? && Inspected(ref, equipmentId, now)
      && Seated(t, studentId, sessionId)
      && t.equipment[equipmentId].sport == ref.templates[t.sessions[sessionId].templateId].sport
      && Fits(t.equipment[equipmentId], ref.students[studentId]) && Traceable(requestId, equipmentId)
  {
    ChecksOutExactlyWhen(ref, t, p, requestId, equipmentId, studentId, sessionId, now, at);
  }

  lemma CheckoutEffect(ref: Reference, t: Tables, p: Principal, requestId: string, equipmentId: Id, studentId: Id,
                       sessionId: Id, now: Time, at: Time)
    requires CheckingOut(ref, t, p, requestId, equipmentId, studentId, sessionId, now, at).Ok?
    ensures equipmentId in t.equipment
    ensures CheckingOut(ref, t, p, requestId, equipmentId, studentId, sessionId, now, at).value
         == Lending(Loan(t.nextLoan, equipmentId, studentId, sessionId, p.accountId, Active, at, None, 1))
  {
  }

  lemma ReturnEffect(t: Tables, p: Principal, requestId: string, req: ReturnRequest, at: Time)
    requires Returning(t, p, requestId, req, at).Ok?
    ensures req.loanId in t.loans && t.loans[req.loanId].equipmentId in t.equipment
    ensures Returning(t, p, requestId, req, at).value == Effect.Return(req.loanId,
      if req.damaged
      then Some(Case(t.nextCase, t.loans[req.loanId].equipmentId, Some(req.loanId), p.accountId, req.damageCode,
                     req.responsibility, req.notes, at))
      else None, at)
  {
  }

  lemma PublishEffect(ref: Reference, t: Tables, p: Principal, requestId: string, req: PublishRequest, from: Time,
        until: Time, at: Time)
    requires Publication(ref, t, p, requestId, req, from, until, at).Ok?
    ensures req.assessmentId in t.assessments && t.assessments[req.assessmentId].version == req.expectedVersion
    ensures Publication(ref, t, p, requestId, req, from, until, at).value
         == Publishing(req.assessmentId, req.score, TrimSpace(req.notes), at)
  {
    PublishesExactlyWhen(ref, t, p, requestId, req, from, until, at);
  }

  lemma CancelDecides(t: Tables, requestId: string, sessionId: Id, reason: string, read: Session, expiry: Time,
        at: Time)
    ensures Canceling(t, requestId, sessionId, reason, read, expiry, at).Ok? <==>
      && (read.status.Scheduled? || read.status.InProgress?)
      && sessionId in t.sessions && t.sessions[sessionId].status.Scheduled?
      && t.sessions[sessionId].version == read.version && Traceable(requestId, sessionId)
  {
    CancelsExactlyWhen(t, requestId, sessionId, reason, read, expiry, at);
  }

  lemma CancelEffect(t: Tables, requestId: string, sessionId: Id, reason: string, read: Session, expiry: Time, at: Time)
    requires Canceling(t, requestId, sessionId, reason, read, expiry, at).Ok?
    ensures Canceling(t, requestId, sessionId, reason, read, expiry, at).value
         == Closing(sessionId, TrimSpace(reason), expiry, at)
  {
  }

  // ----- which calls commit

  /** An enrollment commits exactly when its lookup found nothing and every need is met. */
  lemma EnrollCommits(ref: Reference, t: Tables, a: Attempt)
    requires a.call.Enrolls?
    ensures StepOf(ref, t, a).Some? <==>
      && a.commits && (a.call.p.role.GuardianRole? || a.call.p.role.AdministratorRole?)
      && a.call.req.studentId > 0 && a.call.req.sessionId > 0 && Inked(a.call.req.key)
      && Eligible(ref, t, a.call.req, a.call.clock)
      && t.sessions[a.call.req.sessionId].enrolled < t.sessions[a.call.req.sessionId].capacity
      && Unused(t.enrollments, a.call.req) && Traceable(a.call.requestId, t.nextEnrollment)
  {
    EnrollGuard(a.call.p, a.call.req);
    EnrollDecides(ref, t, a.call.requestId, a.call.req, a.call.clock);
    if KeyUsed(t.enrollments, a.call.req.key) {
      var e :| e in t.enrollments && t.enrollments[e].key == a.call.req.key;
      assert !Unused(t.enrollments, a.call.req);
    }
  }

  lemma CancelCommits(ref: Reference, t: Tables, a: Attempt)
    requires a.call.Cancels?
    ensures StepOf(ref, t, a).Some? <==>
      && a.commits && a.call.p.role.AdministratorRole? && Inked(a.call.reason)
      && (a.call.read.status.Scheduled? || a.call.read.status.InProgress?)
      && a.call.sessionId in t.sessions && t.sessions[a.call.sessionId].status.Scheduled?
      && t.sessions[a.call.sessionId].version == a.call.read.version && Traceable(a.call.requestId, a.call.sessionId)
  {
    CancelGuard(a.call.p, a.call.reason);
    CancelDecides(t, a.call.requestId, a.call.sessionId, a.call.reason, a.call.read, a.call.expiry, a.call.at);
  }

  lemma CheckoutCommits(ref: Reference, t: Tables, a: Attempt)
    requires a.call.ChecksOut? && Seating(t) && Custody(t)
    ensures StepOf(ref, t, a).Some? <==>
      && a.commits && (a.call.p.role.EquipmentManagerRole? || a.call.p.role.AdministratorRole?)
      && a.call.equipmentId > 0 && a.call.studentId > 0 && a.call.forSession > 0
      && a.call.equipmentId in t.equipment && Found(ref, t, a.call.studentId, a.call.forSession)
      && t.equipment[a.call.equipmentId].status.Available? && Inspected(ref, a.call.equipmentId, a.call.now)
      && Seated(t, a.call.studentId, a.call.forSession)
      && t.equipment[a.call.equipmentId].sport == ref.templates[t.sessions[a.call.forSession].templateId].sport
      && Fits(t.equipment[a.call.equipmentId], ref.students[a.call.studentId])
      && Traceable(a.call.requestId, a.call.equipmentId)
  {
    CheckoutGuard(a.call.p, a.call.equipmentId, a.call.studentId, a.call.forSession);
    CheckoutDecides(ref, t, a.call.p, a.call.requestId, a.call.equipmentId, a.call.studentId, a.call.forSession,
                         a.call.now, a.call.at);
  }

  lemma ReturnCommits(ref: Reference, t: Tables, a: Attempt)
    requires a.call.Returns? && Custody(t)
    ensures StepOf(ref, t, a).Some? <==>
      && a.commits && (a.call.p.role.EquipmentManagerRole? || a.call.p.role.AdministratorRole?)
      && (a.call.back.damaged ==> Inked(a.call.back.damageCode) && Inked(a.call.back.responsibility))
      && a.call.back.loanId in t.loans && t.loans[a.call.back.loanId].status.Active?
      && Traceable(a.call.requestId, t.loans[a.call.back.loanId].equipmentId)
  {
    ReturnGuard(a.call.p, a.call.back);
    ReturnsExactlyWhen(t, a.call.p, a.call.requestId, a.call.back, a.call.at);
  }

  // ----- what they write

  /** One row more for the student, one seat less in the session, one event. */
  lemma EnrollWrites(ref: Reference, t: Tables, a: Attempt)
    requires a.call.Enrolls? && StepOf(ref, t, a).Some?
    ensures
      var (id, req, s) := (t.nextEnrollment, a.call.req, a.call.req.sessionId);
      && s in t.sessions
      && AfterCall(ref, t, a) == t.(
           sessions := t.sessions[s := t.sessions[s].(enrolled := t.sessions[s].enrolled + 1,
                                                      version := t.sessions[s].version + 1)],
           enrollments :=
             t.enrollments[id := Enrollment(id, s, req.studentId, Confirmed, req.key, 1, a.call.clock.storedAt)],
           nextEnrollment := id + 1,
           audit := t.audit + [AuditEvent(a.call.p.accountId, a.call.requestId,
                                          EnrollmentConfirmed(id, s, req.studentId), a.call.clock.auditAt)])
  {
    EnrollEffect(ref, t, a.call.requestId, a.call.req, a.call.clock);
  }

  /** The confirmed enrollments of a session, from their columns. */
  ghost predicate Flips(t: Tables, e: Id, sessionId: Id) {
    e in t.enrollments && t.enrollments[e].sessionId == sessionId && t.enrollments[e].status.Confirmed?
  }

  /**
   * The session is canceled with its reason; each confirmed enrollment is due a make-up, with
   * an entitlement to it that was created now and expires when asked for; older entitlements
   * stay; one event counts the new ones.
   */
  lemma CancelWrites(ref: Reference, t: Tables, a: Attempt)
    requires a.call.Cancels? && StepOf(ref, t, a).Some?
    ensures
      var (s, u) := (a.call.sessionId, AfterCall(ref, t, a));
      && s in t.sessions
      && u == t.(sessions := u.sessions, enrollments := u.enrollments, entitlements := u.entitlements, audit := u.audit)
      && u.sessions == t.sessions[s := t.sessions[s].(status := Canceled, cancelReason := TrimSpace(a.call.reason),
                                                      version := t.sessions[s].version + 1)]
      && u.enrollments.Keys == t.enrollments.Keys
      && (forall e :: Flips(t, e, s) ==>
            u.enrollments[e] == t.enrollments[e].(status := MakeupDue, version := t.enrollments[e].version + 1))
      && (forall e :: e in t.enrollments && !Flips(t, e, s) ==> u.enrollments[e] == t.enrollments[e])
      && (forall e :: e in t.entitlements ==> e in u.entitlements && u.entitlements[e] == t.entitlements[e])
      && (forall e :: Flips(t, e, s) && e !in t.entitlements ==>
            e in u.entitlements && u.entitlements[e] == Entitlement(sessionId := s, expires := a.call.expiry,
                                                                    created := a.call.at))
      && (forall e :: e in u.entitlements ==> e in t.entitlements || Flips(t, e, s))
      && u.audit == t.audit + [AuditEvent(a.call.p.accountId, a.call.requestId,
           CourseCanceled(s, TrimSpace(a.call.reason), |u.entitlements| - |t.entitlements|), a.call.auditAt)]
  {
    CancelEffect(t, a.call.requestId, a.call.sessionId, a.call.reason, a.call.read, a.call.expiry, a.call.at);
    ClosingWrites(t, a.call.sessionId, TrimSpace(a.call.reason), a.call.expiry, a.call.at);
  }

  lemma ClosingWrites(t: Tables, s: Id, reason: string, expiry: Time, at: Time)
    requires Allowed(t, Closing(s, reason, expiry, at))
    ensures
      var u := Apply(t, Closing(s, reason, expiry, at));
      && u == t.(sessions := u.sessions, enrollments := u.enrollments, entitlements := u.entitlements)
      && u.sessions == t.sessions[s := t.sessions[s].(status := Canceled, cancelReason := reason,
                                                      version := t.sessions[s].version + 1)]
      && u.enrollments.Keys == t.enrollments.Keys
      && (forall e :: Flips(t, e, s) ==>
            u.enrollments[e] == t.enrollments[e].(status := MakeupDue, version := t.enrollments[e].version + 1))
      && (forall e :: e in t.enrollments && !Flips(t, e, s) ==> u.enrollments[e] == t.enrollments[e])
      && (forall e :: e in t.entitlements ==> e in u.entitlements && u.entitlements[e] == t.entitlements[e])
      && (forall e :: Flips(t, e, s) && e !in t.entitlements ==>
            e in u.entitlements && u.entitlements[e] == Entitlement(sessionId := s, expires := expiry, created := at))
      && (forall e :: e in u.entitlements ==> e in t.entitlements || Flips(t, e, s))
      && |NewEntitlements(t, s, expiry, at)| == |u.entitlements| - |t.entitlements|
  {
    var made := NewEntitlements(t, s, expiry, at);
    forall e ensures e in ConfirmedOf(t.enrollments, s) <==> Flips(t, e, s) {
    }
    forall e | Flips(t, e, s) && e !in t.entitlements ensures e in made && made[e] == Entitlement(s, expiry, at) {
      assert e in ConfirmedOf(t.enrollments, s);
    }
    assert (t.entitlements + made).Keys == t.entitlements.Keys + made.Keys;
    assert t.entitlements.Keys !! made.Keys;
    assert |(t.entitlements + made).Keys| == |t.entitlements.Keys| + |made.Keys|;
  }

  /** The item is checked out on a new active loan, one event. */
  lemma CheckoutWrites(ref: Reference, t: Tables, a: Attempt)
    requires a.call.ChecksOut? && StepOf(ref, t, a).Some?
    ensures
      var (i, l) := (a.call.equipmentId, t.nextLoan);
      && i in t.equipment
      && AfterCall(ref, t, a) == t.(
           equipment := t.equipment[i := t.equipment[i].(status := CheckedOut, version := t.equipment[i].version + 1)],
           loans := t.loans[l := Loan(l, i, a.call.studentId, a.call.forSession, a.call.p.accountId, Active,
                                      a.call.at, None, 1)],
           nextLoan := l + 1,
           audit := t.audit + [AuditEvent(a.call.p.accountId, a.call.requestId,
                                          EquipmentCheckedOut(i, l, a.call.studentId), a.call.auditAt)])
  {
    CheckoutEffect(ref, t, a.call.p, a.call.requestId, a.call.equipmentId, a.call.studentId, a.call.forSession,
                   a.call.now, a.call.at);
  }

  /** The loan is closed, its item freed or isolated, a case opened for damage, one event. */
  lemma ReturnWrites(ref: Reference, t: Tables, a: Attempt)
    requires a.call.Returns? && StepOf(ref, t, a).Some?
    ensures
      var (l, c, back) := (a.call.back.loanId, t.nextCase, a.call.back);
      && l in t.loans && t.loans[l].equipmentId in t.equipment
      && var i := t.loans[l].equipmentId;
         AfterCall(ref, t, a) == t.(
           loans := t.loans[l := t.loans[l].(status := if back.damaged then Damaged else Returned,
                                             returnedAt := Some(a.call.at), version := t.loans[l].version + 1)],
           equipment := t.equipment[i := t.equipment[i].(status := if back.damaged then Isolated else Available,
                                                         version := t.equipment[i].version + 1)],
           cases := if !back.damaged then t.cases
                    else t.cases[c := Case(c, i, Some(l), a.call.p.accountId, back.damageCode, back.responsibility,
                                           back.notes, a.call.at)],
           nextCase := if back.damaged then c + 1 else c,
           audit := t.audit + [AuditEvent(a.call.p.accountId, a.call.requestId,
                      EquipmentReturned(i, l, back.damaged, if back.damaged then Some(c) else None), a.call.auditAt)])
  {
    ReturnEffect(t, a.call.p, a.call.requestId, a.call.back, a.call.at);
  }

  /** The group counts on, the enrollment is its member, one event. */
  lemma AssignWrites(ref: Reference, t: Tables, a: Attempt)
    requires a.call.Assigns? && StepOf(ref, t, a).Some?
    ensures
      var (g, e) := (a.call.groupId, a.call.enrollmentId);
      && g in t.groups && t.groups[g].version == a.call.expectedVersion
      && AfterCall(ref, t, a) == t.(
           groups := t.groups[g := t.groups[g].(version := t.groups[g].version + 1)],
           members := t.members[e := g],
           audit := t.audit + [AuditEvent(a.call.p.accountId, a.call.requestId, MemberAssigned(g, e), a.call.auditAt)])
  {
    AssignsExactlyWhen(ref, t, a.call.p, a.call.requestId, a.call.enrollmentId, a.call.groupId, a.call.expectedVersion);
  }

  /** The assessment is graded, passed from seventy on; a pass certifies; one event. */
  lemma PublishWrites(ref: Reference, t: Tables, a: Attempt)
    requires a.call.Publishes? && StepOf(ref, t, a).Some?
    ensures
      var (i, grade) := (a.call.grade.assessmentId, a.call.grade);
      && i in t.assessments && t.assessments[i].version == grade.expectedVersion
      && var row := t.assessments[i];
         var key := CertKey(row.studentId, row.sport, row.level);
         AfterCall(ref, t, a) == t.(
           assessments := t.assessments[i := row.(status := if 70 <= grade.score then Passed else AssessmentFailed,
                                                  score := grade.score, notes := TrimSpace(grade.notes),
                                                  version := row.version + 1)],
           certs := if grade.score < 70 then t.certs
                    else t.certs[key := Certification(row.examinerId, a.call.at,
                                                      if key in t.certs then t.certs[key].expires else None)],
           audit := t.audit + [AuditEvent(a.call.p.accountId, a.call.requestId,
                                          AssessmentPublished(i, 70 <= grade.score, grade.score), a.call.auditAt)])
  {
    PublishEffect(ref, t, a.call.p, a.call.requestId, a.call.grade, a.call.from, a.call.until, a.call.at);
  }
}
