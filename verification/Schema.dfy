/**
 * The tables of the hub, and the effects a committed transaction has on them. UNIQUE keys
 * of one column are map keys; the others are checked where rows are inserted.
 */
module Schema {
  import opened Wrappers
  import opened Calendar
  import opened States

  type Id = int

  /** A stored time. */
  type Time = t: Instant | t.Valid() witness Instant(0, 0)

  // ----- tables no operation of the hub writes

  datatype Student = Student(birth: Time, shoeSize: string, helmetSize: string)
  datatype Template = Template(sport: string, level: int, minimumAge: int)
  datatype Consent = Consent(studentId: Id, forSports: bool, granted: Time, expires: Time, revoked: Option<Time>)
  datatype Prerequisite = Prerequisite(templateId: Id, sport: string, level: int)
  datatype Qualification = Qualification(coachId: Id, sport: string, level: int, from: Time, until: Time, active: bool)
  datatype Inspection = Inspection(equipmentId: Id, passed: bool, validUntil: Time)

  datatype Reference = Reference(
    students: map<Id, Student>, templates: map<Id, Template>, coachAccounts: map<Id, Id>,
    consents: seq<Consent>, prerequisites: seq<Prerequisite>,
    qualifications: seq<Qualification>, inspections: seq<Inspection>)

  // ----- rows

  datatype Session = Session(templateId: Id, coachId: Id, starts: Time, ends: Time, status: CourseStatus,
                             capacity: int, enrolled: int, version: int, cancelReason: string)
  datatype Enrollment = Enrollment(id: Id, sessionId: Id, studentId: Id, status: EnrollmentStatus,
                                   key: string, version: int, created: Time)
  datatype Entitlement = Entitlement(sessionId: Id, expires: Time, created: Time)
  datatype Group = Group(sessionId: Id, coachId: Id, capacity: int, version: int)
  datatype Assessment = Assessment(studentId: Id, examinerId: Id, sport: string, level: int,
                                   status: AssessmentStatus, score: int, notes: string, version: int)
  datatype CertKey = CertKey(studentId: Id, sport: string, level: int)
  datatype Certification = Certification(grantedBy: Id, granted: Time, expires: Option<Time>)
  datatype EquipmentKind = Shoes | OtherKind(name: string)
  datatype Equipment = Equipment(kind: EquipmentKind, sport: string, size: string, status: EquipmentStatus,
      version: int)
  datatype Loan = Loan(id: Id, equipmentId: Id, studentId: Id, sessionId: Id, issuedBy: Id, status: LoanStatus,
                       checkedOutAt: Time, returnedAt: Option<Time>, version: int)
  datatype Case = Case(id: Id, equipmentId: Id, loanId: Option<Id>, openedBy: Id, damageCode: string,
                       responsibility: string, notes: string, openedAt: Time)

  // ----- audit

  datatype Action =
    | EnrollmentConfirmed(enrollmentId: Id, sessionId: Id, studentId: Id)
    | CourseCanceled(sessionId: Id, reason: string, makeups: int)
    | EquipmentCheckedOut(equipmentId: Id, loanId: Id, studentId: Id)
    | EquipmentReturned(equipmentId: Id, loanId: Id, damaged: bool, maintenanceId: Option<Id>)
    | AssessmentPublished(assessmentId: Id, passed: bool, score: int)
    | MemberAssigned(groupId: Id, enrollmentId: Id)
  {
    function ObjectId(): Id {
      match this
      case EnrollmentConfirmed(id, _, _) => id
      case CourseCanceled(id, _, _) => id
      case EquipmentCheckedOut(id, _, _) => id
      case EquipmentReturned(id, _, _, _) => id
      case AssessmentPublished(id, _, _) => id
      case MemberAssigned(id, _) => id
    }
  }

  datatype AuditEvent = AuditEvent(actorId: Id, requestId: string, action: Action, at: Time)

  datatype Tables = Tables(
    sessions: map<Id, Session>,
    enrollments: map<Id, Enrollment>, nextEnrollment: Id,
    entitlements: map<Id, Entitlement>,   // by enrollment
    groups: map<Id, Group>,
    members: map<Id, Id>,                 // group by enrollment
    assessments: map<Id, Assessment>,
    certs: map<CertKey, Certification>,
    equipment: map<Id, Equipment>,
    loans: map<Id, Loan>, nextLoan: Id,
    cases: map<Id, Case>, nextCase: Id,
    audit: seq<AuditEvent>)

  // ----- row sets

  function EnrollmentsOf(enrollments: map<Id, Enrollment>, sessionId: Id): set<Id> {
    set e | e in enrollments && enrollments[e].sessionId == sessionId
  }

  /** The enrollments a cancellation turns into make-ups. */
  function ConfirmedOf(enrollments: map<Id, Enrollment>, sessionId: Id): set<Id> {
    set e | e in enrollments && enrollments[e].sessionId == sessionId && enrollments[e].status.Confirmed?
  }

  function MembersOf(members: map<Id, Id>, groupId: Id): set<Id> {
    set e | e in members && members[e] == groupId
  }

  function ActiveLoans(loans: map<Id, Loan>, equipmentId: Id): set<Id> {
    set l | l in loans && loans[l].equipmentId == equipmentId && loans[l].status.Active?
  }

  function ClosedLoans(loans: map<Id, Loan>, equipmentId: Id): set<Id> {
    set l | l in loans && loans[l].equipmentId == equipmentId && !loans[l].status.Active?
  }

  predicate KeyUsed(enrollments: map<Id, Enrollment>, key: string) {
    exists e :: e in enrollments && enrollments[e].key == key
  }

  predicate PairUsed(enrollments: map<Id, Enrollment>, sessionId: Id, studentId: Id) {
    exists e :: e in enrollments && enrollments[e].sessionId == sessionId && enrollments[e].studentId == studentId
  }

  // ----- effects

  /** What a committed transaction writes besides its audit event. */
  datatype Effect =
    | Seat(row: Enrollment)
    | Closing(sessionId: Id, reason: string, expiry: Time, at: Time)
    | Lending(loan: Loan)
    | Return(loanId: Id, damage: Option<Case>, at: Time)
    | Joining(groupId: Id, enrollmentId: Id)
    | Publishing(assessmentId: Id, score: int, notes: string, at: Time)

  const PASS_MARK := 70

  function SeatedSession(s: Session): Session {
    s.(enrolled := s.enrolled + 1, version := s.version + 1)
  }

  function ClosedSession(s: Session, reason: string): Session {
    s.(status := Canceled, cancelReason := reason, version := s.version + 1)
  }

  function DueEnrollment(e: Enrollment): Enrollment {
    e.(status := MakeupDue, version := e.version + 1)
  }

  function ClosedEnrollments(enrollments: map<Id, Enrollment>, sessionId: Id): map<Id, Enrollment> {
    map e | e in enrollments ::
      if e in ConfirmedOf(enrollments, sessionId) then DueEnrollment(enrollments[e]) else enrollments[e]
  }

  /** The entitlements a cancellation makes: those that are not there yet. */
  function NewEntitlements(t: Tables, sessionId: Id, expiry: Time, at: Time): map<Id, Entitlement> {
    map e | e in ConfirmedOf(t.enrollments, sessionId) && e !in t.entitlements :: Entitlement(sessionId, expiry, at)
  }

  function ClosedLoan(l: Loan, damaged: bool, at: Time): Loan {
    l.(status := if damaged then Damaged else Returned, returnedAt := Some(at), version := l.version + 1)
  }

  function PublishedAssessment(a: Assessment, score: int, notes: string): Assessment {
    a.(status := if score >= PASS_MARK then Passed else AssessmentFailed, score := score, notes := notes,
       version := a.version + 1)
  }

  function KeyOf(a: Assessment): CertKey { CertKey(a.studentId, a.sport, a.level) }

  /** The certifications after a pass: one that is there keeps its expiry. */
  function Granted(certs: map<CertKey, Certification>, a: Assessment, at: Time): map<CertKey, Certification> {
    var key := KeyOf(a);
    certs[key := Certification(a.examinerId, at, if key in certs then certs[key].expires else None)]
  }

  /** When the statements of a transaction all succeed, uniqueness and foreign keys included. */
  ghost predicate Allowed(t: Tables, e: Effect) {
    match e
    case Seat(row) =>
      && row.id == t.nextEnrollment && row.status.Confirmed? && row.version == 1
      && row.sessionId in t.sessions && t.sessions[row.sessionId].status.Scheduled?
      && t.sessions[row.sessionId].enrolled < t.sessions[row.sessionId].capacity
      && !KeyUsed(t.enrollments, row.key) && !PairUsed(t.enrollments, row.sessionId, row.studentId)
    case Closing(sessionId, _, _, _) => sessionId in t.sessions && t.sessions[sessionId].status.Scheduled?
    case Lending(loan) =>
      && loan.id == t.nextLoan && loan.status.Active? && loan.version == 1
      && loan.equipmentId in t.equipment && t.equipment[loan.equipmentId].status.Available?
      && ActiveLoans(t.loans, loan.equipmentId) == {}
    case Return(loanId, damage, _) =>
      && loanId in t.loans && t.loans[loanId].status.Active?
      && t.loans[loanId].equipmentId in t.equipment && t.equipment[t.loans[loanId].equipmentId].status.CheckedOut?
      && (damage.Some? ==>
            damage.value.id == t.nextCase && damage.value.equipmentId == t.loans[loanId].equipmentId
            && damage.value.loanId == Some(loanId))
    case Joining(groupId, enrollmentId) =>
      && groupId in t.groups && enrollmentId in t.enrollments && enrollmentId !in t.members
      && t.enrollments[enrollmentId].sessionId == t.groups[groupId].sessionId
      && t.enrollments[enrollmentId].status.Confirmed?
      && |MembersOf(t.members, groupId)| < t.groups[groupId].capacity
    case Publishing(assessmentId, score, _, _) =>
      && assessmentId in t.assessments && t.assessments[assessmentId].status.Submitted? && 0 <= score <= 100
  }

  function Apply(t: Tables, e: Effect): Tables
    requires Allowed(t, e)
  {
    match e
    case Seat(row) =>
      t.(sessions := t.sessions[row.sessionId := SeatedSession(t.sessions[row.sessionId])],
         enrollments := t.enrollments[row.id := row], nextEnrollment := row.id + 1)
    case Closing(sessionId, reason, expiry, at) =>
      t.(sessions := t.sessions[sessionId := ClosedSession(t.sessions[sessionId], reason)],
         entitlements := t.entitlements + NewEntitlements(t, sessionId, expiry, at),
         enrollments := ClosedEnrollments(t.enrollments, sessionId))
    case Lending(loan) =>
      var item := t.equipment[loan.equipmentId];
      t.(equipment := t.equipment[loan.equipmentId := item.(status := CheckedOut, version := item.version + 1)],
         loans := t.loans[loan.id := loan], nextLoan := loan.id + 1)
    case Return(loanId, damage, at) =>
      var loan := t.loans[loanId];
      var item := t.equipment[loan.equipmentId];
      t.(loans := t.loans[loanId := ClosedLoan(loan, damage.Some?, at)],
         equipment := t.equipment[loan.equipmentId :=
           item.(status := if damage.Some? then Isolated else Available, version := item.version + 1)],
         cases := if damage.Some? then t.cases[damage.value.id := damage.value] else t.cases,
         nextCase := if damage.Some? then t.nextCase + 1 else t.nextCase)
    case Joining(groupId, enrollmentId) =>
      var group := t.groups[groupId];
      t.(groups := t.groups[groupId := group.(version := group.version + 1)],
         members := t.members[enrollmentId := groupId])
    case Publishing(assessmentId, score, notes, at) =>
      var a := t.assessments[assessmentId];
      t.(assessments := t.assessments[assessmentId := PublishedAssessment(a, score, notes)],
         certs := if score >= PASS_MARK then Granted(t.certs, a, at) else t.certs)
  }

  /** The audit action that reports an effect. */
  function ActionOf(t: Tables, e: Effect): Action
    requires Allowed(t, e)
  {
    match e
    case Seat(row) => EnrollmentConfirmed(row.id, row.sessionId, row.studentId)
    case Closing(sessionId, reason, expiry, at) =>
      CourseCanceled(sessionId, reason, |NewEntitlements(t, sessionId, expiry, at)|)
    case Lending(loan) => EquipmentCheckedOut(loan.equipmentId, loan.id, loan.studentId)
    case Return(loanId, damage, _) =>
      EquipmentReturned(t.loans[loanId].equipmentId, loanId, damage.Some?, if damage.Some? then Some(damage.value.id)
        else None)
    case Joining(groupId, enrollmentId) => MemberAssigned(groupId, enrollmentId)
    case Publishing(assessmentId, score, _, _) => AssessmentPublished(assessmentId, score >= PASS_MARK, score)
  }
}
