/**
 * What each service call decides: the first guard that refuses, in the order of the code,
 * or the effect its transaction commits.
 */
module Services {
  import opened Wrappers
  import opened Calendar
  import opened TimeText
  import opened Age
  import opened States
  import opened Schema

  datatype Role = GuardianRole | CoachRole | EquipmentManagerRole | AdministratorRole
  datatype Principal = Principal(accountId: Id, role: Role)

  datatype HubError =
    | EnrollmentForbidden | InvalidEnrollment | PayloadMismatch | TargetNotFound | SessionClosed
    | MinimumAgeNotMet | ConsentRequired | PrerequisiteMissing | CoachUnqualified
    | VersionConflict | InsertFailed | InvalidAudit | CommitFailed
    | CancelForbidden | CancelReasonRequired | SessionNotFound | TransitionRefused(reason: TransitionError)
    | CheckoutForbidden | InvalidCheckout | EquipmentUnavailable | InspectionExpired
    | StudentNotEnrolled | SportMismatch | FitMismatch
    | ReturnForbidden | DamageDetailsRequired | LoanNotFound
    | AssignmentForbidden | GroupNotFound | EnrollmentNotFound | GroupMismatch | CoachGroupMismatch | GroupFull
    | AssessmentForbidden | InvalidAssessment | AssessmentNotFound | ExaminerMismatch | ExaminerUnqualified

  // ----- texts

  predicate IsSpace(c: char) { c == ' ' || '\t' <= c <= '\r' }

  predicate Blank(s: string) { forall i :: 0 <= i < |s| ==> IsSpace(s[i]) }

  function TrimLeft(s: string): string {
    if s != "" && IsSpace(s[0]) then TrimLeft(s[1..]) else s
  }

  function TrimRight(s: string): string {
    if s != "" && IsSpace(s[|s| - 1]) then TrimRight(s[..|s| - 1]) else s
  }

  function TrimSpace(s: string): string { TrimRight(TrimLeft(s)) }

  /** AppendAudit accepts an event of these objects only. */
  predicate AuditAccepts(requestId: string, objectId: Id) { !Blank(requestId) && objectId >= 1 }

  // ----- enrollment

  datatype EnrollRequest = EnrollRequest(studentId: Id, sessionId: Id, key: string)

  /** The readings of the clock during one enrollment. */
  datatype EnrollClock = EnrollClock(snapshotAt: Time, openAt: Time, storedAt: Time, auditAt: Time)

  datatype EnrollmentSnapshot = EnrollmentSnapshot(
    student: Student, session: Session, template: Template,
    consentValid: bool, prerequisitesMet: bool, coachQualified: bool)

  predicate ConsentValid(ref: Reference, studentId: Id, at: Time, ends: Time) {
    exists c :: c in ref.consents && c.studentId == studentId && c.forSports && c.revoked.None?
                && TextAtMost(c.granted, at) && TextBefore(ends, c.expires)
  }

  predicate Certified(certs: map<CertKey, Certification>, studentId: Id, p: Prerequisite, starts: Time) {
    exists k :: k in certs && k.studentId == studentId && k.sport == p.sport && k.level >= p.level
                && (certs[k].expires.None? || TextBefore(starts, certs[k].expires.value))
  }

  predicate PrerequisitesMet(ref: Reference, certs: map<CertKey, Certification>, templateId: Id, studentId: Id,
        starts: Time) {
    forall p :: p in ref.prerequisites && p.templateId == templateId ==> Certified(certs, studentId, p, starts)
  }

  predicate CoachQualified(ref: Reference, coachId: Id, sport: string, level: int, from: Time, until: Time) {
    exists q :: q in ref.qualifications && q.coachId == coachId && q.sport == sport && q.level >= level && q.active
                && TextAtMost(q.from, from) && TextAtMost(until, q.until)
  }

  function SnapshotOf(ref: Reference, t: Tables, studentId: Id, sessionId: Id, at: Time): Option<EnrollmentSnapshot> {
    if studentId !in ref.students || sessionId !in t.sessions
      || t.sessions[sessionId].templateId !in ref.templates then None
    else
      var session := t.sessions[sessionId];
      var template := ref.templates[session.templateId];
      Some(EnrollmentSnapshot(ref.students[studentId], session, template,
        ConsentValid(ref, studentId, at, session.ends),
        PrerequisitesMet(ref, t.certs, session.templateId, studentId, session.starts),
        CoachQualified(ref, session.coachId, template.sport, template.level, session.starts, session.ends)))
  }

  /** The eligibility guards on a snapshot. */
  function Ineligible(s: EnrollmentSnapshot, openAt: Time): Option<HubError> {
    if !s.session.status.Scheduled? || !Earlier(openAt, s.session.starts) then Some(SessionClosed)
    else if AgeAt(s.student.birth, s.session.starts) < s.template.minimumAge then Some(MinimumAgeNotMet)
    else if IsMinor(s.student.birth, s.session.starts) && !s.consentValid then Some(ConsentRequired)
    else if !s.prerequisitesMet then Some(PrerequisiteMissing)
    else if !s.coachQualified then Some(CoachUnqualified)
    else None
  }

  function EnrollRefused(p: Principal, req: EnrollRequest): Option<HubError> {
    if !(p.role.GuardianRole? || p.role.AdministratorRole?) then Some(EnrollmentForbidden)
    else if req.studentId < 1 || req.sessionId < 1 || Blank(req.key) then Some(InvalidEnrollment)
    else None
  }

  function NewEnrollment(t: Tables, studentId: Id, sessionId: Id, key: string, at: Time): Enrollment {
    Enrollment(t.nextEnrollment, sessionId, studentId, Confirmed, key, 1, at)
  }

  /** ReserveEnrollment: the conditional counter update, then the insert with its unique keys. */
  function Reservation(t: Tables, studentId: Id, sessionId: Id, version: int, key: string,
        at: Time): (d: Result<Effect, HubError>)
    ensures d.Ok? ==> Allowed(t, d.value)
  {
    if sessionId !in t.sessions || t.sessions[sessionId].version != version || !t.sessions[sessionId].status.Scheduled?
       || t.sessions[sessionId].enrolled >= t.sessions[sessionId].capacity then Err(VersionConflict)
    else if KeyUsed(t.enrollments, key) || PairUsed(t.enrollments, sessionId, studentId) then Err(InsertFailed)
    else Ok(Seat(NewEnrollment(t, studentId, sessionId, key, at)))
  }

  /** The transaction of Enroll, after its lookup found no enrollment with the key. */
  function Enrolling(ref: Reference, t: Tables, requestId: string, req: EnrollRequest,
        clock: EnrollClock): (d: Result<Effect, HubError>)
    ensures d.Ok? ==> Allowed(t, d.value)
  {
    match SnapshotOf(ref, t, req.studentId, req.sessionId, clock.snapshotAt)
    case None => Err(TargetNotFound)
    case Some(snapshot) =>
      match Ineligible(snapshot, clock.openAt)
      case Some(error) => Err(error)
      case None =>
        match Reservation(t, req.studentId, req.sessionId, snapshot.session.version, req.key, clock.storedAt)
        case Err(error) => Err(error)
        case Ok(effect) => if AuditAccepts(requestId, t.nextEnrollment) then Ok(effect) else Err(InvalidAudit)
  }

  // ----- cancellation

  function CancelRefused(p: Principal, reason: string): Option<HubError> {
    if !p.role.AdministratorRole? then Some(CancelForbidden)
    else if TrimSpace(reason) == "" then Some(CancelReasonRequired)
    else None
  }

  /** ValidateTransition on typed states; module States relates it to the texts. */
  function CheckCourse(from: CourseStatus, to: CourseStatus): Option<HubError> {
    if from == to then Some(TransitionRefused(UnchangedState))
    else if CourseEdge(from, to) then None else Some(TransitionRefused(IllegalTransition))
  }

  function CheckLoan(from: LoanStatus, to: LoanStatus): Option<HubError> {
    if from == to then Some(TransitionRefused(UnchangedState))
    else if LoanEdge(from, to) then None else Some(TransitionRefused(IllegalTransition))
  }

  function CheckAssessment(from: AssessmentStatus, to: AssessmentStatus): Option<HubError> {
    if from == to then Some(TransitionRefused(UnchangedState))
    else if AssessmentEdge(from, to) then None else Some(TransitionRefused(IllegalTransition))
  }

  /** CancelSessionRows with the version of a session row read before the transaction. */
  function Cancellation(t: Tables, sessionId: Id, reason: string, version: int, expiry: Time,
        at: Time): (d: Result<Effect, HubError>)
    ensures d.Ok? ==> Allowed(t, d.value)
  {
    if sessionId !in t.sessions || t.sessions[sessionId].version != version
      || !t.sessions[sessionId].status.Scheduled? then
      Err(VersionConflict)
    else Ok(Closing(sessionId, reason, expiry, at))
  }

  function Canceling(t: Tables, requestId: string, sessionId: Id, reason: string, read: Session, expiry: Time,
        at: Time): (d: Result<Effect, HubError>)
    ensures d.Ok? ==> Allowed(t, d.value)
  {
    match CheckCourse(read.status, Canceled)
    case Some(error) => Err(error)
    case None =>
      match Cancellation(t, sessionId, TrimSpace(reason), read.version, expiry, at)
      case Err(error) => Err(error)
      case Ok(effect) => if AuditAccepts(requestId, sessionId) then Ok(effect) else Err(InvalidAudit)
  }

  // ----- checkout and return

  datatype CheckoutSnapshot = CheckoutSnapshot(item: Equipment, student: Student, sport: string, enrolled: bool,
      inspectionValid: bool)

  predicate InspectionValid(ref: Reference, equipmentId: Id, now: Time) {
    exists i :: i in ref.inspections && i.equipmentId == equipmentId && i.passed && TextBefore(now, i.validUntil)
  }

  /** The confirmed enrollments of a student in a session. */
  function ConfirmedRows(enrollments: map<Id, Enrollment>, studentId: Id, sessionId: Id): set<Id> {
    set e | e in enrollments && enrollments[e].studentId == studentId && enrollments[e].sessionId == sessionId
            && enrollments[e].status.Confirmed?
  }

  predicate IsEnrolled(enrollments: map<Id, Enrollment>, studentId: Id, sessionId: Id) {
    |ConfirmedRows(enrollments, studentId, sessionId)| == 1
  }

  function CheckoutSnapshotOf(ref: Reference, t: Tables, equipmentId: Id, studentId: Id, sessionId: Id,
        now: Time): Option<CheckoutSnapshot> {
    if equipmentId !in t.equipment || studentId !in ref.students || sessionId !in t.sessions
       || t.sessions[sessionId].templateId !in ref.templates then None
    else
      Some(CheckoutSnapshot(t.equipment[equipmentId], ref.students[studentId],
        ref.templates[t.sessions[sessionId].templateId].sport,
        IsEnrolled(t.enrollments, studentId, sessionId), InspectionValid(ref, equipmentId, now)))
  }

  function Unfit(s: CheckoutSnapshot): Option<HubError> {
    if !s.item.status.Available? then Some(EquipmentUnavailable)
    else if !s.inspectionValid then Some(InspectionExpired)
    else if !s.enrolled then Some(StudentNotEnrolled)
    else if s.item.sport != s.sport then Some(SportMismatch)
    else if s.item.size != (if s.item.kind.Shoes? then s.student.shoeSize else s.student.helmetSize)
      then Some(FitMismatch)
    else None
  }

  function CheckoutRefused(p: Principal, equipmentId: Id, studentId: Id, sessionId: Id): Option<HubError> {
    if !(p.role.EquipmentManagerRole? || p.role.AdministratorRole?) then Some(CheckoutForbidden)
    else if equipmentId < 1 || studentId < 1 || sessionId < 1 then Some(InvalidCheckout)
    else None
  }

  function NewLoan(t: Tables, equipmentId: Id, studentId: Id, sessionId: Id, actorId: Id, at: Time): Loan {
    Loan(t.nextLoan, equipmentId, studentId, sessionId, actorId, Active, at, None, 1)
  }

  /** AcquireEquipment: the conditional update, then the insert under the active-loan index. */
  function Acquisition(t: Tables, equipmentId: Id, version: int, studentId: Id, sessionId: Id, actorId: Id,
        at: Time): (d: Result<Effect, HubError>)
    ensures d.Ok? ==> Allowed(t, d.value)
  {
    if equipmentId !in t.equipment || t.equipment[equipmentId].version != version
      || !t.equipment[equipmentId].status.Available? then
      Err(VersionConflict)
    else if ActiveLoans(t.loans, equipmentId) != {} then Err(InsertFailed)
    else Ok(Lending(NewLoan(t, equipmentId, studentId, sessionId, actorId, at)))
  }

  function CheckingOut(ref: Reference, t: Tables, p: Principal, requestId: string, equipmentId: Id, studentId: Id,
        sessionId: Id,
                       now: Time, at: Time): (d: Result<Effect, HubError>)
    ensures d.Ok? ==> Allowed(t, d.value)
  {
    match CheckoutSnapshotOf(ref, t, equipmentId, studentId, sessionId, now)
    case None => Err(TargetNotFound)
    case Some(snapshot) =>
      match Unfit(snapshot)
      case Some(error) => Err(error)
      case None =>
        match Acquisition(t, equipmentId, snapshot.item.version, studentId, sessionId, p.accountId, at)
        case Err(error) => Err(error)
        case Ok(effect) => if AuditAccepts(requestId, equipmentId) then Ok(effect) else Err(InvalidAudit)
  }

  datatype ReturnRequest = ReturnRequest(loanId: Id, damaged: bool, damageCode: string, responsibility: string,
      notes: string)

  function ReturnRefused(p: Principal, req: ReturnRequest): Option<HubError> {
    if !(p.role.EquipmentManagerRole? || p.role.AdministratorRole?) then Some(ReturnForbidden)
    else if req.damaged && (Blank(req.damageCode) || Blank(req.responsibility)) then Some(DamageDetailsRequired)
    else None
  }

  function NewCase(t: Tables, equipmentId: Id, req: ReturnRequest, actorId: Id, at: Time): Case {
    Case(t.nextCase, equipmentId, Some(req.loanId), actorId, req.damageCode, req.responsibility, req.notes, at)
  }

  /** CompleteReturn on a loan and an equipment version: two conditional updates, then the case. */
  function Completion(t: Tables, req: ReturnRequest, loanVersion: int, itemVersion: int, actorId: Id,
        at: Time): (d: Result<Effect, HubError>)
    ensures d.Ok? ==> Allowed(t, d.value)
  {
    if req.loanId !in t.loans || t.loans[req.loanId].version != loanVersion || !t.loans[req.loanId].status.Active? then
      Err(VersionConflict)
    else
      var i := t.loans[req.loanId].equipmentId;
      if i !in t.equipment || t.equipment[i].version != itemVersion
        || !t.equipment[i].status.CheckedOut? then Err(VersionConflict)
      else Ok(Effect.Return(req.loanId, if req.damaged then Some(NewCase(t, i, req, actorId, at)) else None, at))
  }

  function Returning(t: Tables, p: Principal, requestId: string, req: ReturnRequest, at: Time): (d: Result<Effect,
        HubError>)
    ensures d.Ok? ==> Allowed(t, d.value)
  {
    if req.loanId !in t.loans || t.loans[req.loanId].equipmentId !in t.equipment then Err(LoanNotFound)
    else
      var loan := t.loans[req.loanId];
      match CheckLoan(loan.status, if req.damaged then Damaged else Returned)
      case Some(error) => Err(error)
      case None =>
        match Completion(t, req, loan.version, t.equipment[loan.equipmentId].version, p.accountId, at)
        case Err(error) => Err(error)
        case Ok(effect) => if AuditAccepts(requestId, loan.equipmentId) then Ok(effect) else Err(InvalidAudit)
  }

  // ----- groups

  function AssignRefused(ref: Reference, t: Tables, p: Principal, enrollmentId: Id, groupId: Id): Option<HubError> {
    if !(p.role.CoachRole? || p.role.AdministratorRole?) then Some(AssignmentForbidden)
    else if groupId !in t.groups || t.groups[groupId].coachId !in ref.coachAccounts then Some(GroupNotFound)
    else if enrollmentId !in t.enrollments then Some(EnrollmentNotFound)
    else
      var (group, enrollment) := (t.groups[groupId], t.enrollments[enrollmentId]);
      if enrollment.sessionId != group.sessionId || !enrollment.status.Confirmed? then Some(GroupMismatch)
      else if ref.coachAccounts[group.coachId] != p.accountId
        && !p.role.AdministratorRole? then Some(CoachGroupMismatch)
      else if |MembersOf(t.members, groupId)| >= group.capacity then Some(GroupFull)
      else None
  }

  function Assigning(ref: Reference, t: Tables, p: Principal, requestId: string, enrollmentId: Id, groupId: Id,
        expectedVersion: int): (d: Result<Effect, HubError>)
    ensures d.Ok? ==> Allowed(t, d.value)
  {
    match AssignRefused(ref, t, p, enrollmentId, groupId)
    case Some(error) => Err(error)
    case None =>
      if t.groups[groupId].version != expectedVersion then Err(VersionConflict)
      else if enrollmentId in t.members then Err(InsertFailed)
      else if !AuditAccepts(requestId, groupId) then Err(InvalidAudit)
      else Ok(Joining(groupId, enrollmentId))
  }

  // ----- assessments

  datatype PublishRequest = PublishRequest(assessmentId: Id, score: int, notes: string, expectedVersion: int)

  predicate ExaminerQualified(ref: Reference, account: Id, sport: string, level: int, from: Time, until: Time) {
    exists q :: q in ref.qualifications && q.coachId in ref.coachAccounts && ref.coachAccounts[q.coachId] == account
                && q.sport == sport && q.level >= level && q.active && TextAtMost(q.from, from)
                  && TextAtMost(until, q.until)
  }

  function PublishTarget(score: int): AssessmentStatus { if score >= PASS_MARK then Passed else AssessmentFailed }

  function PublishRefused(ref: Reference, t: Tables, p: Principal, req: PublishRequest, from: Time,
        until: Time): Option<HubError> {
    if !(p.role.CoachRole? || p.role.AdministratorRole?) then Some(AssessmentForbidden)
    else if req.score < 0 || req.score > 100 || req.assessmentId < 1 then Some(InvalidAssessment)
    else if req.assessmentId !in t.assessments || t.assessments[req.assessmentId].examinerId !in ref.coachAccounts then
      Some(AssessmentNotFound)
    else
      var a := t.assessments[req.assessmentId];
      var account := ref.coachAccounts[a.examinerId];
      if account != p.accountId && !p.role.AdministratorRole? then Some(ExaminerMismatch)
      else
        match CheckAssessment(a.status, PublishTarget(req.score))
        case Some(error) => Some(error)
        case None => if ExaminerQualified(ref, account, a.sport, a.level, from, until) then None
          else Some(ExaminerUnqualified)
  }

  function Publication(ref: Reference, t: Tables, p: Principal, requestId: string, req: PublishRequest, from: Time,
        until: Time, at: Time): (d: Result<Effect, HubError>)
    ensures d.Ok? ==> Allowed(t, d.value)
  {
    match PublishRefused(ref, t, p, req, from, until)
    case Some(error) => Err(error)
    case None =>
      if t.assessments[req.assessmentId].version != req.expectedVersion then Err(VersionConflict)
      else if !AuditAccepts(requestId, req.assessmentId) then Err(InvalidAudit)
      else Ok(Publishing(req.assessmentId, req.score, TrimSpace(req.notes), at))
  }
}
