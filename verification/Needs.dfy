/** What each operation needs of the rows, in terms of their columns alone. */
module Needs {
  import opened Wrappers
  import opened TimeText
  import opened Birthdays
  import opened Schema
  import opened Services

  // ----- texts and traces

  /** The ASCII white space: tab, line feed, vertical tab, form feed, carriage return, blank. */
  predicate White(c: char) { (c as int) in {9, 10, 11, 12, 13, 32} }

  /** A text with something to read in it. */
  ghost predicate Inked(s: string) { exists i :: 0 <= i < |s| && !White(s[i]) }

  ghost predicate Traceable(requestId: string, objectId: Id) { Inked(requestId) && objectId >= 1 }

  lemma BlankIsNotInked(s: string)
    ensures Blank(s) <==> !Inked(s)
  {
    forall i | 0 <= i < |s| ensures IsSpace(s[i]) <==> White(s[i]) {
    }
  }

  lemma AcceptedIsTraceable(requestId: string, objectId: Id)
    ensures AuditAccepts(requestId, objectId) <==> Traceable(requestId, objectId)
  {
    BlankIsNotInked(requestId);
  }

  lemma {:induction false} TrimmedLeft(s: string) returns (head: string)
    ensures s == head + TrimLeft(s) && !Inked(head)
    ensures TrimLeft(s) != "" ==> !White(TrimLeft(s)[0])
  {
    if s != "" && IsSpace(s[0]) {
      head := TrimmedLeft(s[1..]);
      head := [s[0]] + head;
      assert s == [s[0]] + s[1..];
    } else {
      head := "";
    }
  }

  lemma {:induction false} TrimmedRight(s: string) returns (tail: string)
    ensures s == TrimRight(s) + tail && !Inked(tail)
    ensures TrimRight(s) != "" ==> !White(TrimRight(s)[|TrimRight(s)| - 1])
  {
    if s != "" && IsSpace(s[|s| - 1]) {
      tail := TrimmedRight(s[..|s| - 1]);
      tail := tail + [s[|s| - 1]];
      assert s == s[..|s| - 1] + [s[|s| - 1]];
    } else {
      tail := "";
    }
  }

  lemma {:induction false} TrimRightKeeps(s: string)
    requires s != "" && !White(s[0])
    ensures TrimRight(s) != ""
  {
    if IsSpace(s[|s| - 1]) {
      TrimRightKeeps(s[..|s| - 1]);
    }
  }

  /** Trimming takes off white space at both ends, and only there, and leaves none at either. */
  lemma TrimmedText(s: string) returns (head: string, tail: string)
    ensures s == head + TrimSpace(s) + tail && !Inked(head) && !Inked(tail)
    ensures var t := TrimSpace(s); t != "" ==> !White(t[0]) && !White(t[|t| - 1])
    ensures TrimSpace(s) == "" <==> !Inked(s)
  {
    head := TrimmedLeft(s);
    tail := TrimmedRight(TrimLeft(s));
    if TrimLeft(s) != "" {
      TrimRightKeeps(TrimLeft(s));
      assert TrimSpace(s)[0] == TrimLeft(s)[0] == s[|head|];
    }
  }

  // ----- enrollment

  ghost predicate Found(ref: Reference, t: Tables, studentId: Id, sessionId: Id) {
    studentId in ref.students && sessionId in t.sessions && t.sessions[sessionId].templateId in ref.templates
  }

  ghost predicate OpenFor(session: Session, now: Time) {
    && session.status.Scheduled?
    && (now.sec < session.starts.sec || (now.sec == session.starts.sec && now.nano < session.starts.nano))
  }

  /** A consent to sports that stands, is granted by now and outlasts the session. */
  ghost predicate Consented(ref: Reference, studentId: Id, now: Time, ends: Time) {
    exists c :: c in ref.consents && c.studentId == studentId && c.forSports && c.revoked == None
                && !TextBefore(now, c.granted) && TextBefore(ends, c.expires)
  }

  /** A certification at the level or above that does not expire by the start. */
  ghost predicate Holds(certs: map<CertKey, Certification>, studentId: Id, sport: string, level: int, starts: Time) {
    exists k :: k in certs && k.studentId == studentId && k.sport == sport && level <= k.level
                && (certs[k].expires == None || TextBefore(starts, certs[k].expires.value))
  }

  ghost predicate Prepared(ref: Reference, certs: map<CertKey, Certification>, studentId: Id, session: Session) {
    forall p :: p in ref.prerequisites && p.templateId == session.templateId ==>
      Holds(certs, studentId, p.sport, p.level, session.starts)
  }

  /** An active qualification at the level or above from a time until a time. */
  ghost predicate Qualified(ref: Reference, coaches: iset<Id>, sport: string, level: int, from: Time, until: Time) {
    exists q :: q in ref.qualifications && q.coachId in coaches && q.sport == sport && level <= q.level && q.active
                && !TextBefore(from, q.from) && !TextBefore(q.until, until)
  }

  /** The student has had the birthday the template asks for when the session starts. */
  ghost predicate OldEnough(ref: Reference, t: Tables, req: EnrollRequest)
    requires Found(ref, t, req.studentId, req.sessionId)
  {
    var session := t.sessions[req.sessionId];
    Turned(ref.students[req.studentId].birth, ref.templates[session.templateId].minimumAge, session.starts)
  }

  /** The student is of age by the start, or a guardian consents. */
  ghost predicate Consenting(ref: Reference, t: Tables, req: EnrollRequest, clock: EnrollClock)
    requires Found(ref, t, req.studentId, req.sessionId)
  {
    var session := t.sessions[req.sessionId];
    || Turned(ref.students[req.studentId].birth, 18, session.starts)
    || Consented(ref, req.studentId, clock.snapshotAt, session.ends)
  }

  /** The coach is qualified for the course from its start to its end. */
  ghost predicate Coached(ref: Reference, t: Tables, sessionId: Id)
    requires sessionId in t.sessions && t.sessions[sessionId].templateId in ref.templates
  {
    var session := t.sessions[sessionId];
    var template := ref.templates[session.templateId];
    Qualified(ref, iset{session.coachId}, template.sport, template.level, session.starts, session.ends)
  }

  /** Who may take a seat: everything but the seat itself. */
  ghost predicate Eligible(ref: Reference, t: Tables, req: EnrollRequest, clock: EnrollClock) {
    && Found(ref, t, req.studentId, req.sessionId)
    && OpenFor(t.sessions[req.sessionId], clock.openAt)
    && OldEnough(ref, t, req) && Consenting(ref, t, req, clock)
    && Prepared(ref, t.certs, req.studentId, t.sessions[req.sessionId]) && Coached(ref, t, req.sessionId)
  }

  lemma SnapshotFlags(ref: Reference, t: Tables, studentId: Id, sessionId: Id, at: Time)
    requires Found(ref, t, studentId, sessionId)
    ensures var session := t.sessions[sessionId];
            var template := ref.templates[session.templateId];
            && (ConsentValid(ref, studentId, at, session.ends) <==> Consented(ref, studentId, at, session.ends))
            && (PrerequisitesMet(ref, t.certs, session.templateId, studentId, session.starts)
                <==> Prepared(ref, t.certs, studentId, session))
            && (CoachQualified(ref, session.coachId, template.sport, template.level, session.starts, session.ends)
                <==> Qualified(ref, iset{session.coachId}, template.sport, template.level, session.starts,
                               session.ends))
  {
    var session := t.sessions[sessionId];
    forall p | p in ref.prerequisites && p.templateId == session.templateId
      ensures Certified(t.certs, studentId, p, session.starts)
         <==> Holds(t.certs, studentId, p.sport, p.level, session.starts)
    {
    }
  }

  /** What is wrong with a snapshot is the first of the needs it does not meet. */
  lemma {:induction false} FirstUnmet(ref: Reference, t: Tables, req: EnrollRequest, clock: EnrollClock)
    requires Found(ref, t, req.studentId, req.sessionId)
    ensures Ineligible(SnapshotOf(ref, t, req.studentId, req.sessionId, clock.snapshotAt).value, clock.openAt)
            == if !OpenFor(t.sessions[req.sessionId], clock.openAt) then Some(SessionClosed)
               else if !OldEnough(ref, t, req) then Some(MinimumAgeNotMet)
               else if !Consenting(ref, t, req, clock) then Some(ConsentRequired)
               else if !Prepared(ref, t.certs, req.studentId, t.sessions[req.sessionId]) then Some(PrerequisiteMissing)
               else if !Coached(ref, t, req.sessionId) then Some(CoachUnqualified)
               else None
  {
    var (session, birth) := (t.sessions[req.sessionId], ref.students[req.studentId].birth);
    SnapshotFlags(ref, t, req.studentId, req.sessionId, clock.snapshotAt);
    AgeReached(birth, session.starts, ref.templates[session.templateId].minimumAge);
    AgeReached(birth, session.starts, 18);
    Age.MinorExactlyBelowEighteen(birth, session.starts);
  }

  // ----- checkout

  ghost predicate Inspected(ref: Reference, equipmentId: Id, now: Time) {
    exists i :: i in ref.inspections && i.equipmentId == equipmentId && i.passed && TextBefore(now, i.validUntil)
  }

  ghost predicate Seated(t: Tables, studentId: Id, sessionId: Id) {
    exists e :: e in t.enrollments && t.enrollments[e].studentId == studentId
                && t.enrollments[e].sessionId == sessionId && t.enrollments[e].status.Confirmed?
  }
}
