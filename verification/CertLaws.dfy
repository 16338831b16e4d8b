/**
 * Certifications: each key is explained by a passed assessment, none is ever lost, and a
 * new pass does not renew an old expiry.
 */
module CertLaws {
  import opened Wrappers
  import opened Schema
  import opened Services
  import opened Runs

  type Assessments = map<Id, Assessment>
  type Certs = map<CertKey, Certification>

  /** Published as passed since the first table. */
  ghost predicate NewlyPassed(before: Assessments, after: Assessments, a: Id) {
    && a in before && a in after
    && !before[a].status.Passed? && after[a].status.Passed?
  }

  ghost predicate PassedFor(before: Assessments, after: Assessments, key: CertKey) {
    exists a :: NewlyPassed(before, after, a) && KeyOf(after[a]) == key
  }

  /** Passed rows never change; new passes scored the mark; nobody's assessment becomes another's. */
  ghost predicate Graded(before: Assessments, after: Assessments) {
    && after.Keys == before.Keys
    && (forall a :: a in before ==> KeyOf(after[a]) == KeyOf(before[a]))
    && (forall a :: a in before && before[a].status.Passed? ==> after[a] == before[a])
    && (forall a :: NewlyPassed(before, after, a) ==> PASS_MARK <= after[a].score <= 100)
  }

  /** Exactly the old keys and those of new passes; old expiries stay and new keys have none. */
  ghost predicate Explained(rows0: Assessments, certs0: Certs, rows: Assessments, certs: Certs) {
    && (forall k :: k in certs <==> k in certs0 || PassedFor(rows0, rows, k))
    && (forall k :: k in certs ==> certs[k].expires == if k in certs0 then certs0[k].expires else None)
  }

  lemma GradedByPublishing(rows0: Assessments, rows: Assessments, a: Id, score: int, notes: string)
    requires Graded(rows0, rows) && a in rows && rows[a].status.Submitted? && 0 <= score <= 100
    ensures Graded(rows0, rows[a := PublishedAssessment(rows[a], score, notes)])
  {
    assert !rows0[a].status.Passed?;
  }

  /** One publication adds the key of its assessment when that is passed, and else none. */
  lemma PassAddsItsKey(rows0: Assessments, rows: Assessments, a: Id, score: int, notes: string, k: CertKey)
    requires Graded(rows0, rows) && a in rows && rows[a].status.Submitted?
    ensures PassedFor(rows0, rows[a := PublishedAssessment(rows[a], score, notes)], k)
       <==> PassedFor(rows0, rows, k) || (score >= PASS_MARK && k == KeyOf(rows[a]))
  {
    var rows' := rows[a := PublishedAssessment(rows[a], score, notes)];
    assert !rows0[a].status.Passed?;
    forall b | b != a ensures NewlyPassed(rows0, rows', b) <==> NewlyPassed(rows0, rows, b) {
    }
    assert NewlyPassed(rows0, rows', a) <==> score >= PASS_MARK;
    assert KeyOf(rows'[a]) == KeyOf(rows[a]);
    if PassedFor(rows0, rows, k) {
      var b :| NewlyPassed(rows0, rows, b) && KeyOf(rows[b]) == k;
      assert NewlyPassed(rows0, rows', b) && KeyOf(rows'[b]) == k;
    }
  }

  lemma ExplainedByPublishing(rows0: Assessments, certs0: Certs, rows: Assessments, certs: Certs, a: Id,
        score: int, notes: string, at: Time)
    requires Graded(rows0, rows) && Explained(rows0, certs0, rows, certs)
    requires a in rows && rows[a].status.Submitted?
    ensures Explained(rows0, certs0, rows[a := PublishedAssessment(rows[a], score, notes)],
                      if score >= PASS_MARK then Granted(certs, rows[a], at) else certs)
  {
    forall k
      ensures PassedFor(rows0, rows[a := PublishedAssessment(rows[a], score, notes)], k)
         <==> PassedFor(rows0, rows, k) || (score >= PASS_MARK && k == KeyOf(rows[a]))
    {
      PassAddsItsKey(rows0, rows, a, score, notes, k);
    }
  }

  lemma CertStep(t0: Tables, t: Tables, e: Effect)
    requires Graded(t0.assessments, t.assessments) && Explained(t0.assessments, t0.certs, t.assessments, t.certs)
    requires Allowed(t, e)
    ensures Graded(t0.assessments, Apply(t, e).assessments)
    ensures Explained(t0.assessments, t0.certs, Apply(t, e).assessments, Apply(t, e).certs)
  {
    match e
    case Publishing(a, score, notes, at) =>
      GradedByPublishing(t0.assessments, t.assessments, a, score, notes);
      ExplainedByPublishing(t0.assessments, t0.certs, t.assessments, t.certs, a, score, notes, at);
    case _ =>
  }

  /** Over every run each new key is backed by a pass at the mark, and each pass has its key. */
  lemma CertificationsExplained(t: Tables, steps: seq<Step>)
    requires AllowedRun(t, steps)
    ensures Graded(t.assessments, Run(t, steps).assessments)
    ensures Explained(t.assessments, t.certs, Run(t, steps).assessments, Run(t, steps).certs)
  {
    var inv := (u: Tables) =>
      Graded(t.assessments, u.assessments) && Explained(t.assessments, t.certs, u.assessments, u.certs);
    forall u: Tables, e: Effect, log: seq<AuditEvent> | inv(u) && Allowed(u, e)
      ensures inv(Apply(u, e).(audit := log))
    {
      CertStep(t, u, e);
    }
    RunKeeps(t, steps, inv);
  }

  // ----- what a run does to prerequisites

  /** The key would satisfy the prerequisite for this student, were it valid at the start. */
  predicate Covers(k: CertKey, studentId: Id, p: Prerequisite) {
    k.studentId == studentId && k.sport == p.sport && k.level >= p.level
  }

  /** Someone passed for a key not held before that covers the prerequisite. */
  ghost predicate NewlyCovered(t: Tables, after: Assessments, studentId: Id, p: Prerequisite) {
    exists k :: k !in t.certs && Covers(k, studentId, p) && PassedFor(t.assessments, after, k)
  }

  /**
   * After a run a prerequisite is met exactly when it was met before, or a pass brought a
   * key that was not held at all: passing again does not revive an expired certification.
   */
  lemma CertifiedAfterRun(t: Tables, steps: seq<Step>, studentId: Id, p: Prerequisite, starts: Time)
    requires AllowedRun(t, steps)
    ensures Certified(Run(t, steps).certs, studentId, p, starts)
       <==> Certified(t.certs, studentId, p, starts) || NewlyCovered(t, Run(t, steps).assessments, studentId, p)
  {
    CertificationsExplained(t, steps);
    CertifiedByExplained(t, Run(t, steps).assessments, Run(t, steps).certs, studentId, p, starts);
  }

  lemma CertifiedByExplained(t: Tables, rows: Assessments, certs: Certs, studentId: Id, p: Prerequisite, starts: Time)
    requires Explained(t.assessments, t.certs, rows, certs)
    ensures Certified(certs, studentId, p, starts)
       <==> Certified(t.certs, studentId, p, starts) || NewlyCovered(t, rows, studentId, p)
  {
    forall k | k in t.certs ensures k in certs && certs[k].expires == t.certs[k].expires {
    }
    if NewlyCovered(t, rows, studentId, p) {
      var k :| k !in t.certs && Covers(k, studentId, p) && PassedFor(t.assessments, rows, k);
      assert k in certs && certs[k].expires.None?;
    }
  }

  /** What a session is about never changes. */
  ghost predicate PlansKept(before: map<Id, Session>, after: map<Id, Session>) {
    forall s :: s in before ==>
      s in after && after[s].templateId == before[s].templateId && after[s].starts == before[s].starts
  }

  lemma PlansConserved(t: Tables, steps: seq<Step>)
    requires AllowedRun(t, steps)
    ensures PlansKept(t.sessions, Run(t, steps).sessions)
  {
    var inv := (u: Tables) => PlansKept(t.sessions, u.sessions);
    forall u: Tables, e: Effect, log: seq<AuditEvent> | inv(u) && Allowed(u, e)
      ensures inv(Apply(u, e).(audit := log))
    {
      PlanStep(t.sessions, u, e);
    }
    RunKeeps(t, steps, inv);
  }

  lemma PlanStep(before: map<Id, Session>, t: Tables, e: Effect)
    requires PlansKept(before, t.sessions) && Allowed(t, e)
    ensures PlansKept(before, Apply(t, e).sessions)
  {
  }

  ghost predicate MetFor(ref: Reference, t: Tables, studentId: Id, sessionId: Id)
    requires sessionId in t.sessions
  {
    PrerequisitesMet(ref, t.certs, t.sessions[sessionId].templateId, studentId, t.sessions[sessionId].starts)
  }

  /** Once a student meets the prerequisites of a session, no run un-meets them. */
  lemma PrerequisitesStayMet(ref: Reference, t: Tables, steps: seq<Step>, studentId: Id, sessionId: Id)
    requires AllowedRun(t, steps) && sessionId in t.sessions
    requires MetFor(ref, t, studentId, sessionId)
    ensures sessionId in Run(t, steps).sessions && MetFor(ref, Run(t, steps), studentId, sessionId)
  {
    PlansConserved(t, steps);
    var session := t.sessions[sessionId];
    forall p | p in ref.prerequisites && p.templateId == session.templateId
      ensures Certified(Run(t, steps).certs, studentId, p, session.starts)
    {
      CertifiedAfterRun(t, steps, studentId, p, session.starts);
    }
  }
}
