/**
 * The audit log as an event source: folding the audit actions over a view of the initial
 * tables rebuilds the view of the current ones.
 */
module AuditLaws {
  import opened Wrappers
  import opened States
  import opened Schema
  import opened Runs

  datatype SessionView = SessionView(status: CourseStatus, enrolled: int, version: int)
  datatype EnrollmentView = EnrollmentView(sessionId: Id, studentId: Id, status: EnrollmentStatus, version: int)
  datatype ItemView = ItemView(status: EquipmentStatus, version: int)
  datatype LoanView = LoanView(equipmentId: Id, studentId: Id, status: LoanStatus, version: int)
  datatype CaseView = CaseView(equipmentId: Id, loanId: Option<Id>)
  datatype AssessmentView = AssessmentView(key: CertKey, status: AssessmentStatus, score: int, version: int)

  /** What the audit log accounts for. */
  datatype Ledger = Ledger(
    sessions: map<Id, SessionView>, enrollments: map<Id, EnrollmentView>, entitled: set<Id>,
    groups: map<Id, int>, members: map<Id, Id>,
    items: map<Id, ItemView>, loans: map<Id, LoanView>, cases: map<Id, CaseView>,
    assessments: map<Id, AssessmentView>, certs: set<CertKey>)

  function SessionOf(s: Session): SessionView { SessionView(s.status, s.enrolled, s.version) }
  function EnrollmentOf(e: Enrollment): EnrollmentView { EnrollmentView(e.sessionId, e.studentId, e.status, e.version) }
  function ItemOf(e: Equipment): ItemView { ItemView(e.status, e.version) }
  function LoanOf(l: Loan): LoanView { LoanView(l.equipmentId, l.studentId, l.status, l.version) }
  function CaseOf(c: Case): CaseView { CaseView(c.equipmentId, c.loanId) }
  function AssessmentOf(a: Assessment): AssessmentView { AssessmentView(KeyOf(a), a.status, a.score, a.version) }

  ghost function Viewed<R, V>(rows: map<Id, R>, view: R -> V): map<Id, V> {
    map i | i in rows :: view(rows[i])
  }

  ghost function View(t: Tables): Ledger {
    Ledger(
      Viewed(t.sessions, SessionOf), Viewed(t.enrollments, EnrollmentOf), t.entitlements.Keys,
      (map g | g in t.groups :: t.groups[g].version), t.members,
      Viewed(t.equipment, ItemOf), Viewed(t.loans, LoanOf), Viewed(t.cases, CaseOf),
      Viewed(t.assessments, AssessmentOf), t.certs.Keys)
  }

  // ----- the fold: each action alone says what happened to the ledger

  function Taken(s: SessionView): SessionView { s.(enrolled := s.enrolled + 1, version := s.version + 1) }

  function Flipped(e: EnrollmentView): EnrollmentView { e.(status := MakeupDue, version := e.version + 1) }

  ghost predicate Flips(e: EnrollmentView, sessionId: Id) { e.sessionId == sessionId && e.status.Confirmed? }

  ghost function FlipSet(rows: map<Id, EnrollmentView>, sessionId: Id): set<Id> {
    set e | e in rows && Flips(rows[e], sessionId)
  }

  ghost function FlipAll(rows: map<Id, EnrollmentView>, sessionId: Id): map<Id, EnrollmentView> {
    map e | e in rows :: if Flips(rows[e], sessionId) then Flipped(rows[e]) else rows[e]
  }

  ghost function Record(g: Ledger, action: Action): Ledger {
    match action
    case EnrollmentConfirmed(id, s, student) =>
      if s !in g.sessions then g
      else g.(sessions := g.sessions[s := Taken(g.sessions[s])],
              enrollments := g.enrollments[id := EnrollmentView(s, student, Confirmed, 1)])
    case CourseCanceled(s, _, _) =>
      if s !in g.sessions then g
      else g.(sessions := g.sessions[s := g.sessions[s].(status := Canceled, version := g.sessions[s].version + 1)],
              entitled := g.entitled + FlipSet(g.enrollments, s), enrollments := FlipAll(g.enrollments, s))
    case EquipmentCheckedOut(i, l, student) =>
      if i !in g.items then g
      else g.(items := g.items[i := ItemView(CheckedOut, g.items[i].version + 1)],
              loans := g.loans[l := LoanView(i, student, Active, 1)])
    case EquipmentReturned(i, l, damaged, c) =>
      if i !in g.items || l !in g.loans then g
      else g.(items := g.items[i := ItemView(if damaged then Isolated else Available, g.items[i].version + 1)],
              loans := g.loans[l :=
                g.loans[l].(status := if damaged then Damaged else Returned, version := g.loans[l].version + 1)],
              cases := if c.Some? then g.cases[c.value := CaseView(i, Some(l))] else g.cases)
    case AssessmentPublished(a, passed, score) =>
      if a !in g.assessments then g
      else g.(assessments := g.assessments[a := g.assessments[a].(
                status := if passed then Passed else AssessmentFailed, score := score,
                version := g.assessments[a].version + 1)],
              certs := if passed then g.certs + {g.assessments[a].key} else g.certs)
    case MemberAssigned(group, e) =>
      if group !in g.groups then g
      else g.(groups := g.groups[group := g.groups[group] + 1], members := g.members[e := group])
  }

  ghost function Fold(g: Ledger, events: seq<AuditEvent>): Ledger
    decreases |events|
  {
    if events == [] then g else Fold(Record(g, events[0].action), events[1..])
  }

  // ----- one step

  lemma ViewedUpdate<R, V>(rows: map<Id, R>, view: R -> V, i: Id, row: R)
    ensures Viewed(rows[i := row], view) == Viewed(rows, view)[i := view(row)]
  {
  }

  lemma FlipsAgree(rows: map<Id, Enrollment>, s: Id)
    ensures ConfirmedOf(rows, s) == FlipSet(Viewed(rows, EnrollmentOf), s)
    ensures Viewed(ClosedEnrollments(rows, s), EnrollmentOf) == FlipAll(Viewed(rows, EnrollmentOf), s)
  {
    var views := Viewed(rows, EnrollmentOf);
    var (v, w) := (Viewed(ClosedEnrollments(rows, s), EnrollmentOf), FlipAll(views, s));
    forall e ensures e in ConfirmedOf(rows, s) <==> e in FlipSet(views, s) {
      assert e in rows ==> views[e] == EnrollmentOf(rows[e]);
    }
    forall e | e in rows ensures v[e] == w[e] {
      assert e in ConfirmedOf(rows, s) <==> e in FlipSet(views, s);
    }
  }

  /** Each committed effect is exactly what its audit action says. */
  ghost predicate Told(t: Tables, e: Effect)
    requires Allowed(t, e)
  {
    View(Apply(t, e)) == Record(View(t), ActionOf(t, e))
  }

  lemma SeatTold(t: Tables, row: Enrollment)
    requires Allowed(t, Seat(row))
    ensures Told(t, Seat(row))
  {
    ViewedUpdate(t.sessions, SessionOf, row.sessionId, SeatedSession(t.sessions[row.sessionId]));
    ViewedUpdate(t.enrollments, EnrollmentOf, row.id, row);
  }

  lemma {:induction false} ClosingTold(t: Tables, s: Id, reason: string, expiry: Time, at: Time)
    requires Allowed(t, Closing(s, reason, expiry, at))
    ensures Told(t, Closing(s, reason, expiry, at))
  {
    ViewedUpdate(t.sessions, SessionOf, s, ClosedSession(t.sessions[s], reason));
    FlipsAgree(t.enrollments, s);
    EntitledByClosing(t, s, expiry, at);
  }

  lemma EntitledByClosing(t: Tables, s: Id, expiry: Time, at: Time)
    ensures (t.entitlements + NewEntitlements(t, s, expiry, at)).Keys == t.entitlements.Keys
        + ConfirmedOf(t.enrollments, s)
  {
    forall e | e in ConfirmedOf(t.enrollments, s) && e !in t.entitlements
      ensures e in NewEntitlements(t, s, expiry, at)
    {
      assert e in t.enrollments;
    }
  }

  lemma LendingTold(t: Tables, loan: Loan)
    requires Allowed(t, Lending(loan))
    ensures Told(t, Lending(loan))
  {
    var item := t.equipment[loan.equipmentId];
    ViewedUpdate(t.equipment, ItemOf, loan.equipmentId, item.(status := CheckedOut, version := item.version + 1));
    ViewedUpdate(t.loans, LoanOf, loan.id, loan);
  }

  lemma {:induction false} ReturnTold(t: Tables, l: Id, damage: Option<Case>, at: Time)
    requires Allowed(t, Return(l, damage, at))
    ensures Told(t, Return(l, damage, at))
  {
    var i := t.loans[l].equipmentId;
    var item := t.equipment[i];
    ViewedUpdate(t.equipment, ItemOf, i,
      item.(status := if damage.Some? then Isolated else Available, version := item.version + 1));
    ViewedUpdate(t.loans, LoanOf, l, ClosedLoan(t.loans[l], damage.Some?, at));
    if damage.Some? {
      ViewedUpdate(t.cases, CaseOf, damage.value.id, damage.value);
    }
  }

  lemma JoiningTold(t: Tables, g: Id, e: Id)
    requires Allowed(t, Joining(g, e))
    ensures Told(t, Joining(g, e))
  {
    var (v, r) := (View(Apply(t, Joining(g, e))), Record(View(t), ActionOf(t, Joining(g, e))));
    assert v.groups == r.groups;
  }

  lemma PublishingTold(t: Tables, a: Id, score: int, notes: string, at: Time)
    requires Allowed(t, Publishing(a, score, notes, at))
    ensures Told(t, Publishing(a, score, notes, at))
  {
    ViewedUpdate(t.assessments, AssessmentOf, a, PublishedAssessment(t.assessments[a], score, notes));
    assert Granted(t.certs, t.assessments[a], at).Keys == t.certs.Keys + {KeyOf(t.assessments[a])};
  }

  lemma {:induction false} ActionTellsEffect(t: Tables, e: Effect)
    requires Allowed(t, e)
    ensures Told(t, e)
  {
    match e
    case Seat(row) => SeatTold(t, row);
    case Closing(s, reason, expiry, at) => ClosingTold(t, s, reason, expiry, at);
    case Lending(loan) => LendingTold(t, loan);
    case Return(l, damage, at) => ReturnTold(t, l, damage, at);
    case Joining(g, m) => JoiningTold(t, g, m);
    case Publishing(a, score, notes, at) => PublishingTold(t, a, score, notes, at);
  }

  // ----- runs of service calls

  function EventOf(t: Tables, s: Step): AuditEvent
    requires Allowed(t, s.effect) && s.receipt.Some?
  {
    AuditEvent(s.receipt.value.actorId, s.receipt.value.requestId, ActionOf(t, s.effect), s.receipt.value.at)
  }

  lemma {:induction false} StepTold(t: Tables, s: Step)
    requires Allowed(t, s.effect) && s.receipt.Some?
    ensures View(Next(t, s)) == Record(View(t), EventOf(t, s).action)
    ensures Next(t, s).audit == t.audit + [EventOf(t, s)]
  {
    ActionTellsEffect(t, s.effect);
  }

  lemma {:induction false} FoldLast(g: Ledger, events: seq<AuditEvent>, event: AuditEvent)
    ensures Fold(g, events + [event]) == Record(Fold(g, events), event.action)
    decreases |events|
  {
    if events == [] {
      assert Fold(g, [event]) == Fold(Record(g, event.action), []);
    } else {
      assert (events + [event])[1..] == events[1..] + [event];
      FoldLast(Record(g, events[0].action), events[1..], event);
    }
  }

  /** The log of `t` still heads the log of `u`, and the rest of it rebuilds the ledger of `u`. */
  ghost predicate Rebuilt(t: Tables, u: Tables) {
    && t.audit <= u.audit
    && View(u) == Fold(View(t), u.audit[|t.audit|..])
  }

  lemma RebuiltStep(t: Tables, u: Tables, s: Step)
    requires Rebuilt(t, u) && Allowed(u, s.effect) && s.receipt.Some?
    ensures Rebuilt(t, Next(u, s))
  {
    StepTold(u, s);
    var event := EventOf(u, s);
    assert (u.audit + [event])[|t.audit|..] == u.audit[|t.audit|..] + [event];
    FoldLast(View(t), u.audit[|t.audit|..], event);
  }

  /** The log is append-only and rebuilds, after every run of service calls, the whole ledger. */
  lemma {:induction false} AuditRebuildsLedger(t: Tables, steps: seq<Step>)
    requires AllowedRun(t, steps) && Receipted(steps)
    ensures t.audit <= Run(t, steps).audit
    ensures View(Run(t, steps)) == Fold(View(t), Run(t, steps).audit[|t.audit|..])
  {
    var inv := (u: Tables) => Rebuilt(t, u);
    forall u: Tables, s: Step | inv(u) && Allowed(u, s.effect) && s.receipt.Some? ensures inv(Next(u, s)) {
      RebuiltStep(t, u, s);
    }
    assert t.audit[|t.audit|..] == [];
    ReceiptedRunKeeps(t, steps, inv);
  }

  /** One event for each commit, and none besides. */
  lemma {:induction false} OneEventPerCommit(t: Tables, steps: seq<Step>)
    requires AllowedRun(t, steps) && Receipted(steps)
    ensures |Run(t, steps).audit| == |t.audit| + |steps|
    decreases |steps|
  {
    if steps != [] {
      OneEventPerCommit(Next(t, steps[0]), steps[1..]);
    }
  }
}
