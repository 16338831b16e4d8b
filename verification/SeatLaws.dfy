/**
 * Seats, cancellations and groups: what every committed transaction keeps. The laws are
 * proved on the tables they concern; a step changes only a few of them.
 */
module SeatLaws {
  import opened Schema
  import opened Runs
  import opened Sums

  type Sessions = map<Id, Session>
  type Enrollments = map<Id, Enrollment>

  // ----- seats

  /** The unique indexes: one row for a key, one for a session and a student. */
  ghost predicate Unique(enrollments: Enrollments) {
    forall e, f :: e in enrollments && f in enrollments && e != f ==>
      && enrollments[e].key != enrollments[f].key
      && (enrollments[e].sessionId != enrollments[f].sessionId || enrollments[e].studentId != enrollments[f].studentId)
  }

  ghost predicate RowsSeated(sessions: Sessions, enrollments: Enrollments, next: Id) {
    && Unique(enrollments)
    && (forall e :: e in enrollments ==> enrollments[e].id == e && e < next && enrollments[e].sessionId in sessions)
    && (forall s :: s in sessions ==> sessions[s].enrolled == |EnrollmentsOf(enrollments, s)| <= sessions[s].capacity)
  }

  /** The counter of every session is the number of its enrollments, within its capacity. */
  ghost predicate Seating(t: Tables) { RowsSeated(t.sessions, t.enrollments, t.nextEnrollment) }

  lemma SeatCount(enrollments: Enrollments, row: Enrollment, s: Id)
    requires row.id !in enrollments
    ensures |EnrollmentsOf(enrollments[row.id := row], s)| ==
            |EnrollmentsOf(enrollments, s)| + if row.sessionId == s then 1 else 0
  {
    var (before, after) := (EnrollmentsOf(enrollments, s), EnrollmentsOf(enrollments[row.id := row], s));
    if row.sessionId == s {
      assert after == before + {row.id};
    } else {
      assert after == before;
    }
  }

  lemma RowSeated(sessions: Sessions, enrollments: Enrollments, next: Id, row: Enrollment)
    requires RowsSeated(sessions, enrollments, next)
    requires row.id == next && row.sessionId in sessions
    requires sessions[row.sessionId].enrolled < sessions[row.sessionId].capacity
    requires !KeyUsed(enrollments, row.key) && !PairUsed(enrollments, row.sessionId, row.studentId)
    ensures RowsSeated(sessions[row.sessionId := SeatedSession(sessions[row.sessionId])], enrollments[next := row],
        next + 1)
  {
    forall s | s in sessions ensures
      |EnrollmentsOf(enrollments[next := row], s)| == |EnrollmentsOf(enrollments, s)| + if row.sessionId == s then 1
        else 0
    {
      SeatCount(enrollments, row, s);
    }
  }

  lemma RowsClosed(sessions: Sessions, enrollments: Enrollments, next: Id, sessionId: Id, reason: string)
    requires RowsSeated(sessions, enrollments, next) && sessionId in sessions
    ensures RowsSeated(sessions[sessionId := ClosedSession(sessions[sessionId], reason)],
                       ClosedEnrollments(enrollments, sessionId), next)
  {
    var after := ClosedEnrollments(enrollments, sessionId);
    forall e | e in enrollments
      ensures after[e] == enrollments[e].(status := after[e].status, version := after[e].version)
    {
    }
    forall s ensures EnrollmentsOf(after, s) == EnrollmentsOf(enrollments, s) {
    }
  }

  lemma SeatingStep(t: Tables, e: Effect)
    requires Seating(t) && Allowed(t, e)
    ensures Seating(Apply(t, e))
  {
    match e
    case Seat(row) => RowSeated(t.sessions, t.enrollments, t.nextEnrollment, row);
    case Closing(sessionId, reason, _, _) => RowsClosed(t.sessions, t.enrollments, t.nextEnrollment, sessionId, reason);
    case _ =>
  }

  /** The number that never changes: version minus seats taken minus one for a cancellation. */
  function SeatCharge(s: Session): int {
    s.version - s.enrolled - if s.status.Canceled? then 1 else 0
  }

  ghost predicate ChargesKept(before: Sessions, after: Sessions) {
    && after.Keys == before.Keys
    && forall s :: s in before ==>
      SeatCharge(after[s]) == SeatCharge(before[s]) && after[s].capacity == before[s].capacity
  }

  lemma ChargeStep(t: Tables, e: Effect)
    requires Allowed(t, e)
    ensures ChargesKept(t.sessions, Apply(t, e).sessions)
  {
  }

  /** Seat conservation over every run of committed transactions. */
  lemma SeatsConserved(t: Tables, steps: seq<Step>)
    requires Seating(t) && AllowedRun(t, steps)
    ensures Seating(Run(t, steps)) && ChargesKept(t.sessions, Run(t, steps).sessions)
  {
    var inv := (u: Tables) => Seating(u) && ChargesKept(t.sessions, u.sessions);
    forall u: Tables, e: Effect, log: seq<AuditEvent> | inv(u) && Allowed(u, e)
      ensures inv(Apply(u, e).(audit := log))
    {
      SeatingStep(u, e);
      ChargeStep(u, e);
    }
    RunKeeps(t, steps, inv);
  }

  // ----- cancellations

  /** An entitlement for exactly the enrollments that are due one; no confirmed seat in a canceled session. */
  ghost predicate RowsEntitled(sessions: Sessions, enrollments: Enrollments, entitlements: map<Id, Entitlement>) {
    && (forall e :: e in entitlements <==> e in enrollments && enrollments[e].status.MakeupDue?)
    && (forall e :: e in enrollments && enrollments[e].status.Confirmed? && enrollments[e].sessionId in sessions ==>
          !sessions[enrollments[e].sessionId].status.Canceled?)
  }

  ghost predicate Makeups(t: Tables) { RowsEntitled(t.sessions, t.enrollments, t.entitlements) }

  /** The insert ignores nothing, so the count it returns is the enrollments flipped. */
  lemma CancellationCountsItsMakeups(t: Tables, sessionId: Id, expiry: Time, at: Time)
    requires Makeups(t)
    ensures var made := NewEntitlements(t, sessionId, expiry, at);
            && made.Keys == ConfirmedOf(t.enrollments, sessionId) && made.Keys !! t.entitlements.Keys
            && |made| == |ConfirmedOf(t.enrollments, sessionId)|
  {
    var made := NewEntitlements(t, sessionId, expiry, at);
    forall e | e in ConfirmedOf(t.enrollments, sessionId) ensures e in made {
      assert e in t.enrollments && t.enrollments[e].status.Confirmed?;
    }
    assert made.Keys == ConfirmedOf(t.enrollments, sessionId);
    assert |made| == |made.Keys|;
  }

  lemma RowsFlipped(t: Tables, sessionId: Id, reason: string, expiry: Time, at: Time)
    requires Makeups(t) && sessionId in t.sessions
    ensures RowsEntitled(t.sessions[sessionId := ClosedSession(t.sessions[sessionId], reason)],
                         ClosedEnrollments(t.enrollments, sessionId),
                         t.entitlements + NewEntitlements(t, sessionId, expiry, at))
  {
    CancellationCountsItsMakeups(t, sessionId, expiry, at);
    var after := ClosedEnrollments(t.enrollments, sessionId);
    forall e | e in t.enrollments
      ensures after[e].sessionId == t.enrollments[e].sessionId
      ensures e in ConfirmedOf(t.enrollments, sessionId) <==>
              t.enrollments[e].sessionId == sessionId && t.enrollments[e].status.Confirmed?
    {
    }
  }

  lemma MakeupsStep(t: Tables, e: Effect)
    requires Seating(t) && Makeups(t) && Allowed(t, e)
    ensures Makeups(Apply(t, e))
  {
    match e
    case Seat(row) => MadeNoMakeup(t, row);
    case Closing(sessionId, reason, expiry, at) => RowsFlipped(t, sessionId, reason, expiry, at);
    case _ =>
  }

  lemma MadeNoMakeup(t: Tables, row: Enrollment)
    requires Seating(t) && Makeups(t) && Allowed(t, Seat(row))
    ensures RowsEntitled(t.sessions[row.sessionId := SeatedSession(t.sessions[row.sessionId])],
                         t.enrollments[row.id := row], t.entitlements)
  {
  }

  /** A canceled session never changes again. */
  ghost predicate StaysCanceled(before: Sessions, after: Sessions) {
    forall i :: i in before && before[i].status.Canceled? ==> i in after && after[i] == before[i]
  }

  lemma CanceledStep(before: Sessions, t: Tables, e: Effect)
    requires StaysCanceled(before, t.sessions) && Allowed(t, e)
    ensures StaysCanceled(before, Apply(t, e).sessions)
  {
  }

  /** Over every run entitlements match, and a canceled session stays as it is, without confirmed seats. */
  lemma CancellationsConserved(t: Tables, steps: seq<Step>)
    requires Seating(t) && Makeups(t) && AllowedRun(t, steps)
    ensures Makeups(Run(t, steps)) && StaysCanceled(t.sessions, Run(t, steps).sessions)
    ensures forall i :: i in t.sessions && t.sessions[i].status.Canceled? ==>
        ConfirmedOf(Run(t, steps).enrollments, i) == {}
  {
    var inv := (u: Tables) => Seating(u) && Makeups(u) && StaysCanceled(t.sessions, u.sessions);
    forall u: Tables, e: Effect, log: seq<AuditEvent> | inv(u) && Allowed(u, e)
      ensures inv(Apply(u, e).(audit := log))
    {
      SeatingStep(u, e);
      MakeupsStep(u, e);
      CanceledStep(t.sessions, u, e);
    }
    RunKeeps(t, steps, inv);
    var last := Run(t, steps);
    forall i | i in t.sessions && t.sessions[i].status.Canceled? ensures ConfirmedOf(last.enrollments, i) == {} {
      NoConfirmedSeat(last, i);
    }
  }

  lemma NoConfirmedSeat(t: Tables, sessionId: Id)
    requires Makeups(t) && sessionId in t.sessions && t.sessions[sessionId].status.Canceled?
    ensures ConfirmedOf(t.enrollments, sessionId) == {}
  {
    forall e ensures e !in ConfirmedOf(t.enrollments, sessionId) {
    }
  }

  // ----- groups

  ghost predicate RowsGrouped(groups: map<Id, Group>, members: map<Id, Id>, enrollments: Enrollments) {
    && (forall g :: g in groups ==> |MembersOf(members, g)| <= groups[g].capacity)
    && (forall e :: e in members ==>
          e in enrollments && members[e] in groups && enrollments[e].sessionId == groups[members[e]].sessionId)
  }

  ghost predicate Grouping(t: Tables) { RowsGrouped(t.groups, t.members, t.enrollments) }

  lemma MemberCount(members: map<Id, Id>, e: Id, group: Id, g: Id)
    requires e !in members
    ensures |MembersOf(members[e := group], g)| == |MembersOf(members, g)| + if group == g then 1 else 0
  {
    if group == g {
      assert MembersOf(members[e := group], g) == MembersOf(members, g) + {e};
    } else {
      assert MembersOf(members[e := group], g) == MembersOf(members, g);
    }
  }

  lemma RowJoined(groups: map<Id, Group>, members: map<Id, Id>, enrollments: Enrollments, g: Id, e: Id, group: Group)
    requires RowsGrouped(groups, members, enrollments) && g in groups && e in enrollments && e !in members
    requires enrollments[e].sessionId == groups[g].sessionId == group.sessionId
    requires |MembersOf(members, g)| < groups[g].capacity == group.capacity
    ensures RowsGrouped(groups[g := group], members[e := g], enrollments)
  {
    forall h | h in groups ensures |MembersOf(members[e := g], h)| <= groups[h].capacity {
      MemberCount(members, e, g, h);
    }
  }

  /** New seats and cancellations move no enrollment to another session. */
  lemma MembersStaySeated(groups: map<Id, Group>, members: map<Id, Id>, before: Enrollments, after: Enrollments)
    requires RowsGrouped(groups, members, before)
    requires forall e :: e in before ==> e in after && after[e].sessionId == before[e].sessionId
    ensures RowsGrouped(groups, members, after)
  {
  }

  lemma GroupingStep(t: Tables, e: Effect)
    requires Seating(t) && Grouping(t) && Allowed(t, e)
    ensures Grouping(Apply(t, e))
  {
    match e
    case Seat(row) => MembersStaySeated(t.groups, t.members, t.enrollments, t.enrollments[row.id := row]);
    case Closing(sessionId, _, _, _) =>
      MembersStaySeated(t.groups, t.members, t.enrollments, ClosedEnrollments(t.enrollments, sessionId));
    case Joining(g, row) =>
      RowJoined(t.groups, t.members, t.enrollments, g, row, t.groups[g].(version := t.groups[g].version + 1));
    case _ =>
  }

  /** Over every run each group keeps its capacity, and its members sit in its session. */
  lemma GroupsConserved(t: Tables, steps: seq<Step>)
    requires Seating(t) && Grouping(t) && AllowedRun(t, steps)
    ensures Seating(Run(t, steps)) && Grouping(Run(t, steps))
  {
    var inv := (u: Tables) => Seating(u) && Grouping(u);
    forall u: Tables, e: Effect, log: seq<AuditEvent> | inv(u) && Allowed(u, e)
      ensures inv(Apply(u, e).(audit := log))
    {
      SeatingStep(u, e);
      GroupingStep(u, e);
    }
    RunKeeps(t, steps, inv);
  }

  /** The members of all groups of one session. */
  ghost function SessionMembers(t: Tables, s: Id): set<Id> {
    set e | e in t.members && t.members[e] in t.groups && t.groups[t.members[e]].sessionId == s
  }

  /** The pigeonhole: all groups of a session together seat at most its enrolled students. */
  lemma GroupPigeonhole(t: Tables, s: Id)
    requires Seating(t) && Grouping(t) && s in t.sessions
    ensures |SessionMembers(t, s)| <= t.sessions[s].enrolled <= t.sessions[s].capacity
    ensures forall g :: g in t.groups && t.groups[g].sessionId == s ==> MembersOf(t.members, g) <= SessionMembers(t, s)
    ensures forall g, h :: g != h ==> MembersOf(t.members, g) !! MembersOf(t.members, h)
  {
    forall e | e in SessionMembers(t, s) ensures e in EnrollmentsOf(t.enrollments, s) {
      assert e in t.enrollments;
    }
    SubsetSize(SessionMembers(t, s), EnrollmentsOf(t.enrollments, s));
  }
}
