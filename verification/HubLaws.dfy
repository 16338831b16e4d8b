/** What any sequence of service calls keeps, whether they succeed, fail, replay or roll back. */
module HubLaws {
  import opened Schema
  import opened Calls
  import opened SeatLaws
  import opened CustodyLaws
  import opened AuditLaws

  /** All counters, memberships, entitlements, loans and cases agree. */
  ghost predicate Sound(t: Tables) {
    Seating(t) && Makeups(t) && Grouping(t) && Custody(t) && Cases(t)
  }

  /** The safety of the hub: tables that agree still agree after any sequence of calls. */
  lemma {:induction false} CallsKeepSound(ref: Reference, t: Tables, calls: seq<Attempt>)
    requires Sound(t)
    ensures Sound(AfterCalls(ref, t, calls))
  {
    var steps := StepsOf(ref, t, calls);
    CallsAreARun(ref, t, calls);
    CancellationsConserved(t, steps);
    GroupsConserved(t, steps);
    CustodyConserved(t, steps);
    CasesConserved(t, steps);
  }

  /**
   * The audit log as the event source of any sequence of calls: it only grows, by one event
   * for each commit, and its new part rebuilds the whole ledger from the old one.
   */
  lemma {:induction false} CallsAreAudited(ref: Reference, t: Tables, calls: seq<Attempt>)
    ensures var u := AfterCalls(ref, t, calls);
            && t.audit <= u.audit && |u.audit| == |t.audit| + Commits(ref, t, calls)
            && View(u) == Fold(View(t), u.audit[|t.audit|..])
  {
    var steps := StepsOf(ref, t, calls);
    CallsAreARun(ref, t, calls);
    AuditRebuildsLedger(t, steps);
    OneEventPerCommit(t, steps);
  }

  /** Seats are conserved by calls: what `enrolled` and `version` count stays in balance. */
  lemma CallsConserveSeats(ref: Reference, t: Tables, calls: seq<Attempt>)
    requires Seating(t)
    ensures Seating(AfterCalls(ref, t, calls)) && ChargesKept(t.sessions, AfterCalls(ref, t, calls).sessions)
  {
    CallsAreARun(ref, t, calls);
    SeatsConserved(t, StepsOf(ref, t, calls));
  }

  /** After any calls all groups of a session together hold at most its enrolled students. */
  lemma {:induction false} CallsKeepGroups(ref: Reference, t: Tables, calls: seq<Attempt>, s: Id)
    requires Sound(t) && s in AfterCalls(ref, t, calls).sessions
    ensures var u := AfterCalls(ref, t, calls);
            |SessionMembers(u, s)| <= u.sessions[s].enrolled <= u.sessions[s].capacity
  {
    CallsKeepSound(ref, t, calls);
    GroupPigeonhole(AfterCalls(ref, t, calls), s);
  }
}
