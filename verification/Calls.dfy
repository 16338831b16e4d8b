/**
 * Service calls in sequence: which effect each one wants, what is left of it when it is
 * refused, replayed or rolled back, and the run of transactions a whole sequence amounts to.
 */
module Calls {
  import opened Wrappers
  import opened Schema
  import opened Services
  import opened Runs

  /**
   * A call with the times it reads. `missed` says that its lookup, some time before, found
   * no enrollment with the key; `read` is the session row a cancellation saw, however old.
   */
  datatype Call =
    | Enrolls(p: Principal, requestId: string, req: EnrollRequest, clock: EnrollClock, missed: bool)
    | Cancels(p: Principal, requestId: string, sessionId: Id, reason: string, read: Session, expiry: Time, at: Time,
      auditAt: Time)
    | ChecksOut(p: Principal, requestId: string, equipmentId: Id, studentId: Id, forSession: Id, now: Time, at: Time,
      auditAt: Time)
    | Returns(p: Principal, requestId: string, back: ReturnRequest, at: Time, auditAt: Time)
    | Assigns(p: Principal, requestId: string, enrollmentId: Id, groupId: Id, expectedVersion: int, auditAt: Time)
    | Publishes(p: Principal, requestId: string, grade: PublishRequest, from: Time, until: Time, at: Time,
      auditAt: Time)
  {
    function AuditedAt(): Time { if Enrolls? then clock.auditAt else auditAt }
  }

  /** Whether the commit at the end of the call's transaction goes through. */
  datatype Attempt = Attempt(call: Call, commits: bool)

  function EffectOf(d: Result<Effect, HubError>): (e: Option<Effect>) {
    if d.Ok? then Some(d.value) else None
  }

  /** The effect the call's transaction arrives at; nothing when it is refused or replayed. */
  function Wanted(ref: Reference, t: Tables, call: Call): (e: Option<Effect>)
    ensures e.Some? ==> Allowed(t, e.value)
  {
    match call
    case Enrolls(p, requestId, req, clock, missed) =>
      if EnrollRefused(p, req).Some? || (!missed && KeyUsed(t.enrollments, req.key)) then None
      else EffectOf(Enrolling(ref, t, requestId, req, clock))
    case Cancels(p, requestId, sessionId, reason, read, expiry, at, _) =>
      if CancelRefused(p, reason).Some? then None
      else EffectOf(Canceling(t, requestId, sessionId, reason, read, expiry, at))
    case ChecksOut(p, requestId, equipmentId, studentId, sessionId, now, at, _) =>
      if CheckoutRefused(p, equipmentId, studentId, sessionId).Some? then None
      else EffectOf(CheckingOut(ref, t, p, requestId, equipmentId, studentId, sessionId, now, at))
    case Returns(p, requestId, req, at, _) =>
      if ReturnRefused(p, req).Some? then None else EffectOf(Returning(t, p, requestId, req, at))
    case Assigns(p, requestId, enrollmentId, groupId, expectedVersion, _) =>
      EffectOf(Assigning(ref, t, p, requestId, enrollmentId, groupId, expectedVersion))
    case Publishes(p, requestId, req, from, until, at, _) =>
      EffectOf(Publication(ref, t, p, requestId, req, from, until, at))
  }

  function StepOf(ref: Reference, t: Tables, a: Attempt): (s: Option<Step>)
    ensures s.Some? ==> Allowed(t, s.value.effect) && s.value.receipt.Some?
  {
    var e := Wanted(ref, t, a.call);
    if e.Some? && a.commits then
      Some(Step(e.value, Some(Receipt(a.call.p.accountId, a.call.requestId, a.call.AuditedAt()))))
    else None
  }

  function AfterCall(ref: Reference, t: Tables, a: Attempt): Tables {
    var s := StepOf(ref, t, a);
    if s.Some? then Next(t, s.value) else t
  }

  function AfterCalls(ref: Reference, t: Tables, calls: seq<Attempt>): Tables
    decreases |calls|
  {
    if calls == [] then t else AfterCalls(ref, AfterCall(ref, t, calls[0]), calls[1..])
  }

  /** The transactions a sequence of calls commits. */
  function StepsOf(ref: Reference, t: Tables, calls: seq<Attempt>): seq<Step>
    decreases |calls|
  {
    if calls == [] then []
    else
      var s := StepOf(ref, t, calls[0]);
      (if s.Some? then [s.value] else []) + StepsOf(ref, AfterCall(ref, t, calls[0]), calls[1..])
  }

  /** Calls that succeed without a replay: those that commit. */
  function Commits(ref: Reference, t: Tables, calls: seq<Attempt>): nat
    decreases |calls|
  {
    if calls == [] then 0
    else (if StepOf(ref, t, calls[0]).Some? then 1 else 0) + Commits(ref, AfterCall(ref, t, calls[0]), calls[1..])
  }

  lemma OneMoreStep(t: Tables, s: Step, steps: seq<Step>)
    requires Allowed(t, s.effect) && s.receipt.Some? && AllowedRun(Next(t, s), steps) && Receipted(steps)
    ensures AllowedRun(t, [s] + steps) && Receipted([s] + steps)
    ensures Run(t, [s] + steps) == Run(Next(t, s), steps)
  {
    assert ([s] + steps)[1..] == steps;
  }

  /** A sequence of calls, failures and replays included, is a run of receipted transactions. */
  lemma {:induction false} CallsAreARun(ref: Reference, t: Tables, calls: seq<Attempt>)
    ensures var steps := StepsOf(ref, t, calls);
            && AllowedRun(t, steps) && Receipted(steps) && |steps| == Commits(ref, t, calls)
            && Run(t, steps) == AfterCalls(ref, t, calls)
    decreases |calls|
  {
    if calls != [] {
      var (s, t') := (StepOf(ref, t, calls[0]), AfterCall(ref, t, calls[0]));
      CallsAreARun(ref, t', calls[1..]);
      if s.Some? {
        OneMoreStep(t, s.value, StepsOf(ref, t', calls[1..]));
      } else {
        assert [] + StepsOf(ref, t', calls[1..]) == StepsOf(ref, t', calls[1..]);
      }
    }
  }
}
