/**
 * Runs of committed transactions. A service call commits its effect with an audit event;
 * the store's own operations commit without one. Whatever rolls back is not a step.
 */
module Runs {
  import opened Wrappers
  import opened Schema

  datatype Receipt = Receipt(actorId: Id, requestId: string, at: Time)
  datatype Step = Step(effect: Effect, receipt: Option<Receipt>)

  function Log(t: Tables, s: Step): seq<AuditEvent>
    requires Allowed(t, s.effect)
  {
    match s.receipt
    case None => t.audit
    case Some(r) => t.audit + [AuditEvent(r.actorId, r.requestId, ActionOf(t, s.effect), r.at)]
  }

  function Next(t: Tables, s: Step): Tables
    requires Allowed(t, s.effect)
  {
    Apply(t, s.effect).(audit := Log(t, s))
  }

  ghost predicate AllowedRun(t: Tables, steps: seq<Step>)
    decreases |steps|
  {
    steps == [] || (Allowed(t, steps[0].effect) && AllowedRun(Next(t, steps[0]), steps[1..]))
  }

  function Run(t: Tables, steps: seq<Step>): Tables
    requires AllowedRun(t, steps)
    decreases |steps|
  {
    if steps == [] then t else Run(Next(t, steps[0]), steps[1..])
  }

  /** What every effect keeps, whatever is logged, holds after every run. */
  lemma {:induction false} RunKeeps(t: Tables, steps: seq<Step>, inv: Tables -> bool)
    requires inv(t) && AllowedRun(t, steps)
    requires forall u: Tables, e: Effect, log: seq<AuditEvent> ::
      inv(u) && Allowed(u, e) ==> inv(Apply(u, e).(audit := log))
    ensures inv(Run(t, steps))
    decreases |steps|
  {
    if steps != [] {
      assert inv(Apply(t, steps[0].effect).(audit := Log(t, steps[0])));
      RunKeeps(Next(t, steps[0]), steps[1..], inv);
    }
  }

  /** The same for runs of service calls, which all write their event. */
  lemma {:induction false} ReceiptedRunKeeps(t: Tables, steps: seq<Step>, inv: Tables -> bool)
    requires inv(t) && AllowedRun(t, steps) && Receipted(steps)
    requires forall u: Tables, s: Step :: inv(u) && Allowed(u, s.effect) && s.receipt.Some? ==> inv(Next(u, s))
    ensures inv(Run(t, steps))
    decreases |steps|
  {
    if steps != [] {
      assert inv(Next(t, steps[0]));
      ReceiptedRunKeeps(Next(t, steps[0]), steps[1..], inv);
    }
  }

  ghost predicate Receipted(steps: seq<Step>) { forall k :: 0 <= k < |steps| ==> steps[k].receipt.Some? }

  /** A run can be cut anywhere. */
  lemma {:induction false} RunSplit(t: Tables, a: seq<Step>, b: seq<Step>)
    requires AllowedRun(t, a + b)
    ensures AllowedRun(t, a) && AllowedRun(Run(t, a), b)
    ensures Run(t, a + b) == Run(Run(t, a), b)
    decreases |a|
  {
    if a == [] {
      assert a + b == b;
    } else {
      assert (a + b)[0] == a[0] && (a + b)[1..] == a[1..] + b;
      RunSplit(Next(t, a[0]), a[1..], b);
    }
  }
}
