/** Equipment custody: equipment, loans and maintenance cases stay in lock-step. */
module CustodyLaws {
  import opened Wrappers
  import opened Schema
  import opened States
  import opened Runs
  import opened Sums

  type Items = map<Id, Equipment>
  type Loans = map<Id, Loan>

  /** An item is checked out exactly when it has exactly one active loan; else it has none. */
  ghost predicate RowsInCustody(items: Items, loans: Loans, next: Id) {
    && (forall l :: l in loans ==> loans[l].id == l && l < next && loans[l].equipmentId in items)
    && (forall i :: i in items ==> |ActiveLoans(loans, i)| == if items[i].status.CheckedOut? then 1 else 0)
  }

  ghost predicate Custody(t: Tables) { RowsInCustody(t.equipment, t.loans, t.nextLoan) }

  lemma LoanCounts(loans: Loans, loan: Loan, i: Id)
    requires loan.id !in loans
    ensures |ActiveLoans(loans[loan.id := loan], i)| ==
            |ActiveLoans(loans, i)| + if loan.equipmentId == i && loan.status.Active? then 1 else 0
    ensures |ClosedLoans(loans[loan.id := loan], i)| ==
            |ClosedLoans(loans, i)| + if loan.equipmentId == i && !loan.status.Active? then 1 else 0
  {
    var after := loans[loan.id := loan];
    if loan.equipmentId == i && loan.status.Active? {
      assert ActiveLoans(after, i) == ActiveLoans(loans, i) + {loan.id};
      assert ClosedLoans(after, i) == ClosedLoans(loans, i);
    } else if loan.equipmentId == i {
      assert ActiveLoans(after, i) == ActiveLoans(loans, i);
      assert ClosedLoans(after, i) == ClosedLoans(loans, i) + {loan.id};
    } else {
      assert ActiveLoans(after, i) == ActiveLoans(loans, i);
      assert ClosedLoans(after, i) == ClosedLoans(loans, i);
    }
  }

  lemma ReturnCounts(loans: Loans, l: Id, closed: Loan, i: Id)
    requires l in loans && loans[l].status.Active? && !closed.status.Active?
        && closed.equipmentId == loans[l].equipmentId
    ensures |ActiveLoans(loans[l := closed], i)| == |ActiveLoans(loans, i)| - if closed.equipmentId == i then 1 else 0
    ensures |ClosedLoans(loans[l := closed], i)| == |ClosedLoans(loans, i)| + if closed.equipmentId == i then 1 else 0
  {
    var after := loans[l := closed];
    if closed.equipmentId == i {
      assert ActiveLoans(loans, i) == ActiveLoans(after, i) + {l};
      assert ClosedLoans(after, i) == ClosedLoans(loans, i) + {l};
    } else {
      assert ActiveLoans(after, i) == ActiveLoans(loans, i);
      assert ClosedLoans(after, i) == ClosedLoans(loans, i);
    }
  }

  lemma RowsLent(items: Items, loans: Loans, next: Id, loan: Loan, item: Equipment)
    requires RowsInCustody(items, loans, next) && loan.id == next && loan.status.Active?
    requires loan.equipmentId in items && items[loan.equipmentId].status.Available? && item.status.CheckedOut?
    ensures RowsInCustody(items[loan.equipmentId := item], loans[next := loan], next + 1)
  {
    forall i | i in items
      ensures |ActiveLoans(loans[next := loan], i)| == |ActiveLoans(loans, i)| + if loan.equipmentId == i then 1 else 0
    {
      LoanCounts(loans, loan, i);
    }
  }

  lemma RowsReturned(items: Items, loans: Loans, next: Id, l: Id, closed: Loan, item: Equipment)
    requires RowsInCustody(items, loans, next) && l in loans && loans[l].status.Active?
    requires !closed.status.Active? && closed.equipmentId == loans[l].equipmentId && closed.id == l
    requires items[closed.equipmentId].status.CheckedOut? && !item.status.CheckedOut?
    ensures RowsInCustody(items[closed.equipmentId := item], loans[l := closed], next)
  {
    forall i | i in items
      ensures |ActiveLoans(loans[l := closed], i)| == |ActiveLoans(loans, i)| - if closed.equipmentId == i then 1 else 0
    {
      ReturnCounts(loans, l, closed, i);
    }
  }

  function LentItem(item: Equipment): Equipment { item.(status := CheckedOut, version := item.version + 1) }

  function ReturnedItem(item: Equipment, damaged: bool): Equipment {
    item.(status := if damaged then Isolated else Available, version := item.version + 1)
  }

  lemma CustodyStep(t: Tables, e: Effect)
    requires Custody(t) && Allowed(t, e)
    ensures Custody(Apply(t, e))
  {
    match e
    case Lending(loan) => RowsLent(t.equipment, t.loans, t.nextLoan, loan, LentItem(t.equipment[loan.equipmentId]));
    case Return(l, damage, at) =>
      var closed := ClosedLoan(t.loans[l], damage.Some?, at);
      RowsReturned(t.equipment, t.loans, t.nextLoan, l, closed,
        ReturnedItem(t.equipment[closed.equipmentId], damage.Some?));
    case _ =>
  }

  /** A loan that is active has its item checked out: the second update of a return finds its row. */
  lemma ActiveLoanHoldsItsItem(t: Tables, l: Id)
    requires Custody(t) && l in t.loans && t.loans[l].status.Active?
    ensures t.equipment[t.loans[l].equipmentId].status.CheckedOut?
    ensures ActiveLoans(t.loans, t.loans[l].equipmentId) == {l}
  {
    var active := ActiveLoans(t.loans, t.loans[l].equipmentId);
    assert l in active;
    SubsetSize({l}, active);
  }

  // ----- versions count loans

  /** The number that never changes: version minus two for each closed loan, one for an active one. */
  ghost function LoanCharge(items: Items, loans: Loans, i: Id): int
    requires i in items
  {
    items[i].version - 2 * |ClosedLoans(loans, i)| - |ActiveLoans(loans, i)|
  }

  /** Items keep their charge, and an isolated item stays exactly as it is. */
  ghost predicate ItemsKept(items0: Items, loans0: Loans, items: Items, loans: Loans) {
    && items.Keys == items0.Keys
    && (forall i :: i in items0 ==> LoanCharge(items, loans, i) == LoanCharge(items0, loans0, i))
    && (forall i :: i in items0 && items0[i].status.Isolated? ==> items[i] == items0[i])
  }

  lemma KeptByLending(items: Items, loans: Loans, loan: Loan)
    requires loan.id !in loans && loan.status.Active?
    requires loan.equipmentId in items && items[loan.equipmentId].status.Available?
    ensures ItemsKept(items, loans, items[loan.equipmentId := LentItem(items[loan.equipmentId])],
        loans[loan.id := loan])
  {
    var (items', loans') := (items[loan.equipmentId := LentItem(items[loan.equipmentId])], loans[loan.id := loan]);
    forall i | i in items ensures LoanCharge(items', loans', i) == LoanCharge(items, loans, i) {
      LoanCounts(loans, loan, i);
    }
  }

  lemma KeptByReturn(items: Items, loans: Loans, l: Id, closed: Loan, damaged: bool)
    requires l in loans && loans[l].status.Active? && !closed.status.Active?
        && closed.equipmentId == loans[l].equipmentId
    requires closed.equipmentId in items && items[closed.equipmentId].status.CheckedOut?
    ensures ItemsKept(items, loans, items[closed.equipmentId := ReturnedItem(items[closed.equipmentId], damaged)],
        loans[l := closed])
  {
    var (items', loans') :=
      (items[closed.equipmentId := ReturnedItem(items[closed.equipmentId], damaged)], loans[l := closed]);
    forall i | i in items ensures LoanCharge(items', loans', i) == LoanCharge(items, loans, i) {
      ReturnCounts(loans, l, closed, i);
    }
  }

  lemma KeptStep(t: Tables, e: Effect)
    requires Custody(t) && Allowed(t, e)
    ensures ItemsKept(t.equipment, t.loans, Apply(t, e).equipment, Apply(t, e).loans)
  {
    match e
    case Lending(loan) => KeptByLending(t.equipment, t.loans, loan);
    case Return(l, damage, at) =>
      KeptByReturn(t.equipment, t.loans, l, ClosedLoan(t.loans[l], damage.Some?, at), damage.Some?);
    case _ =>
  }

  /** Custody over every run, with versions as exact counts of loans opened and closed. */
  lemma CustodyConserved(t: Tables, steps: seq<Step>)
    requires Custody(t) && AllowedRun(t, steps)
    ensures Custody(Run(t, steps))
    ensures ItemsKept(t.equipment, t.loans, Run(t, steps).equipment, Run(t, steps).loans)
  {
    var inv := (u: Tables) => Custody(u) && ItemsKept(t.equipment, t.loans, u.equipment, u.loans);
    forall u: Tables, e: Effect, log: seq<AuditEvent> | inv(u) && Allowed(u, e)
      ensures inv(Apply(u, e).(audit := log))
    {
      CustodyStep(u, e);
      KeptStep(u, e);
    }
    RunKeeps(t, steps, inv);
  }

  // ----- damaged loans and their cases

  /** Cases that name a loan and damaged loans are in bijection, item by item. */
  ghost predicate RowsCased(loans: Loans, cases: map<Id, Case>, nextCase: Id) {
    && (forall c :: c in cases ==> c < nextCase)
    && (forall c :: c in cases && cases[c].loanId.Some? ==>
          var l := cases[c].loanId.value;
          l in loans && loans[l].status.Damaged? && cases[c].equipmentId == loans[l].equipmentId)
    && (forall c, d :: c in cases && d in cases && cases[c].loanId.Some? && cases[c].loanId == cases[d].loanId ==>
      c == d)
    && (forall l :: l in loans && loans[l].status.Damaged? ==> HasCase(cases, l))
  }

  ghost predicate HasCase(cases: map<Id, Case>, l: Id) {
    exists c :: c in cases && cases[c].loanId == Some(l)
  }

  ghost predicate Cases(t: Tables) { RowsCased(t.loans, t.cases, t.nextCase) }

  lemma CasedLending(loans: Loans, cases: map<Id, Case>, nextCase: Id, loan: Loan)
    requires RowsCased(loans, cases, nextCase) && loan.id !in loans && loan.status.Active?
    ensures RowsCased(loans[loan.id := loan], cases, nextCase)
  {
  }

  lemma CasedReturn(loans: Loans, cases: map<Id, Case>, nextCase: Id, l: Id, closed: Loan)
    requires RowsCased(loans, cases, nextCase) && l in loans && loans[l].status.Active?
    requires closed.status.Returned? && closed.equipmentId == loans[l].equipmentId
    ensures RowsCased(loans[l := closed], cases, nextCase)
  {
  }

  lemma CasedDamage(loans: Loans, cases: map<Id, Case>, nextCase: Id, l: Id, closed: Loan, made: Case)
    requires RowsCased(loans, cases, nextCase) && l in loans && loans[l].status.Active?
    requires closed.status.Damaged? && closed.equipmentId == loans[l].equipmentId == made.equipmentId
    requires made.loanId == Some(l)
    ensures RowsCased(loans[l := closed], cases[nextCase := made], nextCase + 1)
  {
    var (loans', cases') := (loans[l := closed], cases[nextCase := made]);
    forall k | k in loans' && loans'[k].status.Damaged? ensures HasCase(cases', k) {
      if k == l {
        assert cases'[nextCase].loanId == Some(l);
      } else {
        var c :| c in cases && cases[c].loanId == Some(k);
        assert c in cases' && cases'[c].loanId == Some(k);
      }
    }
  }

  lemma CasesStep(t: Tables, e: Effect)
    requires Custody(t) && Cases(t) && Allowed(t, e)
    ensures Cases(Apply(t, e))
  {
    match e
    case Lending(loan) => CasedLending(t.loans, t.cases, t.nextCase, loan);
    case Return(l, damage, at) =>
      var closed := ClosedLoan(t.loans[l], damage.Some?, at);
      if damage.Some? {
        CasedDamage(t.loans, t.cases, t.nextCase, l, closed, damage.value);
      } else {
        CasedReturn(t.loans, t.cases, t.nextCase, l, closed);
      }
    case _ =>
  }

  /** Over every run each damaged return has its one maintenance case, and no case lacks its loan. */
  lemma CasesConserved(t: Tables, steps: seq<Step>)
    requires Custody(t) && Cases(t) && AllowedRun(t, steps)
    ensures Cases(Run(t, steps))
  {
    var inv := (u: Tables) => Custody(u) && Cases(u);
    forall u: Tables, e: Effect, log: seq<AuditEvent> | inv(u) && Allowed(u, e)
      ensures inv(Apply(u, e).(audit := log))
    {
      CustodyStep(u, e);
      CasesStep(u, e);
    }
    RunKeeps(t, steps, inv);
  }
}
