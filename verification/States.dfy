/**
 * The lifecycle table: machines, their edges, and the terminal states. The table is looked
 * up by the text `from:to`, so a lookup has to be unambiguous to mean an edge.
 */
module States {
  import opened Wrappers

  datatype Edge = Edge(from: string, to: string)
  datatype TransitionError = UnchangedState | IllegalTransition

  function Edges(machine: string): seq<Edge> {
    if machine == "course" then
      [Edge("scheduled", "in_progress"), Edge("scheduled", "canceled"),
       Edge("in_progress", "completed"), Edge("in_progress", "canceled")]
    else if machine == "enrollment" then
      [Edge("confirmed", "attended"), Edge("confirmed", "canceled"),
       Edge("confirmed", "makeup_due"), Edge("makeup_due", "confirmed")]
    else if machine == "assessment" then
      [Edge("draft", "submitted"), Edge("submitted", "passed"), Edge("submitted", "failed"),
        Edge("failed", "submitted")]
    else if machine == "equipment" then
      [Edge("available", "checked_out"), Edge("checked_out", "available"), Edge("checked_out", "isolated"),
       Edge("isolated", "maintenance"), Edge("maintenance", "available"), Edge("maintenance", "retired")]
    else if machine == "loan" then
      [Edge("active", "returned"), Edge("active", "damaged")]
    else if machine == "maintenance" then
      [Edge("open", "repairing"), Edge("repairing", "released"), Edge("repairing", "retired")]
    else if machine == "job" then
      [Edge("pending", "running"), Edge("retry", "running"), Edge("running", "succeeded"),
       Edge("running", "retry"), Edge("running", "failed")]
    else []
  }

  function Key(from: string, to: string): string { from + ":" + to }

  predicate HasKey(edges: seq<Edge>, key: string) {
    exists k :: 0 <= k < |edges| && Key(edges[k].from, edges[k].to) == key
  }

  function ValidateTransition(machine: string, from: string, to: string): Result<(), TransitionError> {
    if from == to then Err(UnchangedState)
    else if HasKey(Edges(machine), Key(from, to)) then Ok(())
    else Err(IllegalTransition)
  }

  predicate IsTerminal(machine: string, state: string) {
    if machine == "course" then state == "completed" || state == "canceled"
    else if machine == "assessment" then state == "passed"
    else if machine == "maintenance" then state == "released" || state == "retired"
    else if machine == "job" then state == "succeeded" || state == "failed"
    else false
  }

  ghost predicate ColonFree(e: Edge) { ':' !in e.from && ':' !in e.to }

  lemma CourseWords()
    ensures ':' !in "scheduled" && ':' !in "in_progress" && ':' !in "canceled" && ':' !in "completed"
  {
  }

  lemma EnrollmentWords()
    ensures ':' !in "confirmed" && ':' !in "attended" && ':' !in "canceled" && ':' !in "makeup_due"
  {
  }

  lemma AssessmentWords()
    ensures ':' !in "draft" && ':' !in "submitted" && ':' !in "passed" && ':' !in "failed"
  {
  }

  lemma EquipmentWords()
    ensures ':' !in "available" && ':' !in "checked_out" && ':' !in "isolated" && ':' !in "maintenance"
        && ':' !in "retired"
  {
  }

  lemma OtherWords()
    ensures ':' !in "active" && ':' !in "returned" && ':' !in "damaged"
    ensures ':' !in "open" && ':' !in "repairing" && ':' !in "released" && ':' !in "retired"
    ensures ':' !in "pending" && ':' !in "running" && ':' !in "retry" && ':' !in "succeeded" && ':' !in "failed"
  {
  }

  lemma {:induction false} EdgesAreColonFree(machine: string)
    ensures forall k :: 0 <= k < |Edges(machine)| ==> ColonFree(Edges(machine)[k])
  {
    CourseWords();
    EnrollmentWords();
    AssessmentWords();
    EquipmentWords();
    OtherWords();
  }

  /** Whatever the two states are, the key falls apart at the colon of the declared edge only. */
  lemma KeyIsUnambiguous(e: Edge, from: string, to: string)
    requires ColonFree(e) && Key(e.from, e.to) == Key(from, to)
    ensures e == Edge(from, to)
  {
    var key := Key(from, to);
    forall i | 0 <= i < |key| && i != |e.from| ensures key[i] != ':' {
      assert key[i] == if i < |e.from| then e.from[i] else e.to[i - |e.from| - 1];
    }
    assert key[|from|] == ':';
    assert key[..|from|] == from && key[..|e.from|] == e.from;
    assert key[|from| + 1..] == to && key[|e.from| + 1..] == e.to;
  }

  lemma KeysAreEdges(edges: seq<Edge>, from: string, to: string)
    requires forall k :: 0 <= k < |edges| ==> ColonFree(edges[k])
    ensures HasKey(edges, Key(from, to)) <==> Edge(from, to) in edges
  {
    if HasKey(edges, Key(from, to)) {
      var k :| 0 <= k < |edges| && Key(edges[k].from, edges[k].to) == Key(from, to);
      KeyIsUnambiguous(edges[k], from, to);
    }
    if Edge(from, to) in edges {
      var k :| 0 <= k < |edges| && edges[k] == Edge(from, to);
      assert Key(edges[k].from, edges[k].to) == Key(from, to);
    }
  }

  /** A transition is accepted exactly when its edge is declared, for any two state texts. */
  lemma AcceptedIsDeclared(machine: string, from: string, to: string)
    ensures ValidateTransition(machine, from, to).Ok? <==> from != to && Edge(from, to) in Edges(machine)
  {
    EdgesAreColonFree(machine);
    KeysAreEdges(Edges(machine), from, to);
  }

  /** No state text at all follows a terminal state. */
  lemma TerminalHasNoEdge(machine: string, state: string, to: string)
    requires IsTerminal(machine, state)
    ensures ValidateTransition(machine, state, to).Err?
  {
    AcceptedIsDeclared(machine, state, to);
  }

  // ----- the states of the rows

  datatype CourseStatus = Scheduled | InProgress | Completed | Canceled
  datatype EnrollmentStatus = Confirmed | Attended | EnrollmentCanceled | MakeupDue
  datatype AssessmentStatus = Draft | Submitted | Passed | AssessmentFailed
  datatype EquipmentStatus = Available | CheckedOut | Isolated | InMaintenance | Retired
  datatype LoanStatus = Active | Returned | Damaged

  function CourseText(s: CourseStatus): string {
    match s
    case Scheduled => "scheduled"
    case InProgress => "in_progress"
    case Completed => "completed"
    case Canceled => "canceled"
  }

  function EnrollmentText(s: EnrollmentStatus): string {
    match s
    case Confirmed => "confirmed"
    case Attended => "attended"
    case EnrollmentCanceled => "canceled"
    case MakeupDue => "makeup_due"
  }

  function AssessmentText(s: AssessmentStatus): string {
    match s
    case Draft => "draft"
    case Submitted => "submitted"
    case Passed => "passed"
    case AssessmentFailed => "failed"
  }

  function EquipmentText(s: EquipmentStatus): string {
    match s
    case Available => "available"
    case CheckedOut => "checked_out"
    case Isolated => "isolated"
    case InMaintenance => "maintenance"
    case Retired => "retired"
  }

  function LoanText(s: LoanStatus): string {
    match s
    case Active => "active"
    case Returned => "returned"
    case Damaged => "damaged"
  }

  predicate CourseEdge(from: CourseStatus, to: CourseStatus) {
    (from.Scheduled? && (to.InProgress? || to.Canceled?)) || (from.InProgress? && (to.Completed? || to.Canceled?))
  }

  predicate EnrollmentEdge(from: EnrollmentStatus, to: EnrollmentStatus) {
    (from.Confirmed? && !to.Confirmed?) || (from.MakeupDue? && to.Confirmed?)
  }

  predicate AssessmentEdge(from: AssessmentStatus, to: AssessmentStatus) {
    || ((from.Draft? || from.AssessmentFailed?) && to.Submitted?)
    || (from.Submitted? && (to.Passed? || to.AssessmentFailed?))
  }

  predicate EquipmentEdge(from: EquipmentStatus, to: EquipmentStatus) {
    || (from.Available? && to.CheckedOut?)
    || (from.CheckedOut? && (to.Available? || to.Isolated?))
    || (from.Isolated? && to.InMaintenance?)
    || (from.InMaintenance? && (to.Available? || to.Retired?))
  }

  predicate LoanEdge(from: LoanStatus, to: LoanStatus) { from.Active? && !to.Active? }

  lemma CourseEdgesAreDeclared(from: CourseStatus, to: CourseStatus)
    ensures CourseEdge(from, to) <==> ValidateTransition("course", CourseText(from), CourseText(to)).Ok?
  {
    AcceptedIsDeclared("course", CourseText(from), CourseText(to));
  }

  lemma EnrollmentEdgesAreDeclared(from: EnrollmentStatus, to: EnrollmentStatus)
    ensures EnrollmentEdge(from, to) <==> ValidateTransition("enrollment", EnrollmentText(from), EnrollmentText(to)).Ok?
  {
    AcceptedIsDeclared("enrollment", EnrollmentText(from), EnrollmentText(to));
  }

  lemma AssessmentEdgesAreDeclared(from: AssessmentStatus, to: AssessmentStatus)
    ensures AssessmentEdge(from, to) <==> ValidateTransition("assessment", AssessmentText(from), AssessmentText(to)).Ok?
  {
    AcceptedIsDeclared("assessment", AssessmentText(from), AssessmentText(to));
  }

  lemma EquipmentEdgesAreDeclared(from: EquipmentStatus, to: EquipmentStatus)
    ensures EquipmentEdge(from, to) <==> ValidateTransition("equipment", EquipmentText(from), EquipmentText(to)).Ok?
  {
    AcceptedIsDeclared("equipment", EquipmentText(from), EquipmentText(to));
  }

  lemma LoanEdgesAreDeclared(from: LoanStatus, to: LoanStatus)
    ensures LoanEdge(from, to) <==> ValidateTransition("loan", LoanText(from), LoanText(to)).Ok?
  {
    AcceptedIsDeclared("loan", LoanText(from), LoanText(to));
  }
}
