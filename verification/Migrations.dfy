/**
 * Schema migrations: files sorted by name, each applied with its ledger row in one
 * transaction, and a run that may stop anywhere and be started again.
 */
module Migrations {
  import opened Wrappers
  import opened Text

  datatype File = File(name: string, isDir: bool, body: string)

  // ----- file names

  predicate HasSuffix(s: string, suffix: string) {
    |suffix| <= |s| && s[|s| - |suffix|..] == suffix
  }

  /** The text before the first underscore, or all of it. */
  function Prefix(name: string): string {
    if name == "" || name[0] == '_' then "" else [name[0]] + Prefix(name[1..])
  }

  /** `strconv.Atoi` with 64-bit integers. */
  function Atoi(s: string): Option<int> {
    var signed := s != "" && (s[0] == '+' || s[0] == '-');
    var digits := if signed then s[1..] else s;
    if digits == "" || !AllDigits(digits) then None
    else
      var n := if s[0] == '-' then -Number(digits) else Number(digits);
      if -0x8000_0000_0000_0000 <= n <= 0x7FFF_FFFF_FFFF_FFFF then Some(n) else None
  }

  datatype Script = Script(version: int, body: string)

  /** What a run makes of a file before it looks at the ledger. */
  datatype Reading = Skipped | Malformed | Numbered(script: Script)

  function Read(f: File): Reading {
    if f.isDir || !HasSuffix(f.name, ".sql") then Skipped
    else
      match Atoi(Prefix(f.name))
      case None => Malformed
      case Some(version) => Numbered(Script(version, f.body))
  }

  function Readings(files: seq<File>): seq<Reading> {
    seq(|files|, i requires 0 <= i < |files| => Read(files[i]))
  }

  lemma {:induction false} PrefixEnds(prefix: string, rest: string)
    requires '_' !in prefix && (rest == "" || rest[0] == '_')
    ensures Prefix(prefix + rest) == prefix
  {
    if prefix == "" {
      assert "" + rest == rest;
    } else {
      assert (prefix + rest)[1..] == prefix[1..] + rest;
      PrefixEnds(prefix[1..], rest);
    }
  }

  /** A run reads exactly the files, not directories, whose name ends in `.sql`. */
  lemma SkippedExactlyWhen(f: File)
    ensures Read(f).Skipped? <==> f.isDir || !exists stem :: f.name == stem + ".sql"
  {
    if HasSuffix(f.name, ".sql") {
      assert f.name == f.name[..|f.name| - 4] + ".sql";
    }
    forall stem | f.name == stem + ".sql" ensures HasSuffix(f.name, ".sql") {
      assert f.name[|f.name| - 4..] == ".sql";
    }
  }

  lemma AtoiOfDigits(sign: string, digits: string)
    requires sign in ["", "+", "-"] && digits != "" && AllDigits(digits)
    ensures var n := if sign == "-" then -Number(digits) else Number(digits);
            Atoi(sign + digits)
            == if -0x8000_0000_0000_0000 <= n <= 0x7FFF_FFFF_FFFF_FFFF then Some(n) else None
  {
    var s := sign + digits;
    if sign == "" {
      assert s == digits && IsDigit(digits[0]);
    } else {
      assert s[1..] == digits && s[0] == sign[0];
    }
  }

  lemma ReadByPrefix(f: File, prefix: string, rest: string)
    requires !f.isDir && '_' !in prefix && f.name == prefix + ("_" + rest + ".sql")
    ensures Read(f) == match Atoi(prefix)
                       case None => Malformed
                       case Some(version) => Numbered(Script(version, f.body))
  {
    assert f.name[|f.name| - 4..] == ".sql";
    PrefixEnds(prefix, "_" + rest + ".sql");
  }

  /** The version is the number written before the first underscore, leading zeros and all. */
  lemma VersionOfName(f: File, sign: string, version: int, width: nat, rest: string)
    requires !f.isDir && sign in ["", "+", "-"] && 0 < width
    requires 0 <= version < Pow10(width) && version <= 0x7FFF_FFFF_FFFF_FFFF
    requires f.name == sign + Digits(version, width) + ("_" + rest + ".sql")
    ensures Read(f) == Numbered(Script(if sign == "-" then -version else version, f.body))
  {
    var (digits, prefix) := (Digits(version, width), sign + Digits(version, width));
    NumberOfDigits(version, width);
    AtoiOfDigits(sign, digits);
    NoUnderscore(sign, digits);
    ReadByPrefix(f, prefix, rest);
  }

  lemma NoUnderscore(sign: string, digits: string)
    requires sign in ["", "+", "-"] && AllDigits(digits)
    ensures '_' !in sign + digits
  {
    forall i | 0 <= i < |sign + digits| ensures (sign + digits)[i] != '_' {
      assert i >= |sign| ==> IsDigit(digits[i - |sign|]);
    }
  }

  /** Any other text there ends the run with an error. */
  lemma MalformedName(f: File, prefix: string, rest: string)
    requires !f.isDir && '_' !in prefix && f.name == prefix + ("_" + rest + ".sql")
    requires prefix == "" || !AllDigits(prefix[1..]) || prefix in ["+", "-"] || prefix[0] !in "+-0123456789"
    ensures Read(f).Malformed?
  {
    ReadByPrefix(f, prefix, rest);
    if AllDigits(prefix) && prefix != "" {
      assert IsDigit(prefix[0]);
      assert AllDigits(prefix[1..]);
      DigitIsListed(prefix[0]);
    }
  }

  lemma DigitIsListed(c: char)
    requires IsDigit(c)
    ensures c in "0123456789"
  {
    var digits := "0123456789";
    assert digits[DigitValue(c)] == c by {
      assert c == Digit(DigitValue(c));
    }
  }

  // ----- sorting

  ghost predicate SortedByName(files: seq<File>) {
    forall i, j :: 0 <= i < j < |files| ==> !TextLess(files[j].name, files[i].name)
  }

  lemma NotLessIsTransitive(a: string, b: string, c: string)
    requires !TextLess(b, a) && !TextLess(c, b)
    ensures !TextLess(c, a)
  {
    TextOrderIsTotal(a, b);
    TextOrderIsTotal(b, c);
    TextOrderIsTotal(a, c);
    if TextLess(a, b) && TextLess(b, c) {
      TextOrderIsTransitive(a, b, c);
    }
  }

  /** Sorted up to `i`, but for the entry at `j`, which may belong further forward. */
  ghost predicate SortedBut(files: seq<File>, i: nat, j: nat)
    requires j <= i < |files|
  {
    forall p, q :: 0 <= p < q <= i && q != j ==> !TextLess(files[q].name, files[p].name)
  }

  function Swapped(files: seq<File>, j: nat): seq<File>
    requires 0 < j < |files|
  {
    files[j := files[j - 1]][j - 1 := files[j]]
  }

  lemma SwapSinks(files: seq<File>, i: nat, j: nat)
    requires 0 < j <= i < |files| && SortedBut(files, i, j) && TextLess(files[j].name, files[j - 1].name)
    ensures SortedBut(Swapped(files, j), i, j - 1)
  {
    TextOrderIsTotal(files[j].name, files[j - 1].name);
  }

  lemma SwapKeepsFiles(files: seq<File>, j: nat)
    requires 0 < j < |files|
    ensures multiset(Swapped(files, j)) == multiset(files)
  {
  }

  lemma Sunk(files: seq<File>, i: nat, j: nat)
    requires j <= i < |files| && SortedBut(files, i, j)
    requires j > 0 ==> !TextLess(files[j].name, files[j - 1].name)
    ensures SortedByName(files[..i + 1])
  {
    forall p | 0 <= p < j ensures !TextLess(files[j].name, files[p].name) {
      if p < j - 1 {
        NotLessIsTransitive(files[p].name, files[j - 1].name, files[j].name);
      }
    }
  }

  /** Sinks the entry at `i` into the sorted entries before it. */
  method Sink(a: array<File>, i: nat)
    requires i < a.Length && SortedByName(a[..i])
    modifies a
    ensures SortedByName(a[..i + 1]) && multiset(a[..]) == multiset(old(a[..]))
  {
    var j := i;
    while j > 0 && TextLess(a[j].name, a[j - 1].name)
      invariant 0 <= j <= i && SortedBut(a[..], i, j) && multiset(a[..]) == multiset(old(a[..]))
    {
      ghost var files := a[..];
      SwapSinks(files, i, j);
      SwapKeepsFiles(files, j);
      a[j], a[j - 1] := a[j - 1], a[j];
      assert a[..] == Swapped(files, j);
      j := j - 1;
    }
    Sunk(a[..], i, j);
  }

  method SortByName(a: array<File>)
    modifies a
    ensures SortedByName(a[..]) && multiset(a[..]) == multiset(old(a[..]))
  {
    for i := 0 to a.Length
      invariant SortedByName(a[..i]) && multiset(a[..]) == multiset(old(a[..]))
    {
      Sink(a, i);
    }
    assert a[..a.Length] == a[..];
  }

  ghost predicate NamesDiffer(files: seq<File>) {
    forall i, j :: 0 <= i < j < |files| ==> files[i].name != files[j].name
  }

  /** The files of a directory have one sorted order, whatever order they were listed in. */
  lemma {:induction false} SortedOrderIsUnique(a: seq<File>, b: seq<File>)
    requires SortedByName(a) && SortedByName(b) && multiset(a) == multiset(b) && NamesDiffer(a)
    ensures a == b
    decreases |a|
  {
    assert |a| == |multiset(a)| && |b| == |multiset(b)|;
    if a != [] {
      SameFirst(a, b);
      assert a == [a[0]] + a[1..] && b == [b[0]] + b[1..];
      assert multiset(a[1..]) == multiset(a) - multiset{a[0]};
      assert multiset(b[1..]) == multiset(b) - multiset{b[0]};
      SortedOrderIsUnique(a[1..], b[1..]);
    }
  }

  lemma SameFirst(a: seq<File>, b: seq<File>)
    requires SortedByName(a) && SortedByName(b) && multiset(a) == multiset(b) && NamesDiffer(a)
    requires a != [] && b != []
    ensures a[0] == b[0]
  {
    assert b[0] in multiset(b) && a[0] in multiset(a);
    var i :| 0 <= i < |a| && a[i] == b[0];
    var j :| 0 <= j < |b| && b[j] == a[0];
    TextOrderIsTotal(a[0].name, b[0].name);
  }

  // ----- one run

  /** The ledger of versions, and the scripts that made the schema, in their order. */
  datatype State = State(ledger: set<int>, schema: seq<string>)

  const EMPTY := State({}, [])

  datatype Moment = AtCount | AtBody | AtLedger | AtCommit

  /** Where a run is cut short: at the files it never reaches, nothing happens. */
  datatype Fault = NoFault | Fault(at: nat, moment: Moment)

  datatype MigrationError = InvalidName(name: string) | Aborted

  datatype Outcome = Outcome(state: State, done: bool)

  function Applied(s: State, script: Script): State {
    State(s.ledger + {script.version}, s.schema + [script.body])
  }

  /** What a run does with one file, and whether it goes on to the next. */
  function Visited(s: State, r: Reading, moment: Option<Moment>): Outcome {
    match r
    case Skipped => Outcome(s, true)
    case Malformed => Outcome(s, false)
    case Numbered(script) =>
      if moment.Some? && moment.value.AtCount? then Outcome(s, false)
      else if script.version in s.ledger then Outcome(s, true)
      else if moment.Some? then Outcome(s, false)
      else Outcome(Applied(s, script), true)
  }

  function MomentAt(fault: Fault, k: nat): Option<Moment> {
    if fault.Fault? && fault.at == k then Some(fault.moment) else None
  }

  /** The rest of a run, from the k-th file on. */
  function Pass(readings: seq<Reading>, s: State, k: nat, fault: Fault): Outcome
    requires k <= |readings|
    decreases |readings| - k
  {
    if k == |readings| then Outcome(s, MomentAt(fault, k).None?)
    else
      var visited := Visited(s, readings[k], MomentAt(fault, k));
      if visited.done then Pass(readings, visited.state, k + 1, fault) else visited
  }

  class Database {
    var ledger: set<int>
    var schema: seq<string>

    constructor ()
      ensures Tables() == EMPTY
    {
      ledger, schema := {}, [];
    }

    function Tables(): State reads this { State(ledger, schema) }

    /** One script and its ledger row in a transaction: both or neither. */
    method Apply(script: Script, moment: Option<Moment>) returns (ok: bool)
      modifies this
      ensures ok <==> moment.None? || moment.value.AtCount?
      ensures Tables() == if ok then Applied(old(Tables()), script) else old(Tables())
    {
      var (savedLedger, savedSchema) := (ledger, schema);
      ok := moment.None? || !moment.value.AtBody?;
      if ok {
        schema := schema + [script.body];
        ok := moment.None? || !moment.value.AtLedger?;
      }
      if ok {
        ledger := ledger + {script.version};
        ok := moment.None? || !moment.value.AtCommit?;
      }
      if !ok {
        ledger, schema := savedLedger, savedSchema;
      }
    }

    method Visit(file: File, moment: Option<Moment>) returns (r: Result<(), MigrationError>)
      modifies this
      ensures Outcome(Tables(), r.Ok?) == Visited(old(Tables()), Read(file), moment)
    {
      if file.isDir || !HasSuffix(file.name, ".sql") {
        return Ok(());
      }
      var version := Atoi(Prefix(file.name));
      if version.None? {
        return Err(InvalidName(file.name));
      }
      if moment.Some? && moment.value.AtCount? {
        return Err(Aborted);
      }
      if version.value in ledger {
        return Ok(());
      }
      var ok := Apply(Script(version.value, file.body), moment);
      r := if ok then Ok(()) else Err(Aborted);
    }
  }

  method Migrate(db: Database, files: array<File>, fault: Fault) returns (r: Result<(), MigrationError>)
    modifies db, files
    ensures SortedByName(files[..]) && multiset(files[..]) == multiset(old(files[..]))
    ensures Outcome(db.Tables(), r.Ok?) == Pass(Readings(files[..]), old(db.Tables()), 0, fault)
  {
    SortByName(files);
    ghost var sorted := files[..];
    ghost var all := Pass(Readings(sorted), old(db.Tables()), 0, fault);
    var i := 0;
    while i < files.Length
      invariant i <= files.Length && files[..] == sorted
      invariant Pass(Readings(sorted), db.Tables(), i, fault) == all
    {
      r := db.Visit(files[i], MomentAt(fault, i));
      if r.Err? {
        return;
      }
      i := i + 1;
    }
    r := if MomentAt(fault, i).None? then Ok(()) else Err(Aborted);
  }

  // ----- the plan: each version once, by the first file that has it

  /** What a sequence of scripts makes of an empty database. */
  function StateOf(plan: seq<Script>): State {
    if plan == [] then EMPTY else Applied(StateOf(plan[..|plan| - 1]), plan[|plan| - 1])
  }

  /** What the first k files apply on an empty database. */
  function Plan(readings: seq<Reading>, k: nat): seq<Script>
    requires k <= |readings|
  {
    if k == 0 then []
    else
      var (plan, r) := (Plan(readings, k - 1), readings[k - 1]);
      if r.Numbered? && r.script.version !in StateOf(plan).ledger then plan + [r.script] else plan
  }

  /** How many files a run can read: up to the first name without a version. */
  function Readable(readings: seq<Reading>, k: nat): (n: nat)
    requires k <= |readings|
    ensures k <= n <= |readings|
    ensures forall i :: k <= i < n ==> !readings[i].Malformed?
    ensures n < |readings| ==> readings[n].Malformed?
    decreases |readings| - k
  {
    if k == |readings| || readings[k].Malformed? then k else Readable(readings, k + 1)
  }

  function FullPlan(readings: seq<Reading>): seq<Script> { Plan(readings, Readable(readings, 0)) }

  lemma {:induction false} PlansGrow(readings: seq<Reading>, k: nat, n: nat)
    requires k <= n <= |readings|
    ensures Plan(readings, k) <= Plan(readings, n)
    decreases n - k
  {
    if k < n {
      PlansGrow(readings, k, n - 1);
    }
  }

  lemma StateOfMore(plan: seq<Script>, script: Script)
    ensures StateOf(plan + [script]) == Applied(StateOf(plan), script)
  {
    assert (plan + [script])[..|plan|] == plan;
  }

  lemma {:induction false} LedgersGrow(a: seq<Script>, b: seq<Script>)
    requires a <= b
    ensures StateOf(a).ledger <= StateOf(b).ledger
    decreases |b|
  {
    if |a| < |b| {
      LedgersGrow(a, b[..|b| - 1]);
    } else {
      assert a == b;
    }
  }

  /** A script whose version the ledger lacks at the n-th place of the plan is the next one of it. */
  lemma {:induction false} ScriptAgainstPlan(plan: seq<Script>, now: seq<Script>, n: nat, script: Script)
    requires now <= plan && |now| <= n <= |plan|
    requires script.version !in StateOf(now).ledger ==> now + [script] <= plan
    ensures script.version in StateOf(plan[..n]).ledger && script.version !in StateOf(now).ledger ==> |now| + 1 <= n
    ensures script.version !in StateOf(plan[..n]).ledger ==> n == |now| && now + [script] <= plan
  {
    LedgersGrow(now, plan[..n]);
    if n == |now| {
      assert plan[..n] == now;
    } else if script.version !in StateOf(now).ledger {
      StateOfMore(now, script);
      assert now + [script] <= plan[..n];
      LedgersGrow(now + [script], plan[..n]);
    }
  }

  /** One file takes a database at some place of the plan to the same place or the next. */
  lemma VisitFollowsPlan(readings: seq<Reading>, plan: seq<Script>, s: State, n: nat, k: nat, moment: Option<Moment>)
    returns (m: nat)
    requires k < |readings| && !readings[k].Malformed? && Plan(readings, k) <= plan && Plan(readings, k + 1) <= plan
    requires |Plan(readings, k)| <= n <= |plan| && s == StateOf(plan[..n])
    ensures n <= m <= |plan| && Visited(s, readings[k], moment).state == StateOf(plan[..m])
    ensures Visited(s, readings[k], moment).done ==> |Plan(readings, k + 1)| <= m
    ensures moment.None? ==> Visited(s, readings[k], moment).done
  {
    m := n;
    if readings[k].Numbered? {
      m := ScriptFollowsPlan(plan, Plan(readings, k), n, readings[k].script, moment);
    }
  }

  lemma VisitOnTheWay(readings: seq<Reading>, end: nat, s: State, n: nat, k: nat, moment: Option<Moment>)
    returns (m: nat)
    requires k < end <= |readings| && !readings[k].Malformed?
    requires |Plan(readings, k)| <= n <= |Plan(readings, end)| && s == StateOf(Plan(readings, end)[..n])
    ensures n <= m <= |Plan(readings, end)|
    ensures Visited(s, readings[k], moment).state == StateOf(Plan(readings, end)[..m])
    ensures Visited(s, readings[k], moment).done ==> |Plan(readings, k + 1)| <= m
    ensures moment.None? ==> Visited(s, readings[k], moment).done
  {
    PlansGrow(readings, k, end);
    PlansGrow(readings, k + 1, end);
    m := VisitFollowsPlan(readings, Plan(readings, end), s, n, k, moment);
  }

  lemma {:induction false} ScriptFollowsPlan(plan: seq<Script>, now: seq<Script>, n: nat, script: Script,
        moment: Option<Moment>)
    returns (m: nat)
    requires now <= plan && |now| <= n <= |plan|
    requires script.version !in StateOf(now).ledger ==> now + [script] <= plan
    ensures n <= m <= |plan|
    ensures Visited(StateOf(plan[..n]), Numbered(script), moment).state == StateOf(plan[..m])
    ensures Visited(StateOf(plan[..n]), Numbered(script), moment).done ==>
              |now| + (if script.version in StateOf(now).ledger then 0 else 1) <= m
  {
    m := n;
    ScriptAgainstPlan(plan, now, n, script);
    if script.version !in StateOf(plan[..n]).ledger && moment.None? {
      m := n + 1;
      assert plan[..m] == plan[..n] + [script];
      StateOfMore(plan[..n], script);
    }
  }

  /** The files a run can read end here: behind the last one, or at a name without a version. */
  ghost predicate EndsAt(readings: seq<Reading>, end: nat) {
    && end <= |readings| && (forall i :: 0 <= i < end ==> !readings[i].Malformed?)
    && (end < |readings| ==> readings[end].Malformed?)
  }

  /**
   * A run from some place of the plan comes to a place no earlier: the last one when nothing
   * interrupts it, and it reports success only there, with every name readable.
   */
  lemma {:induction false} PassFollowsPlan(readings: seq<Reading>, end: nat, s: State, n: nat, k: nat, fault: Fault)
    returns (m: nat)
    requires EndsAt(readings, end) && k <= end
    requires |Plan(readings, k)| <= n <= |Plan(readings, end)| && s == StateOf(Plan(readings, end)[..n])
    ensures n <= m <= |Plan(readings, end)| && Pass(readings, s, k, fault).state == StateOf(Plan(readings, end)[..m])
    ensures Pass(readings, s, k, fault).done || fault.NoFault? ==> m == |Plan(readings, end)|
    ensures Pass(readings, s, k, fault).done ==> end == |readings|
    ensures fault.NoFault? && end == |readings| ==> Pass(readings, s, k, fault).done
    decreases |readings| - k
  {
    m := n;
    if k < end {
      m := VisitOnTheWay(readings, end, s, n, k, MomentAt(fault, k));
      var visited := Visited(s, readings[k], MomentAt(fault, k));
      if visited.done {
        m := PassFollowsPlan(readings, end, visited.state, m, k + 1, fault);
      }
    }
  }

  // ----- any number of runs

  /** The database after runs that each stop where their fault says. */
  function AfterRuns(readings: seq<Reading>, s: State, faults: seq<Fault>): State
    decreases |faults|
  {
    if faults == [] then s else AfterRuns(readings, Pass(readings, s, 0, faults[0]).state, faults[1..])
  }

  lemma {:induction false} RunsFollowPlan(readings: seq<Reading>, n: nat, faults: seq<Fault>) returns (m: nat)
    requires n <= |FullPlan(readings)|
    ensures n <= m <= |FullPlan(readings)|
    ensures AfterRuns(readings, StateOf(FullPlan(readings)[..n]), faults) == StateOf(FullPlan(readings)[..m])
    decreases |faults|
  {
    m := n;
    if faults != [] {
      m := PassFollowsPlan(readings, Readable(readings, 0), StateOf(FullPlan(readings)[..n]), n, 0, faults[0]);
      m := RunsFollowPlan(readings, m, faults[1..]);
    }
  }

  /** After any number of runs, each cut anywhere, ledger and schema are a prefix of the plan. */
  lemma LedgerIsAPrefix(readings: seq<Reading>, faults: seq<Fault>) returns (m: nat)
    ensures m <= |FullPlan(readings)|
    ensures AfterRuns(readings, EMPTY, faults) == StateOf(FullPlan(readings)[..m])
  {
    assert FullPlan(readings)[..0] == [];
    m := RunsFollowPlan(readings, 0, faults);
  }

  /**
   * Whatever came before, a run that completes leaves what one uninterrupted run on an empty
   * database makes, and from then on no run changes anything.
   */
  lemma RestartsConverge(readings: seq<Reading>, faults: seq<Fault>, last: Fault, later: Fault)
    requires Pass(readings, AfterRuns(readings, EMPTY, faults), 0, last).done
    ensures var end := Pass(readings, AfterRuns(readings, EMPTY, faults), 0, last).state;
            && Pass(readings, EMPTY, 0, NoFault) == Outcome(end, true)
            && Pass(readings, end, 0, later).state == end
  {
    var plan := FullPlan(readings);
    assert plan[..0] == [] && plan[..|plan|] == plan;
    var n := LedgerIsAPrefix(readings, faults);
    var m := PassFollowsPlan(readings, Readable(readings, 0), StateOf(plan[..n]), n, 0, last);
    var whole := PassFollowsPlan(readings, Readable(readings, 0), EMPTY, 0, 0, NoFault);
    var again := PassFollowsPlan(readings, Readable(readings, 0), StateOf(plan[..m]), m, 0, later);
  }

  /** An uninterrupted run completes exactly when every script name has a version. */
  lemma CompletesExactlyWhen(readings: seq<Reading>, faults: seq<Fault>)
    ensures Pass(readings, AfterRuns(readings, EMPTY, faults), 0, NoFault).done
       <==> forall i :: 0 <= i < |readings| ==> !readings[i].Malformed?
  {
    var n := LedgerIsAPrefix(readings, faults);
    var m := PassFollowsPlan(readings, Readable(readings, 0), AfterRuns(readings, EMPTY, faults), n, 0, NoFault);
  }

  // ----- when the plan is the whole list

  function Scripts(readings: seq<Reading>, k: nat): seq<Script>
    requires k <= |readings|
  {
    if k == 0 then []
    else if readings[k - 1].Numbered? then Scripts(readings, k - 1) + [readings[k - 1].script]
    else Scripts(readings, k - 1)
  }

  ghost predicate VersionsDiffer(scripts: seq<Script>) {
    forall i, j :: 0 <= i < j < |scripts| ==> scripts[i].version != scripts[j].version
  }

  lemma {:induction false} LedgerVersions(plan: seq<Script>, version: int)
    ensures version in StateOf(plan).ledger <==> exists i :: 0 <= i < |plan| && plan[i].version == version
    decreases |plan|
  {
    if plan != [] {
      LedgerVersions(plan[..|plan| - 1], version);
    }
  }

  /** Nothing is left out exactly when no two scripts share a version, as `1_` and `001_` do. */
  lemma {:induction false} PlanIsWholeExactlyWhen(readings: seq<Reading>, k: nat)
    requires k <= |readings|
    ensures Plan(readings, k) == Scripts(readings, k) <==> VersionsDiffer(Scripts(readings, k))
    ensures |Plan(readings, k)| <= |Scripts(readings, k)| && VersionsDiffer(Plan(readings, k))
    decreases k
  {
    if k > 0 {
      PlanIsWholeExactlyWhen(readings, k - 1);
      if readings[k - 1].Numbered? {
        WholeStep(Plan(readings, k - 1), Scripts(readings, k - 1), readings[k - 1].script);
      }
    }
  }

  lemma WholeStep(plan: seq<Script>, scripts: seq<Script>, script: Script)
    requires plan == scripts <==> VersionsDiffer(scripts)
    requires |plan| <= |scripts| && VersionsDiffer(plan)
    ensures var more := if script.version in StateOf(plan).ledger then plan else plan + [script];
            && (more == scripts + [script] <==> VersionsDiffer(scripts + [script]))
            && |more| <= |scripts + [script]| && VersionsDiffer(more)
  {
    LedgerVersions(plan, script.version);
    OneMoreScript(plan, script);
    OneMoreScript(scripts, script);
    assert (plan + [script])[..|plan|] == plan;
    assert (scripts + [script])[..|scripts|] == scripts;
  }

  lemma OneMoreScript(scripts: seq<Script>, script: Script)
    ensures VersionsDiffer(scripts + [script]) <==>
      VersionsDiffer(scripts) && !exists i :: 0 <= i < |scripts| && scripts[i].version == script.version
  {
    var more := scripts + [script];
    if VersionsDiffer(more) {
      forall i, j | 0 <= i < j < |scripts| ensures scripts[i].version != scripts[j].version {
        assert more[i] == scripts[i] && more[j] == scripts[j];
      }
      forall i | 0 <= i < |scripts| ensures scripts[i].version != script.version {
        assert more[i] == scripts[i] && more[|scripts|] == script;
      }
    }
  }

  /** A concrete loss: `001_b.sql` comes first and takes version 1, and `1_a.sql` is never applied. */
  lemma SecondScriptLost(first: string, second: string)
    ensures var files := [File("001_b.sql", false, first), File("1_a.sql", false, second)];
            && SortedByName(files)
            && Scripts(Readings(files), 2) == [Script(1, first), Script(1, second)]
            && FullPlan(Readings(files)) == [Script(1, first)]
  {
    var files := [File("001_b.sql", false, first), File("1_a.sql", false, second)];
    var (r, one, other) := (Readings(files), Script(1, first), Script(1, second));
    NumberedNames(first, second);
    assert r == [Numbered(one), Numbered(other)];
    assert Readable(r, 2) == 2 && Readable(r, 1) == 2 && Readable(r, 0) == 2;
    assert Plan(r, 0) == [] && StateOf([]).ledger == {};
    assert Plan(r, 1) == [one];
    StateOfMore([], one);
    assert [] + [one] == [one];
    assert Scripts(r, 0) == [] && Scripts(r, 1) == [one];
  }

  lemma NumberedNames(first: string, second: string)
    ensures Read(File("001_b.sql", false, first)) == Numbered(Script(1, first))
    ensures Read(File("1_a.sql", false, second)) == Numbered(Script(1, second))
  {
    assert "001_b.sql"[5..] == ".sql" && "1_a.sql"[3..] == ".sql";
    PrefixesOfNames();
    VersionsOfPrefixes();
  }

  lemma PrefixesOfNames()
    ensures Prefix("001_b.sql") == "001" && Prefix("1_a.sql") == "1"
  {
    assert "001_b.sql"[1..] == "01_b.sql" && "01_b.sql"[1..] == "1_b.sql" && "1_b.sql"[1..] == "_b.sql";
    assert "1_a.sql"[1..] == "_a.sql";
    assert Prefix("1_b.sql") == "1" && Prefix("01_b.sql") == "01";
  }

  lemma VersionsOfPrefixes()
    ensures Atoi("001") == Some(1) && Atoi("1") == Some(1)
  {
    assert "1"[..0] == "" && "00"[..1] == "0" && "001"[..2] == "00" && "0"[..0] == "";
    assert Number("0") == 0 && Number("00") == 0;
  }
}
