/**
 One payroll period of one organization (src/routes/payroll.ts, and the create-only-if-missing
 loop of src/jobs/scheduler.ts): generate and process runs hold the period lease and work
 record by record. A process run starts with two counts and a listing, each a statement of its
 own. Cron creation, recalls and staleness marks interleave with all of them without a lease.
 */
module PayrollRun {
  import opened Optional

  type User = nat
  type Employee = nat

  datatype Status = Draft | Processed | Recalled

  datatype Record = Record(status: Status, generatedBy: Option<User>, processedBy: Option<User>, stale: bool,
                           incomplete: bool)

  /** History of a move to `processed`: the record just before, and the `gap` of the run that moved it. */
  datatype Move = Move(employee: Employee, checker: User, before: Record, gap: set<Employee>)

  datatype Result = Result(employee: Employee, ok: bool)

  /**
   What the holder of the period lease is doing. A process run counts incomplete records, then
   stale drafts, then lists; `gap` is history: the incomplete records created since the first count.
   */
  datatype Work =
    | Idle
    | Generating(actor: User, locked: set<Employee>, todo: seq<Employee>)
    | Counted(actor: User, gap: set<Employee>)
    | Cleared(actor: User, gap: set<Employee>)
    | Processing(actor: User, listed: seq<Employee>, results: seq<Result>, from: nat, gap: set<Employee>)
  {
    predicate Starting() { Counted? || Cleared? }
  }

  datatype State = State(
    records: map<Employee, Record>,
    outbox: seq<Employee>,
    moves: seq<Move>,
    lease: Work,
    recalls: set<Employee>)

  datatype Action =
    | BeginGenerate(actor: User, users: seq<Employee>)
    | GenerateNext(incomplete: bool)
    | CountIncomplete(actor: User)
    | CountStale
    | ListRecords(listed: seq<Employee>)
    | ProcessNext(pdfOk: bool)
    | EndRun
    | CronCreate(e: Employee, incomplete: bool)
    | ReadForRecall(e: Employee)
    | Recall(e: Employee)
    | MarkStale(e: Employee)

  ghost predicate Enumerates(listed: seq<Employee>, records: map<Employee, Record>) {
    && (forall e :: e in listed <==> e in records && !records[e].status.Processed?)
    && forall i, j :: 0 <= i < j < |listed| ==> listed[i] != listed[j]
  }

  /** The first guard of `process-full` counts records of every status. */
  ghost predicate NoneIncomplete(records: map<Employee, Record>) {
    forall e :: e in records ==> !records[e].incomplete
  }

  ghost predicate NoStaleDraft(records: map<Employee, Record>) {
    forall e :: e in records && records[e].status.Draft? ==> !records[e].stale
  }

  /** The listing is everything not processed, none of it generated by the actor. */
  ghost predicate MayProcess(records: map<Employee, Record>, actor: User, listed: seq<Employee>) {
    && Enumerates(listed, records)
    && (forall e :: e in listed ==> records[e].generatedBy != Some(actor))
    && listed != []
  }

  ghost predicate Enabled(s: State, a: Action) {
    match a
    case BeginGenerate(_, _) => s.lease.Idle?
    case GenerateNext(_) => s.lease.Generating? && s.lease.todo != []
    case CountIncomplete(_) => s.lease.Idle? && NoneIncomplete(s.records)
    case CountStale => s.lease.Counted? && NoStaleDraft(s.records)
    case ListRecords(listed) => s.lease.Cleared? && MayProcess(s.records, s.lease.actor, listed)
    case ProcessNext(_) => s.lease.Processing? && |s.lease.results| < |s.lease.listed|
    case ReadForRecall(e) => e in s.records && s.records[e].status.Processed?
    case Recall(e) => e in s.recalls && e in s.records
    case _ => true
  }

  /** What an upsert leaves for an employee, from the row that was there when the run began. */
  function Fresh(records: map<Employee, Record>, e: Employee, actor: User, incomplete: bool): Record {
    if e in records then records[e].(generatedBy := Some(actor), stale := false, incomplete := incomplete)
    else Record(Draft, Some(actor), None, false, incomplete)
  }

  /** `upsert`: an existing row keeps its status, also when it was recalled. */
  function Generated(records: map<Employee, Record>, e: Employee, actor: User, incomplete: bool)
    : map<Employee, Record>
  {
    records[e := Fresh(records, e, actor, incomplete)]
  }

  /** The conditional update that moves a record, in one transaction with its outbox row. */
  predicate CanMove(records: map<Employee, Record>, e: Employee) {
    e in records && records[e].status.Draft? && !records[e].stale
  }

  function Finalized(s: State, e: Employee, actor: User, gap: set<Employee>): State {
    if !CanMove(s.records, e) then s
    else
      s.(records := s.records[e := s.records[e].(status := Processed, processedBy := Some(actor))],
         outbox := s.outbox + [e],
         moves := s.moves + [Move(e, actor, s.records[e], gap)])
  }

  function ProcessOne(s: State, pdfOk: bool): State
    requires s.lease.Processing? && |s.lease.results| < |s.lease.listed|
  {
    var e := s.lease.listed[|s.lease.results|];
    var done := if pdfOk then Finalized(s, e, s.lease.actor, s.lease.gap) else s;
    done.(lease := s.lease.(results := s.lease.results + [Result(e, pdfOk && CanMove(s.records, e))]))
  }

  /** The history of a process run that has not listed yet takes down an incomplete record created meanwhile. */
  function Noted(lease: Work, e: Employee, incomplete: bool): Work {
    if !incomplete then lease
    else
      match lease
      case Counted(actor, gap) => Counted(actor, gap + {e})
      case Cleared(actor, gap) => Cleared(actor, gap + {e})
      case _ => lease
  }

  function Next(s: State, a: Action): State {
    match a
    case BeginGenerate(actor, users) =>
      s.(lease := Generating(actor, (set e | e in s.records && s.records[e].status.Processed?), users))
    case GenerateNext(incomplete) =>
      if !(s.lease.Generating? && s.lease.todo != []) then s else
      var e := s.lease.todo[0];
      s.(records := if e in s.lease.locked then s.records else Generated(s.records, e, s.lease.actor, incomplete),
         lease := s.lease.(todo := s.lease.todo[1..]))
    case CountIncomplete(actor) => s.(lease := Counted(actor, {}))
    case CountStale => if s.lease.Counted? then s.(lease := Cleared(s.lease.actor, s.lease.gap)) else s
    case ListRecords(listed) =>
      if s.lease.Cleared? then s.(lease := Processing(s.lease.actor, listed, [], |s.moves|, s.lease.gap)) else s
    case ProcessNext(pdfOk) =>
      if s.lease.Processing? && |s.lease.results| < |s.lease.listed| then ProcessOne(s, pdfOk) else s
    case EndRun => s.(lease := Idle)
    case CronCreate(e, incomplete) =>
      if e in s.records then s
      else
        s.(records := s.records[e := Record(Draft, None, None, false, incomplete)],
           lease := Noted(s.lease, e, incomplete))
    case ReadForRecall(e) => s.(recalls := s.recalls + {e})
    case Recall(e) =>
      if e !in s.records then s else s.(records := s.records[e := s.records[e].(status := Recalled)])
    case MarkStale(e) =>
      // written by row id after a read of the drafts, so the record may have moved on
      if e !in s.records then s else s.(records := s.records[e := s.records[e].(stale := true)])
  }

  // ---------------------------------------------------------------------------
  // Invariant

  /** Maker and checker differ on every processed record. */
  ghost predicate MakerChecker(records: map<Employee, Record>) {
    forall e :: e in records && records[e].status.Processed? ==>
      records[e].processedBy.Some? && records[e].generatedBy != records[e].processedBy
  }

  /** Every move was allowed when it happened, and left its record outside `draft`. */
  ghost predicate MovesOk(s: State) {
    forall i :: 0 <= i < |s.moves| ==>
      && s.moves[i].before.status.Draft? && !s.moves[i].before.stale
      && s.moves[i].before.generatedBy != Some(s.moves[i].checker)
      && s.moves[i].employee in s.records && !s.records[s.moves[i].employee].status.Draft?
  }

  /** One payslip event per move, and no record moves twice. */
  ghost predicate OutboxOk(s: State) {
    && |s.outbox| == |s.moves|
    && (forall i :: 0 <= i < |s.moves| ==> s.outbox[i] == s.moves[i].employee)
    && forall i, j :: 0 <= i < j < |s.moves| ==> s.moves[i].employee != s.moves[j].employee
  }

  ghost predicate LeaseOk(s: State) {
    match s.lease
    case Generating(_, locked, _) => forall e :: e in s.records && s.records[e].status.Processed? ==> e in locked
    case Processing(actor, listed, results, from, _) =>
      && |results| <= |listed| && from <= |s.moves|
      && (forall i :: 0 <= i < |listed| ==> listed[i] in s.records)
      && (forall i :: |results| <= i < |listed| ==> s.records[listed[i]].generatedBy != Some(actor))
      && (forall i :: 0 <= i < |results| ==> results[i].employee == listed[i])
      && Employees(s.moves[from..]) == Succeeded(results)
    case _ => true
  }

  function Employees(moves: seq<Move>): seq<Employee> {
    seq(|moves|, i requires 0 <= i < |moves| => moves[i].employee)
  }

  function Succeeded(results: seq<Result>): seq<Employee> {
    if results == [] then []
    else
      var n := |results| - 1;
      Succeeded(results[..n]) + if results[n].ok then [results[n].employee] else []
  }

  ghost predicate Inv(s: State) {
    MakerChecker(s.records) && MovesOk(s) && OutboxOk(s) && LeaseOk(s)
  }

  lemma GenerateKeepsInv(s: State, incomplete: bool)
    requires Inv(s) && Enabled(s, GenerateNext(incomplete))
    ensures Inv(Next(s, GenerateNext(incomplete)))
  {
  }

  lemma {:induction false} SucceededGrows(results: seq<Result>, r: Result)
    ensures Succeeded(results + [r]) == Succeeded(results) + if r.ok then [r.employee] else []
  {
    assert (results + [r])[..|results|] == results;
  }

  lemma EmployeesGrow(moves: seq<Move>, from: nat, m: Move)
    requires from <= |moves|
    ensures Employees((moves + [m])[from..]) == Employees(moves[from..]) + [m.employee]
  {
    assert (moves + [m])[from..] == moves[from..] + [m];
  }

  lemma FinalizeKeepsInv(s: State, e: Employee, actor: User, gap: set<Employee>)
    requires Inv(s) && CanMove(s.records, e) && s.records[e].generatedBy != Some(actor)
    ensures MakerChecker(Finalized(s, e, actor, gap).records)
    ensures MovesOk(Finalized(s, e, actor, gap)) && OutboxOk(Finalized(s, e, actor, gap))
  {
  }

  lemma ProcessLeaseKept(s: State, pdfOk: bool)
    requires Inv(s) && Enabled(s, ProcessNext(pdfOk))
    ensures LeaseOk(ProcessOne(s, pdfOk))
  {
    var e := s.lease.listed[|s.lease.results|];
    SucceededGrows(s.lease.results, Result(e, pdfOk && CanMove(s.records, e)));
    EmployeesGrow(s.moves, s.lease.from, Move(e, s.lease.actor, s.records[e], s.lease.gap));
  }

  lemma ProcessKeepsInv(s: State, pdfOk: bool)
    requires Inv(s) && Enabled(s, ProcessNext(pdfOk))
    ensures Inv(Next(s, ProcessNext(pdfOk)))
  {
    ProcessLeaseKept(s, pdfOk);
    var e := s.lease.listed[|s.lease.results|];
    if pdfOk && CanMove(s.records, e) {
      FinalizeKeepsInv(s, e, s.lease.actor, s.lease.gap);
    }
  }

  lemma StepKeepsInv(s: State, a: Action)
    requires Inv(s) && Enabled(s, a)
    ensures Inv(Next(s, a))
  {
    match a
    case GenerateNext(incomplete) => GenerateKeepsInv(s, incomplete);
    case ProcessNext(pdfOk) => ProcessKeepsInv(s, pdfOk);
    case ListRecords(listed) =>
      assert s.moves[|s.moves|..] == [];
      assert forall i :: 0 <= i < |listed| ==> listed[i] in listed;
    case _ =>
  }

  /**
   A record is incomplete before its move exactly if it is in the gap of the run that moves it,
   and stays as it was; the run lists each record once.
   */
  ghost predicate GapOk(s: State) {
    && (forall i :: 0 <= i < |s.moves| ==> (s.moves[i].before.incomplete <==> s.moves[i].employee in s.moves[i].gap))
    && (forall i :: 0 <= i < |s.moves| ==>
          && s.moves[i].employee in s.records
          && (s.records[s.moves[i].employee].status.Processed? ==>
                s.records[s.moves[i].employee].incomplete == s.moves[i].before.incomplete))
    && GapOfLeaseOk(s)
  }

  ghost predicate GapOfLeaseOk(s: State) {
    match s.lease
    case Counted(_, gap) => forall e :: e in gap <==> e in s.records && s.records[e].incomplete
    case Cleared(_, gap) => forall e :: e in gap <==> e in s.records && s.records[e].incomplete
    case Processing(_, listed, results, from, gap) =>
      && (forall i, j :: 0 <= i < j < |listed| ==> listed[i] != listed[j])
      && (forall i :: |results| <= i < |listed| ==>
            listed[i] in s.records && (s.records[listed[i]].incomplete <==> listed[i] in gap))
      && (forall i :: from <= i < |s.moves| ==> s.moves[i].gap == gap)
    case _ => true
  }

  lemma ProcessKeepsGap(s: State, pdfOk: bool)
    requires Inv(s) && GapOk(s) && Enabled(s, ProcessNext(pdfOk))
    ensures GapOk(ProcessOne(s, pdfOk))
  {
  }

  lemma GenerateKeepsGap(s: State, incomplete: bool)
    requires Inv(s) && GapOk(s) && Enabled(s, GenerateNext(incomplete))
    ensures GapOk(Next(s, GenerateNext(incomplete)))
  {
  }

  lemma CronKeepsGap(s: State, e: Employee, incomplete: bool)
    requires Inv(s) && GapOk(s)
    ensures GapOk(Next(s, CronCreate(e, incomplete)))
  {
  }

  lemma StepKeepsGap(s: State, a: Action)
    requires Inv(s) && GapOk(s) && Enabled(s, a)
    ensures GapOk(Next(s, a))
  {
    match a
    case GenerateNext(incomplete) => GenerateKeepsGap(s, incomplete);
    case ProcessNext(pdfOk) => ProcessKeepsGap(s, pdfOk);
    case CronCreate(e, incomplete) => CronKeepsGap(s, e, incomplete);
    case ListRecords(listed) => assert forall i :: 0 <= i < |listed| ==> listed[i] in listed;
    case _ =>
  }

  // ---------------------------------------------------------------------------
  // Runs

  ghost predicate IsRun(s: State, actions: seq<Action>, t: State)
    decreases |actions|
  {
    if actions == [] then s == t
    else Enabled(s, actions[0]) && IsRun(Next(s, actions[0]), actions[1..], t)
  }

  lemma {:induction false} RunKeepsInv(s: State, actions: seq<Action>, t: State)
    requires Inv(s) && GapOk(s) && IsRun(s, actions, t)
    ensures Inv(t) && GapOk(t)
    decreases |actions|
  {
    if actions != [] {
      StepKeepsInv(s, actions[0]);
      StepKeepsGap(s, actions[0]);
      RunKeepsInv(Next(s, actions[0]), actions[1..], t);
    }
  }

  const START := State(map[], [], [], Idle, {})

  /**
   In every run: nobody processes what they generated, no stale draft is processed, a processed
   record has exactly one payslip event and no record more than one, and a record was incomplete
   when it was moved exactly if it is in the gap of the run that moved it.
   */
  lemma EveryRunIsChecked(actions: seq<Action>, t: State)
    requires IsRun(START, actions, t)
    ensures MakerChecker(t.records) && MovesOk(t) && OutboxOk(t)
    ensures forall e :: e in t.records && t.records[e].status.Processed? ==> multiset(t.outbox)[e] == 1
    ensures forall e :: multiset(t.outbox)[e] <= 1
    ensures forall i :: 0 <= i < |t.moves| ==> (t.moves[i].before.incomplete <==> t.moves[i].employee in t.moves[i].gap)
    ensures forall i :: 0 <= i < |t.moves| && t.records[t.moves[i].employee].status.Processed? ==>
              (t.records[t.moves[i].employee].incomplete <==> t.moves[i].employee in t.moves[i].gap)
  {
    RunKeepsInv(START, actions, t);
    ProcessedWasMoved(START, actions, t);
    forall e: Employee
      ensures multiset(t.outbox)[e] == if e in t.outbox then 1 else 0
    {
      DistinctCount(t.outbox, e);
    }
  }

  lemma {:induction false} DistinctCount(s: seq<Employee>, e: Employee)
    requires forall i, j :: 0 <= i < j < |s| ==> s[i] != s[j]
    ensures multiset(s)[e] == if e in s then 1 else 0
  {
    if s != [] {
      var n := |s| - 1;
      DistinctCount(s[..n], e);
      assert s == s[..n] + [s[n]];
    }
  }

  ghost predicate ProcessedInOutbox(s: State) {
    forall e :: e in s.records && s.records[e].status.Processed? ==> e in s.outbox
  }

  lemma StepKeepsOutbox(s: State, a: Action)
    requires ProcessedInOutbox(s) && Enabled(s, a)
    ensures ProcessedInOutbox(Next(s, a))
  {
  }

  lemma {:induction false} ProcessedWasMoved(s: State, actions: seq<Action>, t: State)
    requires ProcessedInOutbox(s) && IsRun(s, actions, t)
    ensures ProcessedInOutbox(t)
    decreases |actions|
  {
    if actions != [] {
      StepKeepsOutbox(s, actions[0]);
      ProcessedWasMoved(Next(s, actions[0]), actions[1..], t);
    }
  }

  /**
   When a process run has gone through its list, every listed record is reported as exactly one
   of processed and failed, and those reported as processed are the ones this run moved, in order.
   */
  lemma ProcessReportIsExact(actions: seq<Action>, t: State)
    requires IsRun(START, actions, t) && t.lease.Processing? && |t.lease.results| == |t.lease.listed|
    ensures t.lease.from <= |t.outbox| && t.outbox[t.lease.from..] == Succeeded(t.lease.results)
    ensures forall e :: e in t.lease.listed <==> e in Succeeded(t.lease.results) || e in Failed(t.lease.results)
    ensures forall e :: !(e in Succeeded(t.lease.results) && e in Failed(t.lease.results))
    ensures |Succeeded(t.lease.results)| + |Failed(t.lease.results)| == |t.lease.listed|
  {
    RunKeepsInv(START, actions, t);
    assert t.outbox[t.lease.from..] == Employees(t.moves[t.lease.from..]);
    ResultsSplit(t.lease.results);
    forall e: Employee
      ensures e in t.lease.listed <==> e in Succeeded(t.lease.results) || e in Failed(t.lease.results)
      ensures !(e in Succeeded(t.lease.results) && e in Failed(t.lease.results))
    {
      ReportedOnce(t.lease.listed, t.lease.results, e);
    }
  }

  lemma ReportedOnce(listed: seq<Employee>, results: seq<Result>, e: Employee)
    requires |results| == |listed| && forall i :: 0 <= i < |results| ==> results[i].employee == listed[i]
    requires forall i, j :: 0 <= i < j < |listed| ==> listed[i] != listed[j]
    ensures e in listed <==> e in Succeeded(results) || e in Failed(results)
    ensures !(e in Succeeded(results) && e in Failed(results))
  {
    Reported(results, e);
    if i :| 0 <= i < |listed| && listed[i] == e {
      assert results[i] == Result(e, results[i].ok);
    }
  }

  lemma {:induction false} Reported(results: seq<Result>, e: Employee)
    ensures e in Succeeded(results) <==> Result(e, true) in results
    ensures e in Failed(results) <==> Result(e, false) in results
  {
    if results != [] {
      var n := |results| - 1;
      Reported(results[..n], e);
      assert results == results[..n] + [results[n]];
    }
  }

  function Failed(results: seq<Result>): seq<Employee> {
    if results == [] then []
    else
      var n := |results| - 1;
      Failed(results[..n]) + if results[n].ok then [] else [results[n].employee]
  }

  lemma {:induction false} ResultsSplit(results: seq<Result>)
    ensures |Succeeded(results)| + |Failed(results)| == |results|
  {
    if results != [] {
      ResultsSplit(results[..|results| - 1]);
    }
  }

  /**
   A recalled record is stuck: whatever is generated, processed or recalled later, it is never
   processed again and never gets another payslip event.
   */
  lemma {:induction false} RecalledIsFinal(s: State, actions: seq<Action>, t: State, e: Employee)
    requires IsRun(s, actions, t) && e in s.records && s.records[e].status.Recalled?
    ensures e in t.records && t.records[e].status.Recalled?
    ensures multiset(t.outbox)[e] == multiset(s.outbox)[e]
    decreases |actions|
  {
    if actions != [] {
      RecalledStep(s, actions[0], e);
      RecalledIsFinal(Next(s, actions[0]), actions[1..], t, e);
    }
  }

  lemma RecalledStep(s: State, a: Action, e: Employee)
    requires Enabled(s, a) && e in s.records && s.records[e].status.Recalled?
    ensures e in Next(s, a).records && Next(s, a).records[e].status.Recalled?
    ensures multiset(Next(s, a).outbox)[e] == multiset(s.outbox)[e]
  {
  }

  // ---------------------------------------------------------------------------
  // The loop of process-full on its own

  /** One turn of the loop: one more result, and one more event exactly if the record moved. */
  lemma ProcessOneReport(s: State, pdfOk: bool)
    requires s.lease.Processing? && |s.lease.results| < |s.lease.listed|
    ensures var e := s.lease.listed[|s.lease.results|];
            var ok := pdfOk && CanMove(s.records, e);
            var t := ProcessOne(s, pdfOk);
            && t.lease.Processing? && t.lease.listed == s.lease.listed
            && t.lease.results == s.lease.results + [Result(e, ok)]
            && t.outbox == s.outbox + (if ok then [e] else [])
            && Succeeded(t.lease.results) == Succeeded(s.lease.results) + (if ok then [e] else [])
            && Failed(t.lease.results) == Failed(s.lease.results) + (if ok then [] else [e])
  {
    var e := s.lease.listed[|s.lease.results|];
    var r := Result(e, pdfOk && CanMove(s.records, e));
    SucceededGrows(s.lease.results, r);
    assert (s.lease.results + [r])[..|s.lease.results|] == s.lease.results;
  }

  predicate Begun(s: State, flags: seq<bool>) {
    s.lease.Processing? && s.lease.results == [] && |flags| <= |s.lease.listed|
  }

  /** The first turns of the loop, `flags[i]` saying whether the i-th payslip could be produced. */
  function ProcessAll(s: State, flags: seq<bool>): (t: State)
    requires Begun(s, flags)
    ensures t.lease.Processing? && t.lease.listed == s.lease.listed && |t.lease.results| == |flags|
  {
    if flags == [] then s else ProcessOne(ProcessAll(s, flags[..|flags| - 1]), flags[|flags| - 1])
  }

  lemma Regroup(a: seq<Employee>, b: seq<Employee>, c: seq<Employee>)
    ensures (a + b) + c == a + (b + c)
  {
  }

  lemma {:induction false} ProcessAllReport(s: State, flags: seq<bool>)
    requires Begun(s, flags)
    ensures ProcessAll(s, flags).outbox == s.outbox + Succeeded(ProcessAll(s, flags).lease.results)
  {
    if flags != [] {
      var n := |flags| - 1;
      var mid := ProcessAll(s, flags[..n]);
      ProcessAllReport(s, flags[..n]);
      ProcessOneReport(mid, flags[n]);
      var e := s.lease.listed[n];
      Regroup(s.outbox, Succeeded(mid.lease.results), if flags[n] && CanMove(mid.records, e) then [e] else []);
    }
  }

  /** A record whose payslip could not be produced is reported as failed. */
  lemma {:induction false} NoPayslipFails(s: State, flags: seq<bool>, i: nat)
    requires Begun(s, flags) && i < |flags| && !flags[i]
    ensures ProcessAll(s, flags).lease.results[i] == Result(s.lease.listed[i], false)
    decreases |flags|
  {
    var n := |flags| - 1;
    ProcessOneReport(ProcessAll(s, flags[..n]), flags[n]);
    if i < n {
      NoPayslipFails(s, flags[..n], i);
    }
  }

  function Turns(flags: seq<bool>): seq<Action> {
    seq(|flags|, i requires 0 <= i < |flags| => ProcessNext(flags[i]))
  }

  lemma {:induction false} RunAppend(s: State, actions: seq<Action>, m: State, a: Action)
    requires IsRun(s, actions, m) && Enabled(m, a)
    ensures IsRun(s, actions + [a], Next(m, a))
    decreases |actions|
  {
    if actions != [] {
      RunAppend(Next(s, actions[0]), actions[1..], m, a);
      assert (actions + [a])[1..] == actions[1..] + [a];
    }
  }

  lemma {:induction false} RunConcat(s: State, a: seq<Action>, m: State, b: seq<Action>, t: State)
    requires IsRun(s, a, m) && IsRun(m, b, t)
    ensures IsRun(s, a + b, t)
    decreases |a|
  {
    if a == [] {
      assert a + b == b;
    } else {
      RunConcat(Next(s, a[0]), a[1..], m, b, t);
      assert (a + b)[1..] == a[1..] + b;
    }
  }

  /** The uninterrupted loop is one of the runs, so all that holds of runs holds of it. */
  lemma {:induction false} ProcessAllIsRun(s: State, flags: seq<bool>)
    requires Begun(s, flags)
    ensures IsRun(s, Turns(flags), ProcessAll(s, flags))
  {
    if flags != [] {
      var n := |flags| - 1;
      ProcessAllIsRun(s, flags[..n]);
      RunAppend(s, Turns(flags[..n]), ProcessAll(s, flags[..n]), ProcessNext(flags[n]));
      assert Turns(flags) == Turns(flags[..n]) + [ProcessNext(flags[n])];
    }
  }

  lemma OneMoreTurn(s: State, flags: seq<bool>, i: nat)
    requires Begun(s, flags) && i < |flags|
    ensures var mid := ProcessAll(s, flags[..i]);
            var e := s.lease.listed[i];
            var ok := flags[i] && CanMove(mid.records, e);
            var after := ProcessOne(mid, flags[i]);
            && ProcessAll(s, flags[..i + 1]) == after
            && Succeeded(after.lease.results) == Succeeded(mid.lease.results) + (if ok then [e] else [])
            && Failed(after.lease.results) == Failed(mid.lease.results) + (if ok then [] else [e])
  {
    assert flags[..i + 1][..i] == flags[..i];
    ProcessOneReport(ProcessAll(s, flags[..i]), flags[i]);
  }

  /** The loop over the listed records when nothing interferes. */
  method ProcessFull(s: State, pdfOk: seq<bool>) returns (t: State, processed: nat, failures: seq<Employee>)
    requires Begun(s, pdfOk) && |pdfOk| == |s.lease.listed|
    ensures t == ProcessAll(s, pdfOk)
    ensures processed == |Succeeded(t.lease.results)| && failures == Failed(t.lease.results)
    ensures processed + |failures| == |s.lease.listed|
    ensures t.outbox == s.outbox + Succeeded(t.lease.results)
  {
    t, processed, failures := s, 0, [];
    assert pdfOk[..0] == [];
    var i := 0;
    while i < |pdfOk|
      invariant 0 <= i <= |pdfOk|
      invariant t == ProcessAll(s, pdfOk[..i])
      invariant processed == |Succeeded(t.lease.results)| && failures == Failed(t.lease.results)
    {
      OneMoreTurn(s, pdfOk, i);
      if pdfOk[i] && CanMove(t.records, t.lease.listed[i]) {
        processed := processed + 1;
      } else {
        failures := failures + [t.lease.listed[i]];
      }
      t := ProcessOne(t, pdfOk[i]);
      i := i + 1;
    }
    assert pdfOk[..|pdfOk|] == pdfOk;
    ProcessAllReport(s, pdfOk);
    ResultsSplit(t.lease.results);
  }

  // ---------------------------------------------------------------------------
  // The loop of generate on its own

  /**
   Every user without a processed record ends up with a fresh one made by the actor, keeping
   its status if it existed; processed records and everybody else are left alone.
   */
  method GenerateAll(records: map<Employee, Record>, actor: User, users: seq<Employee>, incomplete: Employee -> bool)
    returns (after: map<Employee, Record>, created: seq<Employee>, skipped: seq<Employee>)
    ensures after.Keys == records.Keys + (set e | e in users)
    ensures forall e :: e in records && (e !in users || records[e].status.Processed?) ==> after[e] == records[e]
    ensures forall e :: e in users && !(e in records && records[e].status.Processed?) ==>
              && after[e].generatedBy == Some(actor) && !after[e].stale && after[e].incomplete == incomplete(e)
              && after[e].status == (if e in records then records[e].status else Draft)
              && after[e].processedBy == (if e in records then records[e].processedBy else None)
    ensures |created| + |skipped| == |users|
    ensures forall e :: e in skipped <==> e in users && e in records && records[e].status.Processed?
  {
    var locked := set e | e in records && records[e].status.Processed?;
    after, created, skipped := records, [], [];
    for i := 0 to |users|
      invariant after.Keys == records.Keys + (set e | e in users[..i])
      invariant forall e :: e in records && (e !in users[..i] || e in locked) ==> after[e] == records[e]
      invariant forall e :: e in users[..i] && e !in locked ==> after[e] == Fresh(records, e, actor, incomplete(e))
      invariant |created| + |skipped| == i
      invariant forall e :: e in skipped <==> e in users[..i] && e in locked
    {
      var e := users[i];
      assert users[..i + 1] == users[..i] + [e];
      if e in locked {
        skipped := skipped + [e];
      } else {
        after := Generated(after, e, actor, incomplete(e));
        created := created + [e];
      }
    }
    assert users[..|users|] == users;
  }
}
