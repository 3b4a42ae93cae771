/**
 What a staleness mark and a maker's name do to a payroll record over runs (src/routes/payroll.ts,
 src/routes/users.ts): a marked draft is not processed before it is generated again, and whoever
 generated it does not process it.
 */
module PayrollStale {
  import opened Optional
  import opened PayrollRun

  /** The step generates the record of `e`. */
  predicate Generates(s: State, a: Action, e: Employee) {
    a.GenerateNext? && s.lease.Generating? && s.lease.todo != [] && s.lease.todo[0] == e
  }

  /** No step of the run generates the record of `e`. */
  ghost predicate LeavesAlone(s: State, actions: seq<Action>, e: Employee)
    decreases |actions|
  {
    actions == [] || (!Generates(s, actions[0], e) && LeavesAlone(Next(s, actions[0]), actions[1..], e))
  }

  /** Only what has been processed can be waiting for a recall, and it is never a draft again. */
  ghost predicate RecallsOk(s: State) {
    forall e :: e in s.recalls ==> e in s.records && !s.records[e].status.Draft?
  }

  lemma StepKeepsRecalls(s: State, a: Action)
    requires RecallsOk(s) && Enabled(s, a)
    ensures RecallsOk(Next(s, a))
  {
  }

  lemma {:induction false} RunKeepsRecalls(s: State, actions: seq<Action>, t: State)
    requires RecallsOk(s) && IsRun(s, actions, t)
    ensures RecallsOk(t)
    decreases |actions|
  {
    if actions != [] {
      StepKeepsRecalls(s, actions[0]);
      RunKeepsRecalls(Next(s, actions[0]), actions[1..], t);
    }
  }

  // ---------------------------------------------------------------------------
  // A marked draft

  predicate StaleDraft(s: State, e: Employee) {
    e in s.records && s.records[e].status.Draft? && s.records[e].stale
  }

  lemma StaleStep(s: State, a: Action, e: Employee)
    requires RecallsOk(s) && StaleDraft(s, e) && Enabled(s, a) && !Generates(s, a, e)
    ensures StaleDraft(Next(s, a), e) && multiset(Next(s, a).outbox)[e] == multiset(s.outbox)[e]
  {
  }

  lemma {:induction false} StaleStays(s: State, actions: seq<Action>, t: State, e: Employee)
    requires RecallsOk(s) && StaleDraft(s, e) && IsRun(s, actions, t) && LeavesAlone(s, actions, e)
    ensures StaleDraft(t, e) && multiset(t.outbox)[e] == multiset(s.outbox)[e]
    decreases |actions|
  {
    if actions != [] {
      StaleStep(s, actions[0], e);
      StepKeepsRecalls(s, actions[0]);
      StaleStays(Next(s, actions[0]), actions[1..], t, e);
    }
  }

  /**
   After a mark on a draft, through any run in which it is not generated again, the record stays an
   unprocessed draft, gets no payslip event, and no process run gets past its count of stale drafts.
   */
  lemma MarkedIsNotProcessed(history: seq<Action>, s: State, e: Employee, actions: seq<Action>, t: State)
    requires IsRun(START, history, s) && e in s.records && s.records[e].status.Draft?
    requires IsRun(Next(s, MarkStale(e)), actions, t) && LeavesAlone(Next(s, MarkStale(e)), actions, e)
    ensures e in t.records && t.records[e].status.Draft? && t.records[e].stale
    ensures multiset(t.outbox)[e] == multiset(s.outbox)[e]
    ensures !Enabled(t, CountStale)
  {
    RunKeepsRecalls(START, history, s);
    StepKeepsRecalls(s, MarkStale(e));
    StaleStays(Next(s, MarkStale(e)), actions, t, e);
  }

  // ---------------------------------------------------------------------------
  // Maker and checker

  predicate MadeBy(s: State, e: Employee, maker: User) {
    e in s.records && s.records[e].generatedBy == Some(maker)
  }

  lemma MadeByStep(s: State, a: Action, e: Employee, maker: User)
    requires Inv(s) && MadeBy(s, e, maker) && Enabled(s, a) && !Generates(s, a, e)
    ensures MadeBy(Next(s, a), e, maker)
    ensures |s.moves| <= |Next(s, a).moves| && Next(s, a).moves[..|s.moves|] == s.moves
    ensures forall i :: |s.moves| <= i < |Next(s, a).moves| && Next(s, a).moves[i].employee == e ==>
              Next(s, a).moves[i].checker != maker
  {
  }

  /** Through any run in which the record is not generated again, its maker does not process it. */
  lemma {:induction false} MakerNeverChecks(s: State, actions: seq<Action>, t: State, e: Employee, maker: User)
    requires Inv(s) && MadeBy(s, e, maker) && IsRun(s, actions, t) && LeavesAlone(s, actions, e)
    ensures |s.moves| <= |t.moves|
    ensures forall i :: |s.moves| <= i < |t.moves| && t.moves[i].employee == e ==> t.moves[i].checker != maker
    decreases |actions|
  {
    if actions != [] {
      var m := Next(s, actions[0]);
      MadeByStep(s, actions[0], e, maker);
      StepKeepsInv(s, actions[0]);
      MakerNeverChecks(m, actions[1..], t, e, maker);
      MovesStay(m, actions[1..], t);
      assert forall i :: 0 <= i < |m.moves| ==> t.moves[i] == m.moves[i];
    }
  }

  lemma {:induction false} MovesStay(s: State, actions: seq<Action>, t: State)
    requires IsRun(s, actions, t)
    ensures |s.moves| <= |t.moves| && t.moves[..|s.moves|] == s.moves
    decreases |actions|
  {
    if actions != [] {
      MovesStay(Next(s, actions[0]), actions[1..], t);
      assert Next(s, actions[0]).moves[..|s.moves|] == s.moves;
    }
  }

  /** A process run of the actor, undisturbed, gets as far as this list. */
  ghost predicate Begins(s: State, actor: User, listed: seq<Employee>) {
    exists t :: IsRun(s, [CountIncomplete(actor), CountStale, ListRecords(listed)], t)
  }

  lemma BeginsByGuards(s: State, actor: User, listed: seq<Employee>)
    ensures var s1 := Next(s, CountIncomplete(actor));
            Begins(s, actor, listed) <==>
            Enabled(s, CountIncomplete(actor)) && Enabled(s1, CountStale)
                && Enabled(Next(s1, CountStale), ListRecords(listed))
  {
    var s1 := Next(s, CountIncomplete(actor));
    var s2 := Next(s1, CountStale);
    var s3 := Next(s2, ListRecords(listed));
    var a := [CountIncomplete(actor), CountStale, ListRecords(listed)];
    assert a[1..] == [CountStale, ListRecords(listed)] && a[1..][1..] == [ListRecords(listed)];
    assert [ListRecords(listed)][1..] == [];
    if Begins(s, actor, listed) {
      var t :| IsRun(s, a, t);
      assert IsRun(s1, a[1..], t);
      assert IsRun(s2, a[1..][1..], t);
    }
    if Enabled(s, a[0]) && Enabled(s1, a[1]) && Enabled(s2, a[2]) {
      assert IsRun(s3, [], s3);
      assert IsRun(s2, a[1..][1..], s3);
      assert IsRun(s1, a[1..], s3);
      assert IsRun(s, a, s3);
    }
  }

  /**
   Undisturbed, a process run starts on a list if and only if no record of any status is incomplete,
   no draft is stale, and the list is the records not processed, each once, at least one, none of
   them made by the actor.
   */
  lemma ProcessStartsIff(s: State, actor: User, listed: seq<Employee>)
    requires s.lease.Idle?
    ensures Begins(s, actor, listed) <==>
            && (forall e :: e in s.records ==> !s.records[e].incomplete)
            && (forall e :: e in s.records ==> !(s.records[e].status.Draft? && s.records[e].stale))
            && (forall e :: e in listed <==> e in s.records && s.records[e].status != Processed)
            && (forall i, j :: 0 <= i < j < |listed| ==> listed[i] != listed[j]) && |listed| >= 1
            && (forall e :: e in listed ==> s.records[e].generatedBy != Some(actor))
  {
    BeginsByGuards(s, actor, listed);
  }

  // ---------------------------------------------------------------------------
  // What a single step writes

  ghost predicate OnlyRecord(before: map<Employee, Record>, after: map<Employee, Record>, e: Employee) {
    after.Keys == before.Keys + {e} && forall k :: k in before && k != e ==> after[k] == before[k]
  }

  /** Generating one employee: the maker is the actor of the run, the mark is gone, the status stays. */
  lemma GenerateOne(s: State, actor: User, e: Employee, incomplete: bool)
    requires s.lease.Idle? && (e in s.records ==> !s.records[e].status.Processed?)
    ensures var t := Next(Next(s, BeginGenerate(actor, [e])), GenerateNext(incomplete));
            && IsRun(s, [BeginGenerate(actor, [e]), GenerateNext(incomplete)], t)
            && OnlyRecord(s.records, t.records, e) && t.outbox == s.outbox && t.moves == s.moves
            && t.records[e].generatedBy == Some(actor) && !t.records[e].stale && t.records[e].incomplete == incomplete
            && t.records[e].status == (if e in s.records then s.records[e].status else Draft)
  {
    var s1 := Next(s, BeginGenerate(actor, [e]));
    var t := Next(s1, GenerateNext(incomplete));
    var a := [BeginGenerate(actor, [e]), GenerateNext(incomplete)];
    assert a[1..] == [GenerateNext(incomplete)] && a[1..][1..] == [];
    assert IsRun(t, [], t);
    assert IsRun(s1, a[1..], t);
  }

  /** A record is processed, by the actor and with an event, exactly if its payslip was made and it is a fresh draft. */
  lemma ProcessIff(s: State, pdfOk: bool)
    requires Enabled(s, ProcessNext(pdfOk)) && s.lease.listed[|s.lease.results|] in s.records
    ensures var e, t := s.lease.listed[|s.lease.results|], Next(s, ProcessNext(pdfOk));
            if pdfOk && s.records[e].status.Draft? && !s.records[e].stale then
              && OnlyRecord(s.records, t.records, e) && t.outbox == s.outbox + [e]
              && t.records[e].status.Processed? && t.records[e].processedBy == Some(s.lease.actor)
              && t.records[e].generatedBy == s.records[e].generatedBy
            else
              t.records == s.records && t.outbox == s.outbox
  {
  }

  /** The cron creates a missing record as a draft without a maker, and changes no record that exists. */
  lemma CronCreatesMissing(s: State, e: Employee, incomplete: bool)
    ensures var t := Next(s, CronCreate(e, incomplete));
            && Enabled(s, CronCreate(e, incomplete)) && OnlyRecord(s.records, t.records, e)
            && (if e in s.records then t.records == s.records
                else t.records[e] == Record(Draft, None, None, false, incomplete))
            && t.outbox == s.outbox && t.moves == s.moves
  {
  }

  // ---------------------------------------------------------------------------
  // Examples

  /** Marked before anybody processes: the count of stale drafts refuses. */
  lemma MarkedEarlyExample()
    ensures exists actions, t :: IsRun(START, actions, t) && t.lease.Counted? && !Enabled(t, CountStale)
              && 7 in t.records && t.records[7].generatedBy == Some(1) && t.records[7].stale
  {
    var first, s := MadeRun();
    var s1 := Next(s, MarkStale(7));
    RunAppend(START, first, s, MarkStale(7));
    RunAppend(START, first + [MarkStale(7)], s1, CountIncomplete(2));
    assert Next(s1, CountIncomplete(2)).records[7].stale;
  }

  /** Marked after the listing: the conditional update fails, and the record is reported as failed. */
  lemma MarkedLateExample()
    ensures exists actions, t ::
              && IsRun(START, actions, t) && t.lease.Processing? && t.lease.results == [Result(7, false)]
              && 7 in t.records && t.records[7].status.Draft? && t.outbox == []
  {
    var first, s := MadeRun();
    var s1 := Next(s, CountIncomplete(2));
    var s2 := Next(s1, CountStale);
    var s3 := Next(s2, ListRecords([7]));
    var s4 := Next(s3, MarkStale(7));
    var t := Next(s4, ProcessNext(true));
    RunAppend(START, first, s, CountIncomplete(2));
    RunAppend(START, first + [CountIncomplete(2)], s1, CountStale);
    RunAppend(START, first + [CountIncomplete(2)] + [CountStale], s2, ListRecords([7]));
    var listed := first + [CountIncomplete(2)] + [CountStale] + [ListRecords([7])];
    RunAppend(START, listed, s3, MarkStale(7));
    RunAppend(START, listed + [MarkStale(7)], s4, ProcessNext(true));
  }

  lemma MadeRun() returns (actions: seq<Action>, s: State)
    ensures IsRun(START, actions, s) && s.lease.Idle? && s.outbox == [] && s.moves == []
    ensures s.records == map[7 := Record(Draft, Some(1), None, false, false)]
  {
    GenerateOne(START, 1, 7, false);
    var made := [BeginGenerate(1, [7]), GenerateNext(false)];
    var s1 := Next(Next(START, BeginGenerate(1, [7])), GenerateNext(false));
    RunAppend(START, made, s1, EndRun);
    actions, s := made + [EndRun], Next(s1, EndRun);
  }
}
