/**
 What a recall leaves of a payroll record (src/routes/payroll.ts): from any state every other
 record can still be processed, and a recalled one never can.
 */
module PayrollRecall {
  import opened Optional
  import opened PayrollRun

  predicate IsProcessed(s: State, e: Employee) { e in s.records && s.records[e].status.Processed? }

  predicate IsRecalled(s: State, e: Employee) { e in s.records && s.records[e].status.Recalled? }

  ghost predicate Lists(l: seq<Employee>, keys: set<Employee>) {
    && (forall e :: e in l <==> e in keys)
    && forall i, j :: 0 <= i < j < |l| ==> l[i] != l[j]
  }

  lemma {:induction false} Listing(keys: set<Employee>) returns (l: seq<Employee>)
    ensures Lists(l, keys)
    decreases keys
  {
    l := [];
    if keys != {} {
      var e :| e in keys;
      var rest := Listing(keys - {e});
      l := [e] + rest;
    }
  }

  // ---------------------------------------------------------------------------
  // A complete generate pass

  /** The chosen employees have a fresh, complete record made by `actor`; the others are untouched. */
  ghost predicate Refreshed(before: map<Employee, Record>, after: map<Employee, Record>, actor: User,
                            chosen: set<Employee>) {
    forall e ::
      && (e in after <==> e in before || e in chosen)
      && (e in chosen ==> after[e] == Fresh(before, e, actor, false))
      && (e in before && e !in chosen ==> after[e] == before[e])
  }

  function Due(todo: seq<Employee>, locked: set<Employee>): set<Employee> {
    set e | e in todo && e !in locked
  }

  lemma RefreshOneMore(before: map<Employee, Record>, mid: map<Employee, Record>, after: map<Employee, Record>,
                       actor: User, todo: seq<Employee>, locked: set<Employee>)
    requires todo != [] && mid == (if todo[0] in locked then before else Generated(before, todo[0], actor, false))
    requires Refreshed(mid, after, actor, Due(todo[1..], locked))
    ensures Refreshed(before, after, actor, Due(todo, locked))
  {
    assert todo == [todo[0]] + todo[1..];
    forall e: Employee
      ensures (e in after <==> e in before || e in Due(todo, locked))
      ensures e in Due(todo, locked) ==> after[e] == Fresh(before, e, actor, false)
      ensures e in before && e !in Due(todo, locked) ==> after[e] == before[e]
    {
      assert e in Due(todo, locked) <==> e in Due(todo[1..], locked) || (e == todo[0] && e !in locked);
    }
  }

  lemma {:induction false} GeneratePass(s: State) returns (actions: seq<Action>, t: State)
    requires s.lease.Generating?
    ensures IsRun(s, actions, t)
    ensures t == s.(records := t.records, lease := s.lease.(todo := []))
    ensures Refreshed(s.records, t.records, s.lease.actor, Due(s.lease.todo, s.lease.locked))
    decreases |s.lease.todo|
  {
    if s.lease.todo == [] {
      actions, t := [], s;
    } else {
      var mid := Next(s, GenerateNext(false));
      var rest;
      rest, t := GeneratePass(mid);
      actions := [GenerateNext(false)] + rest;
      assert actions[1..] == rest;
      RefreshOneMore(s.records, mid.records, t.records, s.lease.actor, s.lease.todo, s.lease.locked);
    }
  }

  // ---------------------------------------------------------------------------
  // Recalling what blocks the period

  predicate Blocks(r: Record) { r.status.Processed? && r.incomplete }

  function Blocking(records: map<Employee, Record>): set<Employee> {
    set e | e in records && Blocks(records[e])
  }

  /** The blocking records are recalled; everything else is untouched. */
  ghost predicate Unblocked(before: map<Employee, Record>, after: map<Employee, Record>) {
    && after.Keys == before.Keys
    && forall e :: e in before ==>
         after[e] == if Blocks(before[e]) then before[e].(status := Recalled) else before[e]
  }

  lemma {:induction false} RecallPass(s: State) returns (actions: seq<Action>, t: State)
    ensures IsRun(s, actions, t) && t == s.(records := t.records, recalls := t.recalls)
    ensures Unblocked(s.records, t.records)
    decreases Blocking(s.records)
  {
    if e :| e in s.records && Blocks(s.records[e]) {
      var s1 := Next(s, ReadForRecall(e));
      var s2 := Next(s1, Recall(e));
      assert Blocking(s2.records) == Blocking(s.records) - {e};
      var rest;
      rest, t := RecallPass(s2);
      actions := [ReadForRecall(e), Recall(e)] + rest;
      assert actions[1..][1..] == rest && actions[1..][0] == Recall(e);
      assert IsRun(s1, actions[1..], t);
    } else {
      actions, t := [], s;
    }
  }

  // ---------------------------------------------------------------------------
  // Processing one chosen record

  function Finished(records: map<Employee, Record>): set<Employee> {
    set k | k in records && records[k].status.Processed?
  }

  /** After everything is generated anew by one user, another user may process, starting with `e`. */
  lemma MayProcessAfter(before: map<Employee, Record>, after: map<Employee, Record>, e: Employee,
                        users: seq<Employee>, others: seq<Employee>)
    requires (forall k :: k in before ==> !Blocks(before[k])) && !(e in before && before[e].status.Processed?)
    requires Lists(users, before.Keys + {e}) && Refreshed(before, after, 0, Due(users, Finished(before)))
    requires Lists(others, after.Keys - Finished(after) - {e})
    ensures NoneIncomplete(after) && NoStaleDraft(after) && MayProcess(after, 1, [e] + others)
    ensures e in after && after[e] == Fresh(before, e, 0, false)
  {
    forall k | k in after
      ensures !after[k].incomplete
      ensures !after[k].status.Processed? ==> !after[k].stale && after[k].generatedBy == Some(0)
    {
      assert k in Due(users, Finished(before)) || k in Finished(before);
    }
    assert e in Due(users, Finished(before));
  }

  /** Somebody generates everything anew, `e` included. */
  lemma GenerateNow(s: State, e: Employee, users: seq<Employee>) returns (actions: seq<Action>, t: State)
    requires s.lease.Idle? && Lists(users, s.records.Keys + {e})
    ensures IsRun(s, actions, t) && t == s.(records := t.records)
    ensures Refreshed(s.records, t.records, 0, Due(users, Finished(s.records)))
  {
    var s1 := Next(s, BeginGenerate(0, users));
    var pass, s2 := GeneratePass(s1);
    actions, t := [BeginGenerate(0, users)] + pass + [EndRun], Next(s2, EndRun);
    assert IsRun(s1, [], s1);
    RunConcat(s, [BeginGenerate(0, users)], s1, pass, s2);
    RunAppend(s, [BeginGenerate(0, users)] + pass, s2, EndRun);
  }

  /** Undisturbed, a process run of user 1 moves the first record of its list. */
  lemma ProcessFirst(s: State, e: Employee, others: seq<Employee>) returns (actions: seq<Action>, t: State)
    requires s.lease.Idle? && NoneIncomplete(s.records) && NoStaleDraft(s.records)
    requires MayProcess(s.records, 1, [e] + others) && CanMove(s.records, e)
    ensures IsRun(s, actions, t) && IsProcessed(t, e)
  {
    var s1 := Next(s, CountIncomplete(1));
    var s2 := Next(s1, CountStale);
    var s3 := Next(s2, ListRecords([e] + others));
    t := Next(s3, ProcessNext(true));
    actions := [] + [CountIncomplete(1)] + [CountStale] + [ListRecords([e] + others)] + [ProcessNext(true)];
    assert IsRun(s, [], s);
    RunAppend(s, [], s, CountIncomplete(1));
    RunAppend(s, [] + [CountIncomplete(1)], s1, CountStale);
    RunAppend(s, [] + [CountIncomplete(1)] + [CountStale], s2, ListRecords([e] + others));
    RunAppend(s, [] + [CountIncomplete(1)] + [CountStale] + [ListRecords([e] + others)], s3, ProcessNext(true));
  }

  /** From an idle state without blocking records. */
  lemma ProcessUnblocked(s: State, e: Employee) returns (actions: seq<Action>, t: State)
    requires s.lease.Idle? && !IsProcessed(s, e) && !IsRecalled(s, e)
    requires forall k :: k in s.records ==> !Blocks(s.records[k])
    ensures IsRun(s, actions, t) && IsProcessed(t, e)
  {
    var users := Listing(s.records.Keys + {e});
    var made, s1 := GenerateNow(s, e, users);
    var others := Listing(s1.records.Keys - Finished(s1.records) - {e});
    MayProcessAfter(s.records, s1.records, e, users, others);
    var moved;
    moved, t := ProcessFirst(s1, e, others);
    RunConcat(s, made, s1, moved, t);
    actions := made + moved;
  }

  /**
   From any state a record that is neither processed nor recalled can be processed: end the run in
   progress, recall the processed records that are incomplete, generate, and process.
   */
  lemma ProcessNow(s: State, e: Employee) returns (actions: seq<Action>, t: State)
    requires !IsProcessed(s, e) && !IsRecalled(s, e)
    ensures IsRun(s, actions, t) && IsProcessed(t, e)
  {
    var s1 := Next(s, EndRun);
    assert IsRun(s1, [], s1);
    assert IsRun(s, [EndRun], s1);
    var recalls, s2 := RecallPass(s1);
    RunConcat(s, [EndRun], s1, recalls, s2);
    var rest;
    rest, t := ProcessUnblocked(s2, e);
    RunConcat(s, [EndRun] + recalls, s2, rest, t);
    actions := [EndRun] + recalls + rest;
  }

  ghost predicate CanBecomeProcessed(s: State, e: Employee) {
    exists actions, t :: IsRun(s, actions, t) && IsProcessed(t, e)
  }

  /** From any state: a record is, or can still become, processed if and only if it has not been recalled. */
  lemma ProcessableIff(s: State, e: Employee)
    ensures CanBecomeProcessed(s, e) <==> !IsRecalled(s, e)
  {
    if IsRecalled(s, e) {
      forall actions, t | IsRun(s, actions, t)
        ensures !IsProcessed(t, e)
      {
        RecalledIsFinal(s, actions, t, e);
      }
    } else if IsProcessed(s, e) {
      assert IsRun(s, [], s) && IsProcessed(s, e);
    } else {
      var actions, t := ProcessNow(s, e);
      assert IsRun(s, actions, t) && IsProcessed(t, e);
    }
  }

  // ---------------------------------------------------------------------------
  // A concrete recall

  const ONLY: Employee := 7

  const MADE := Record(Draft, Some(1), None, false, false)

  const CLOSED := MADE.(status := Processed, processedBy := Some(2))

  /** Only `ONLY` has a record, if anybody: 1 generates it and 2 processes it. */
  lemma Round(s: State) returns (actions: seq<Action>, t: State)
    requires s.lease.Idle? && (s.records == map[] || s.records == map[ONLY := CLOSED.(status := Recalled)])
    ensures IsRun(s, actions, t) && t.recalls == s.recalls
    ensures s.records == map[] ==> t.records == map[ONLY := CLOSED] && t.outbox == s.outbox + [ONLY]
    ensures s.records != map[] ==> t.records == s.records && t.outbox == s.outbox
    ensures t.lease.Processing? && t.lease.results == [Result(ONLY, s.records == map[])]
  {
    var made, s1 := RoundGenerates(s);
    var moved, s2 := RoundProcesses(s1);
    RunConcat(s, made, s1, moved, s2);
    actions, t := made + moved, s2;
  }

  lemma RoundGenerates(s: State) returns (actions: seq<Action>, t: State)
    requires s.lease.Idle? && (s.records == map[] || s.records == map[ONLY := CLOSED.(status := Recalled)])
    ensures IsRun(s, actions, t)
    ensures t == s.(records := map[ONLY := if s.records == map[] then MADE else CLOSED.(status := Recalled)])
  {
    var s1 := Next(s, BeginGenerate(1, [ONLY]));
    var s2 := Next(s1, GenerateNext(false));
    t := Next(s2, EndRun);
    actions := [] + [BeginGenerate(1, [ONLY])] + [GenerateNext(false)] + [EndRun];
    assert IsRun(s, [], s);
    RunAppend(s, [], s, BeginGenerate(1, [ONLY]));
    RunAppend(s, [] + [BeginGenerate(1, [ONLY])], s1, GenerateNext(false));
    RunAppend(s, [] + [BeginGenerate(1, [ONLY])] + [GenerateNext(false)], s2, EndRun);
  }

  lemma RoundProcesses(s: State) returns (actions: seq<Action>, t: State)
    requires s.lease.Idle? && (s.records == map[ONLY := MADE] || s.records == map[ONLY := CLOSED.(status := Recalled)])
    ensures IsRun(s, actions, t) && t.recalls == s.recalls
    ensures s.records[ONLY] == MADE ==> t.records == map[ONLY := CLOSED] && t.outbox == s.outbox + [ONLY]
    ensures s.records[ONLY] != MADE ==> t.records == s.records && t.outbox == s.outbox
    ensures t.lease.Processing? && t.lease.results == [Result(ONLY, s.records[ONLY] == MADE)]
  {
    var s1 := Next(s, CountIncomplete(2));
    var s2 := Next(s1, CountStale);
    var s3 := Next(s2, ListRecords([ONLY]));
    t := Next(s3, ProcessNext(true));
    actions := [] + [CountIncomplete(2)] + [CountStale] + [ListRecords([ONLY])] + [ProcessNext(true)];
    assert IsRun(s, [], s);
    RunAppend(s, [], s, CountIncomplete(2));
    RunAppend(s, [] + [CountIncomplete(2)], s1, CountStale);
    RunAppend(s, [] + [CountIncomplete(2)] + [CountStale], s2, ListRecords([ONLY]));
    RunAppend(s, [] + [CountIncomplete(2)] + [CountStale] + [ListRecords([ONLY])], s3, ProcessNext(true));
  }

  lemma RecalledRun() returns (actions: seq<Action>, s: State)
    ensures IsRun(START, actions, s) && s.lease.Idle?
    ensures s.records == map[ONLY := CLOSED.(status := Recalled)] && s.outbox == [ONLY]
  {
    var first, s1 := Round(START);
    var s2 := Next(s1, EndRun);
    var s3 := Next(s2, ReadForRecall(ONLY));
    actions, s := first + [EndRun] + [ReadForRecall(ONLY)] + [Recall(ONLY)], Next(s3, Recall(ONLY));
    RunAppend(START, first, s1, EndRun);
    RunAppend(START, first + [EndRun], s2, ReadForRecall(ONLY));
    RunAppend(START, first + [EndRun] + [ReadForRecall(ONLY)], s3, Recall(ONLY));
  }

  /** Generated by 1, processed by 2, recalled, generated anew by 1, and reported as failed when 2 processes again. */
  lemma RecallThenFailed()
    ensures exists actions, t :: IsRun(START, actions, t) && IsRecalled(t, ONLY) && t.outbox == [ONLY]
              && t.lease.Processing? && t.lease.results == [Result(ONLY, false)]
  {
    var first, s := RecalledRun();
    var second, t := Round(s);
    RunConcat(START, first, s, second, t);
  }
}
