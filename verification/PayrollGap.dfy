/**
 The window at the start of a process run (src/routes/payroll.ts): the incomplete records are
 counted before the records are listed, and finalization does not look again. What the cron of
 src/jobs/scheduler.ts creates in between is processed although it is incomplete.
 */
module PayrollGap {
  import opened Optional
  import opened PayrollRun

  /** What the cron first reports about an employee in a list of steps, if anything. */
  function FirstCreate(window: seq<Action>, e: Employee): Option<bool> {
    if window == [] then None
    else if window[0].CronCreate? && window[0].e == e then Some(window[0].incomplete)
    else FirstCreate(window[1..], e)
  }

  /** The cron creates the record in the window, and creates it incomplete. */
  predicate CreatedIncomplete(s: State, window: seq<Action>, e: Employee) {
    e !in s.records && FirstCreate(window, e) == Some(true)
  }

  ghost predicate KeepsLease(actions: seq<Action>) {
    forall i :: 0 <= i < |actions| ==> !actions[i].EndRun?
  }

  lemma TailKeepsLease(actions: seq<Action>)
    requires KeepsLease(actions) && actions != []
    ensures KeepsLease(actions[1..])
  {
    assert forall i :: 0 <= i < |actions| - 1 ==> actions[1..][i] == actions[i + 1];
  }

  lemma StartingStep(s: State, a: Action, e: Employee)
    requires s.lease.Starting() && Enabled(s, a) && !a.EndRun? && Next(s, a).lease.Starting()
    ensures e in Next(s, a).records <==> e in s.records || (a.CronCreate? && a.e == e)
    ensures e in Next(s, a).lease.gap <==> e in s.lease.gap || (e !in s.records && a == CronCreate(e, true))
  {
  }

  lemma {:induction false} NeverStartsAgain(s: State, actions: seq<Action>, t: State)
    requires s.lease.Processing? && IsRun(s, actions, t) && KeepsLease(actions)
    ensures t.lease.Processing? && t.lease.gap == s.lease.gap && t.lease.from == s.lease.from
    decreases |actions|
  {
    if actions != [] {
      TailKeepsLease(actions);
      NeverStartsAgain(Next(s, actions[0]), actions[1..], t);
    }
  }

  /** The gap is what the cron creates incomplete while the run has not listed its records. */
  lemma {:induction false} GapIs(s: State, window: seq<Action>, t: State, e: Employee)
    requires s.lease.Starting() && t.lease.Starting() && IsRun(s, window, t) && KeepsLease(window)
    ensures e in t.lease.gap <==> e in s.lease.gap || CreatedIncomplete(s, window, e)
    decreases |window|
  {
    if window != [] {
      var m := Next(s, window[0]);
      TailKeepsLease(window);
      if m.lease.Processing? {
        NeverStartsAgain(m, window[1..], t);
      } else {
        StartingStep(s, window[0], e);
        GapIs(m, window[1..], t, e);
      }
    }
  }

  /** A whole process run: it counts in `s`, lists in `m` and has come to `t`. */
  ghost predicate IsProcessRun(s: State, actor: User, window: seq<Action>, m: State, listed: seq<Employee>,
                               rest: seq<Action>, t: State) {
    && Enabled(s, CountIncomplete(actor))
    && IsRun(Next(s, CountIncomplete(actor)), window, m) && KeepsLease(window)
    && Enabled(m, ListRecords(listed))
    && IsRun(Next(m, ListRecords(listed)), rest, t) && KeepsLease(rest)
  }

  lemma ProcessRunGap(s: State, actor: User, window: seq<Action>, m: State, listed: seq<Employee>,
                      rest: seq<Action>, t: State, e: Employee)
    requires IsProcessRun(s, actor, window, m, listed, rest, t)
    ensures t.lease.Processing? && t.lease.from == |m.moves|
    ensures e in t.lease.gap <==> CreatedIncomplete(s, window, e)
  {
    GapIs(Next(s, CountIncomplete(actor)), window, m, e);
    NeverStartsAgain(Next(m, ListRecords(listed)), rest, t);
  }

  lemma {:induction false} ReachesEnd(s: State, actor: User, window: seq<Action>, m: State, listed: seq<Employee>,
                                      rest: seq<Action>, t: State)
    requires Inv(s) && GapOk(s) && IsProcessRun(s, actor, window, m, listed, rest, t)
    ensures Inv(t) && GapOk(t)
  {
    StepKeepsInv(s, CountIncomplete(actor));
    StepKeepsGap(s, CountIncomplete(actor));
    RunKeepsInv(Next(s, CountIncomplete(actor)), window, m);
    StepKeepsInv(m, ListRecords(listed));
    StepKeepsGap(m, ListRecords(listed));
    RunKeepsInv(Next(m, ListRecords(listed)), rest, t);
  }

  /**
   A record that a process run moves is incomplete at that moment if and only if the cron created
   it, incomplete, between this run's count and its listing. Nothing else gets past the count.
   */
  lemma MovedIncompleteIff(history: seq<Action>, s: State, actor: User, window: seq<Action>, m: State,
                           listed: seq<Employee>, rest: seq<Action>, t: State, i: nat)
    requires IsRun(START, history, s) && IsProcessRun(s, actor, window, m, listed, rest, t)
    requires |m.moves| <= i < |t.moves|
    ensures t.moves[i].before.incomplete <==> CreatedIncomplete(s, window, t.moves[i].employee)
  {
    RunKeepsInv(START, history, s);
    ReachesEnd(s, actor, window, m, listed, rest, t);
    ProcessRunGap(s, actor, window, m, listed, rest, t, t.moves[i].employee);
  }

  /** The count finds nothing, the cron creates a record with rate 0, and the run lists and processes it. */
  lemma CronGapExample()
    ensures exists actions, t :: IsRun(START, actions, t) && 7 in t.records
              && t.records[7].status.Processed? && t.records[7].incomplete
  {
    var s1 := Next(START, CountIncomplete(2));
    var s2 := Next(s1, CountStale);
    var s3 := Next(s2, CronCreate(7, true));
    var s4 := Next(s3, ListRecords([7]));
    var t := Next(s4, ProcessNext(true));
    var first := [] + [CountIncomplete(2)] + [CountStale] + [CronCreate(7, true)];
    assert IsRun(START, [], START);
    RunAppend(START, [], START, CountIncomplete(2));
    RunAppend(START, [] + [CountIncomplete(2)], s1, CountStale);
    RunAppend(START, [] + [CountIncomplete(2)] + [CountStale], s2, CronCreate(7, true));
    assert s3.records == map[7 := Record(Draft, None, None, false, true)];
    RunAppend(START, first, s3, ListRecords([7]));
    RunAppend(START, first + [ListRecords([7])], s4, ProcessNext(true));
  }

  // ---------------------------------------------------------------------------
  // What such a record does to the period

  lemma BlockingStep(s: State, a: Action, e: Employee)
    requires Inv(s) && Enabled(s, a) && a != Recall(e)
    requires e in s.records && s.records[e].status.Processed? && s.records[e].incomplete
    ensures var t := Next(s, a);
            e in t.records && t.records[e].status.Processed? && t.records[e].incomplete
  {
  }

  /**
   A processed incomplete record blocks the period: until somebody recalls it, no process run gets
   past its count, and generating does not repair it.
   */
  lemma {:induction false} IncompleteBlocks(s: State, actions: seq<Action>, t: State, e: Employee)
    requires Inv(s) && IsRun(s, actions, t)
    requires e in s.records && s.records[e].status.Processed? && s.records[e].incomplete
    requires forall i :: 0 <= i < |actions| ==> actions[i] != Recall(e)
    ensures e in t.records && t.records[e].status.Processed? && t.records[e].incomplete
    ensures forall actor :: !Enabled(t, CountIncomplete(actor))
    decreases |actions|
  {
    if actions != [] {
      BlockingStep(s, actions[0], e);
      StepKeepsInv(s, actions[0]);
      assert forall i :: 0 <= i < |actions| - 1 ==> actions[1..][i] == actions[i + 1];
      IncompleteBlocks(Next(s, actions[0]), actions[1..], t, e);
    }
  }
}
