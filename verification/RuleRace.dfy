/**
 Concurrent `PUT /rules` (src/routes/compliance.ts). The transaction reads the versions in force
 before it updates the organisation row, and that row lock is the only thing that orders two such
 transactions. So a request acts on what it read then, and on the table as it is once it has the
 lock: two steps, with other requests in between.
 */
module RuleRace {
  import opened Optional
  import opened RuleTimeline

  /** A request that has read the versions in force on its start day, and waits for the row lock. */
  datatype Pending = Pending(start: Day, payload: seq<NewRule>, seen: Table)

  function InForceOn(rows: Table, start: Day): Table {
    map id | id in rows && rows[id].ActiveOn(start) :: rows[id]
  }

  // ---------------------------------------------------------------------------
  // The write, driven by what was read

  /** The version was read, and the first loop closes or deletes it. */
  predicate Acts(p: Pending, id: Id) {
    id in p.seen && Touched(p.seen[id], p.start, Codes(p.payload))
  }

  function LateClosed(rows: Table, p: Pending): Table {
    map id | id in rows && !(Acts(p, id) && p.seen[id].from == p.start) ::
      if Acts(p, id) then rows[id].(to := Some(p.start - 1)) else rows[id]
  }

  predicate SawSameDay(p: Pending, code: Code) {
    exists id :: id in p.seen && SameDay(p.seen[id], code, p.start)
  }

  function LateRewritten(rows: Table, p: Pending, rule: NewRule): Table {
    map id | id in rows ::
      if id in p.seen && SameDay(p.seen[id], rule.code, p.start) then rows[id].(content := rule.content) else rows[id]
  }

  /** The version of the day is looked up in what was read; the next version in the table as it is now. */
  ghost predicate LateInstalls(before: Table, p: Pending, rule: NewRule, nextId: Id, after: Table) {
    if SawSameDay(p, rule.code) then after == LateRewritten(before, p, rule)
    else exists id: Id, next: Option<Day> :: nextId <= id && Creates(before, rule, p.start, after, id, next)
  }

  ghost predicate LateInstallsAll(before: Table, p: Pending, payload: seq<NewRule>, nextId: Id, after: Table)
    decreases |payload|
  {
    if payload == [] then before == after
    else exists mid ::
           && LateInstallsAll(before, p, Front(payload), nextId, mid)
           && LateInstalls(mid, p, Last(payload), nextId, after)
  }

  /** Writing to a row that is gone fails and rolls back, so every row read must still exist. */
  ghost predicate LateUpdates(rows: Table, p: Pending, nextId: Id, after: Table) {
    p.seen.Keys <= rows.Keys && LateInstallsAll(LateClosed(rows, p), p, p.payload, nextId, after)
  }

  /** Ids are not reused, and no statement changes the code or the start of a version. */
  ghost predicate Remembered(rows: Table, nextId: Id, p: Pending) {
    && DistinctCodes(p.payload)
    && forall id :: id in p.seen ==>
         && id < nextId && p.seen[id].ActiveOn(p.start)
         && (id in rows ==> rows[id].code == p.seen[id].code && rows[id].from == p.seen[id].from)
  }

  /** Nothing came into force on the start day since, and what left it ends the day before. */
  ghost predicate Unmoved(rows: Table, p: Pending) {
    && (forall id :: id in rows && rows[id].ActiveOn(p.start) ==> id in p.seen)
    && (forall id :: id in p.seen ==> id in rows && (rows[id].ActiveOn(p.start) || rows[id].to == Some(p.start - 1)))
  }

  // ---------------------------------------------------------------------------
  // If nothing moved, the write is the serial update

  lemma UnmovedCloses(rows: Table, nextId: Id, p: Pending)
    requires Valid(rows) && Remembered(rows, nextId, p) && Unmoved(rows, p)
    ensures LateClosed(rows, p) == Closed(rows, p.start, Codes(p.payload), rows.Keys)
  {
  }

  lemma UnmovedSeesSameDay(rows: Table, nextId: Id, p: Pending, code: Code)
    requires Valid(rows) && Remembered(rows, nextId, p) && Unmoved(rows, p)
    ensures SawSameDay(p, code) <==> HasSameDay(rows, code, p.start)
    ensures forall id :: id in rows ==>
              (SameDay(rows[id], code, p.start) <==> id in p.seen && SameDay(p.seen[id], code, p.start))
  {
    forall id | id in rows
      ensures SameDay(rows[id], code, p.start) <==> id in p.seen && SameDay(p.seen[id], code, p.start)
    {
      if SameDay(rows[id], code, p.start) {
        assert rows[id].ActiveOn(p.start);
      }
    }
    if HasSameDay(rows, code, p.start) {
      var id :| id in rows && SameDay(rows[id], code, p.start);
      assert SameDay(p.seen[id], code, p.start);
    }
    if SawSameDay(p, code) {
      var id :| id in p.seen && SameDay(p.seen[id], code, p.start);
      assert SameDay(rows[id], code, p.start);
    }
  }

  /** The versions of a code that are not installed yet are those of the closed table. */
  lemma MidVersions(rows: Table, p: Pending, i: nat, mid: Table)
    requires Valid(rows) && DistinctCodes(p.payload) && i < |p.payload|
    requires InstallsAll(Closed(rows, p.start, Codes(p.payload), rows.Keys), p.payload[..i], p.start, mid)
    ensures forall id :: id in mid && SameDay(mid[id], p.payload[i].code, p.start) ==>
              id in rows && SameDay(rows[id], p.payload[i].code, p.start)
    ensures forall id :: id in rows && SameDay(rows[id], p.payload[i].code, p.start) ==>
              id in mid && SameDay(mid[id], p.payload[i].code, p.start)
    ensures forall id :: id in mid && id in rows && mid[id].code != p.payload[i].code ==>
              rows[id].code != p.payload[i].code
  {
    var closed := Closed(rows, p.start, Codes(p.payload), rows.Keys);
    InstallsAllKeepsOthers(closed, p.payload[..i], p.start, mid, p.payload[i].code);
    SnapshotStillTells(rows, p.payload, p.start, i, mid);
    assert p.payload[i] in p.payload;
  }

  lemma UnmovedInstalls(rows: Table, nextId: Id, p: Pending, i: nat, mid: Table, after: Table)
    requires Valid(rows) && Remembered(rows, nextId, p) && Unmoved(rows, p) && i < |p.payload|
    requires InstallsAll(Closed(rows, p.start, Codes(p.payload), rows.Keys), p.payload[..i], p.start, mid)
    requires LateInstalls(mid, p, p.payload[i], nextId, after)
    ensures Installs(mid, p.payload[i], p.start, after)
  {
    var rule := p.payload[i];
    UnmovedSeesSameDay(rows, nextId, p, rule.code);
    SnapshotStillTells(rows, p.payload, p.start, i, mid);
    if SawSameDay(p, rule.code) {
      MidVersions(rows, p, i, mid);
      assert LateRewritten(mid, p, rule) == Rewritten(mid, rule, p.start);
    } else {
      var id: Id, next: Option<Day> :| nextId <= id && Creates(mid, rule, p.start, after, id, next);
    }
  }

  lemma {:induction false} UnmovedInstallsAll(rows: Table, nextId: Id, p: Pending, n: nat, after: Table)
    requires Valid(rows) && Remembered(rows, nextId, p) && Unmoved(rows, p) && n <= |p.payload|
    requires LateInstallsAll(LateClosed(rows, p), p, p.payload[..n], nextId, after)
    ensures InstallsAll(Closed(rows, p.start, Codes(p.payload), rows.Keys), p.payload[..n], p.start, after)
  {
    UnmovedCloses(rows, nextId, p);
    if n > 0 {
      assert Front(p.payload[..n]) == p.payload[..n - 1] && Last(p.payload[..n]) == p.payload[n - 1];
      var mid :| LateInstallsAll(LateClosed(rows, p), p, Front(p.payload[..n]), nextId, mid)
                 && LateInstalls(mid, p, Last(p.payload[..n]), nextId, after);
      UnmovedInstallsAll(rows, nextId, p, n - 1, mid);
      UnmovedInstalls(rows, nextId, p, n - 1, mid, after);
    }
  }

  // ---------------------------------------------------------------------------
  // If something moved, it is not

  predicate SameDates(a: Rule, b: Rule) { a.code == b.code && a.from == b.from && a.to == b.to }

  lemma LateInstallKeepsDates(before: Table, p: Pending, rule: NewRule, nextId: Id, after: Table)
    requires LateInstalls(before, p, rule, nextId, after)
    ensures forall k :: k in before ==> k in after && SameDates(after[k], before[k])
    ensures forall k :: k in after ==> k in before || nextId <= k
  {
    if !SawSameDay(p, rule.code) {
      var id: Id, next: Option<Day> :| nextId <= id && Creates(before, rule, p.start, after, id, next);
    }
  }

  lemma {:induction false} LateKeepsDates(before: Table, p: Pending, payload: seq<NewRule>, nextId: Id, after: Table)
    requires LateInstallsAll(before, p, payload, nextId, after)
    ensures forall k :: k in before ==> k in after && SameDates(after[k], before[k])
    ensures forall k :: k in after ==> k in before || nextId <= k
    decreases |payload|
  {
    if payload != [] {
      var mid :| LateInstallsAll(before, p, Front(payload), nextId, mid)
          && LateInstalls(mid, p, Last(payload), nextId, after);
      LateKeepsDates(before, p, Front(payload), nextId, mid);
      LateInstallKeepsDates(mid, p, Last(payload), nextId, after);
    }
  }

  lemma {:induction false} SerialKeepsDates(before: Table, payload: seq<NewRule>, start: Day, after: Table)
    requires InstallsAll(before, payload, start, after)
    ensures forall k :: k in before ==> k in after && SameDates(after[k], before[k])
    ensures forall k :: k in after ==> k in before || after[k].code in Codes(payload)
    decreases |payload|
  {
    if payload != [] {
      var front, last := Front(payload), Last(payload);
      var mid :| InstallsAll(before, front, start, mid) && Installs(mid, last, start, after);
      SerialKeepsDates(before, front, start, mid);
      CodesGrow(front, last);
      assert payload == front + [last];
      if !HasSameDay(mid, last.code, start) {
        var id: Id, next: Option<Day> :| Creates(mid, last, start, after, id, next);
      }
    }
  }

  /** A rule whose version of the day was not read gets a new row. */
  lemma {:induction false} LateCreates(before: Table, p: Pending, payload: seq<NewRule>, nextId: Id, after: Table,
                                       i: nat)
    returns (n: Id)
    requires LateInstallsAll(before, p, payload, nextId, after) && i < |payload| && !SawSameDay(p, payload[i].code)
    ensures n in after && n !in before && SameDay(after[n], payload[i].code, p.start) && after[n].NonEmpty()
    decreases |payload|
  {
    var mid :| LateInstallsAll(before, p, Front(payload), nextId, mid)
        && LateInstalls(mid, p, Last(payload), nextId, after);
    if i == |payload| - 1 {
      LateKeepsDates(before, p, Front(payload), nextId, mid);
      var id: Id, next: Option<Day> :| nextId <= id && Creates(mid, Last(payload), p.start, after, id, next);
      n := id;
    } else {
      n := LateCreates(before, p, Front(payload), nextId, mid, i);
      LateInstallKeepsDates(mid, p, Last(payload), nextId, after);
    }
  }

  /** A version that came into force unread: the serial update would have closed or rewritten it. */
  lemma NewcomerShows(rows: Table, nextId: Id, p: Pending, after: Table, k: Id)
    requires Valid(rows) && Remembered(rows, nextId, p) && LateUpdates(rows, p, nextId, after)
    requires k in rows && rows[k].ActiveOn(p.start) && k !in p.seen
    ensures !Updates(rows, p.start, p.payload, after)
  {
    LateKeepsDates(LateClosed(rows, p), p, p.payload, nextId, after);
    assert k in LateClosed(rows, p) && SameDates(after[k], rows[k]);
    var touched := Touched(rows[k], p.start, Codes(p.payload));
    if !touched {
      CodeIsListed(p.payload, rows[k].code);
      var i :| 0 <= i < |p.payload| && p.payload[i].code == rows[k].code;
      OnlyOneSameDay(rows, nextId, p, k);
      var n := LateCreates(LateClosed(rows, p), p, p.payload, nextId, after, i);
      assert !Apart(after[k], after[n]);
    }
    if Updates(rows, p.start, p.payload, after) {
      if touched {
        SerialKeepsDates(Closed(rows, p.start, Codes(p.payload), rows.Keys), p.payload, p.start, after);
      } else {
        UpdateIsValid(rows, p.start, p.payload, after);
      }
    }
  }

  lemma OnlyOneSameDay(rows: Table, nextId: Id, p: Pending, k: Id)
    requires Valid(rows) && Remembered(rows, nextId, p) && p.seen.Keys <= rows.Keys
    requires k in rows && rows[k].from == p.start && k !in p.seen
    ensures !SawSameDay(p, rows[k].code)
  {
    forall j | j in p.seen
      ensures !SameDay(p.seen[j], rows[k].code, p.start)
    {
      assert j != k && Apart(rows[j], rows[k]);
    }
  }

  /** A version that was read and has ended meanwhile: the serial update would have left it alone. */
  lemma LeaverShows(rows: Table, nextId: Id, p: Pending, after: Table, j: Id)
    requires Valid(rows) && Remembered(rows, nextId, p) && LateUpdates(rows, p, nextId, after)
    requires j in p.seen && !rows[j].ActiveOn(p.start) && rows[j].to != Some(p.start - 1)
    ensures !Updates(rows, p.start, p.payload, after)
  {
    LateKeepsDates(LateClosed(rows, p), p, p.payload, nextId, after);
    assert rows[j].from < p.start;
    assert after[j].to == Some(p.start - 1);
    if Updates(rows, p.start, p.payload, after) {
      SerialKeepsDates(Closed(rows, p.start, Codes(p.payload), rows.Keys), p.payload, p.start, after);
    }
  }

  /**
   A write is the update that a request alone would make of the table as it now is if and only if
   nothing came into force on its start day since it read, and whatever it read that is no longer
   in force ends the day before.
   */
  lemma LateIsSerialIff(rows: Table, nextId: Id, p: Pending, after: Table)
    requires Valid(rows) && Remembered(rows, nextId, p) && LateUpdates(rows, p, nextId, after)
    ensures Updates(rows, p.start, p.payload, after) <==> Unmoved(rows, p)
  {
    if Unmoved(rows, p) {
      assert p.payload[..|p.payload|] == p.payload;
      UnmovedInstallsAll(rows, nextId, p, |p.payload|, after);
    } else if k :| k in rows && rows[k].ActiveOn(p.start) && k !in p.seen {
      NewcomerShows(rows, nextId, p, after, k);
    } else {
      var j :| j in p.seen && !(j in rows && (rows[j].ActiveOn(p.start) || rows[j].to == Some(p.start - 1)));
      LeaverShows(rows, nextId, p, after, j);
    }
  }

  // ---------------------------------------------------------------------------
  // Runs

  datatype World = World(rows: Table, nextId: Id, pending: set<Pending>)

  datatype Step = Read(start: Day, payload: seq<NewRule>) | Write(p: Pending, after: Table, nextId: Id)

  ghost predicate Enabled(w: World, step: Step) {
    match step
    case Read(_, payload) => DistinctCodes(payload)
    case Write(p, after, nextId) =>
      && p in w.pending && LateUpdates(w.rows, p, w.nextId, after)
      && w.nextId <= nextId && forall id :: id in after ==> id < nextId
  }

  function Next(w: World, step: Step): World {
    match step
    case Read(start, payload) => w.(pending := w.pending + {Pending(start, payload, InForceOn(w.rows, start))})
    case Write(p, after, nextId) => World(after, nextId, w.pending - {p})
  }

  ghost predicate Inv(w: World) {
    && (forall id :: id in w.rows ==> id < w.nextId)
    && (forall p :: p in w.pending ==> Remembered(w.rows, w.nextId, p))
  }

  lemma StepKeepsInv(w: World, step: Step)
    requires Inv(w) && Enabled(w, step)
    ensures Inv(Next(w, step))
  {
    if step.Write? {
      LateKeepsDates(LateClosed(w.rows, step.p), step.p, step.p.payload, w.nextId, step.after);
      forall q | q in w.pending
        ensures Remembered(step.after, step.nextId, q)
      {
        assert Remembered(w.rows, w.nextId, q);
      }
    }
  }

  ghost predicate IsRun(a: World, steps: seq<Step>, b: World)
    decreases |steps|
  {
    if steps == [] then a == b else Enabled(a, steps[0]) && IsRun(Next(a, steps[0]), steps[1..], b)
  }

  /** Every write finds its start day unmoved. */
  ghost predicate Quiet(a: World, steps: seq<Step>)
    decreases |steps|
  {
    steps == [] || ((steps[0].Write? ==> Unmoved(a.rows, steps[0].p)) && Quiet(Next(a, steps[0]), steps[1..]))
  }

  /** Interleavings in which no start day moves under a request keep the timeline. */
  lemma {:induction false} QuietRunKeepsTimeline(a: World, steps: seq<Step>, b: World)
    requires Inv(a) && Valid(a.rows) && IsRun(a, steps, b) && Quiet(a, steps)
    ensures Valid(b.rows) && OneInForce(b.rows)
    decreases |steps|
  {
    if steps != [] {
      StepKeepsInv(a, steps[0]);
      if steps[0].Write? {
        LateIsSerialIff(a.rows, a.nextId, steps[0].p, steps[0].after);
        UpdateIsValid(a.rows, steps[0].p.start, steps[0].p.payload, steps[0].after);
      }
      QuietRunKeepsTimeline(Next(a, steps[0]), steps[1..], b);
    }
    ValidIffOneInForce(b.rows);
  }

  // ---------------------------------------------------------------------------
  // A race

  const OLD := Rule("rest", 0, None, 1)

  const EARLY := Pending(5, [NewRule("rest", 2)], map[0 := OLD])

  const LATE := Pending(10, [NewRule("rest", 3)], map[0 := OLD])

  const AFTER_EARLY: Table := map[0 := OLD.(to := Some(4)), 1 := Rule("rest", 5, None, 2)]

  const AFTER_LATE: Table :=
    map[0 := OLD.(to := Some(9)), 1 := Rule("rest", 5, None, 2), 2 := Rule("rest", 10, None, 3)]

  lemma OneRuleInstalls(before: Table, p: Pending, nextId: Id, after: Table)
    requires |p.payload| == 1 && LateInstalls(before, p, p.payload[0], nextId, after)
    ensures LateInstallsAll(before, p, p.payload, nextId, after)
  {
    assert Front(p.payload) == [] && Last(p.payload) == p.payload[0];
    assert LateInstallsAll(before, p, [], nextId, before);
  }

  lemma EarlyWrites(w: World)
    requires w.rows == map[0 := OLD] && w.nextId == 1 && EARLY in w.pending
    ensures Enabled(w, Write(EARLY, AFTER_EARLY, 2))
  {
    var closed: Table := map[0 := OLD.(to := Some(4))];
    assert Codes(EARLY.payload) == {"rest"};
    assert LateClosed(map[0 := OLD], EARLY) == closed;
    assert Creates(closed, NewRule("rest", 2), 5, AFTER_EARLY, 1, None);
    OneRuleInstalls(closed, EARLY, 1, AFTER_EARLY);
  }

  lemma LateCloses()
    ensures LateClosed(AFTER_EARLY, LATE) == AFTER_EARLY[0 := OLD.(to := Some(9))]
  {
    assert Codes(LATE.payload) == {"rest"};
  }

  lemma LateWrites(w: World)
    requires w.rows == AFTER_EARLY && w.nextId == 2 && LATE in w.pending
    ensures Enabled(w, Write(LATE, AFTER_LATE, 3))
  {
    var closed: Table := AFTER_EARLY[0 := OLD.(to := Some(9))];
    LateCloses();
    assert Creates(closed, NewRule("rest", 3), 10, AFTER_LATE, 2, None);
    OneRuleInstalls(closed, LATE, 2, AFTER_LATE);
  }

  lemma {:induction false} RunAppend(a: World, steps: seq<Step>, m: World, step: Step)
    requires IsRun(a, steps, m) && Enabled(m, step)
    ensures IsRun(a, steps + [step], Next(m, step))
    decreases |steps|
  {
    if steps != [] {
      RunAppend(Next(a, steps[0]), steps[1..], m, step);
      assert (steps + [step])[1..] == steps[1..] + [step];
    }
  }

  const RACE_START := World(map[0 := OLD], 1, {})

  lemma BothRead() returns (steps: seq<Step>)
    ensures IsRun(RACE_START, steps, World(map[0 := OLD], 1, {LATE, EARLY}))
  {
    var w1 := Next(RACE_START, Read(10, LATE.payload));
    assert InForceOn(map[0 := OLD], 10) == map[0 := OLD] && InForceOn(map[0 := OLD], 5) == map[0 := OLD];
    assert Next(w1, Read(5, EARLY.payload)) == World(map[0 := OLD], 1, {LATE, EARLY});
    assert IsRun(RACE_START, [], RACE_START);
    RunAppend(RACE_START, [], RACE_START, Read(10, LATE.payload));
    RunAppend(RACE_START, [] + [Read(10, LATE.payload)], w1, Read(5, EARLY.payload));
    steps := [] + [Read(10, LATE.payload)] + [Read(5, EARLY.payload)];
  }

  lemma BothWrite() returns (steps: seq<Step>, t: World)
    ensures IsRun(RACE_START, steps, t) && t.rows == AFTER_LATE
  {
    var both := BothRead();
    var w2 := World(map[0 := OLD], 1, {LATE, EARLY});
    EarlyWrites(w2);
    RunAppend(RACE_START, both, w2, Write(EARLY, AFTER_EARLY, 2));
    var w3 := Next(w2, Write(EARLY, AFTER_EARLY, 2));
    LateWrites(w3);
    RunAppend(RACE_START, both + [Write(EARLY, AFTER_EARLY, 2)], w3, Write(LATE, AFTER_LATE, 3));
    steps := both + [Write(EARLY, AFTER_EARLY, 2)] + [Write(LATE, AFTER_LATE, 3)];
    t := Next(w3, Write(LATE, AFTER_LATE, 3));
  }

  lemma TwoInForce(rows: Table)
    requires rows == AFTER_LATE
    ensures !OneInForce(rows)
  {
    assert InForce(rows, "rest", 7, 0) && InForce(rows, "rest", 7, 1);
  }

  /**
   Both requests read the open version; the one for day 5 commits first, and the one for day 10
   then reopens days 5 to 9 of the old version beside the new one.
   */
  lemma RaceExample()
    ensures Inv(RACE_START) && Valid(RACE_START.rows)
    ensures exists steps, t :: IsRun(RACE_START, steps, t) && !OneInForce(t.rows)
  {
    var steps, t := BothWrite();
    TwoInForce(t.rows);
  }
}
