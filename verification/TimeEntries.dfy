/**
 One employee's time entries (src/routes/time-tracking.ts) together with the timer stop of
 checkout (src/routes/attendance.ts). Start, stop, create, edit and submit run under an
 advisory lock, but read the clock or the edited row before taking it; checkout and review
 take no lock at all. A locked transaction is two steps, its check and its write, so that
 unlocked writes can land in between.
 */
module TimeEntries {

  type Id = nat

  /** A running timer has an open end, which counts as infinity. */
  datatype End = Open | At(t: int)
  datatype Status = Draft | Submitted | Locked | Rejected
  datatype Entry = Entry(start: int, end: End, status: Status, minutes: int) {
    predicate Editable() { (status.Draft? || status.Rejected?) && end.At? }
    predicate WellFormed() { end.At? && start < end.t }
    function Duration(): int requires end.At? { end.t - start }
    /** The same work: times and minutes, whatever the status. */
    predicate SameWork(e: Entry) { start == e.start && end == e.end && minutes == e.minutes }
  }

  const MINUTE_MS := 60_000

  /** `Math.round` of milliseconds in minutes. */
  function Rounded(ms: int): int { (ms + MINUTE_MS / 2) / MINUTE_MS }

  /** Minutes of a stopped timer: never less than one, also when the stop lies before the start. */
  function AtLeastOne(minutes: int): int { if minutes < 1 then 1 else minutes }

  predicate Precedes(t: int, end: End) { end.Open? || t < end.t }

  /** The overlap filter: starts before the other ends, and ends after it starts. */
  predicate Overlaps(a: Entry, b: Entry) {
    Precedes(a.start, b.end) && Precedes(b.start, a.end)
  }

  /** What a transaction holding the lock has checked and is about to write. */
  datatype Work =
    | Free
    | WillStart(at: int)
    | WillStop(id: Id)
    | WillAdd(start: int, end: int)
    | WillEdit(id: Id, start: int, end: int)
    | WillSubmit(weekStart: int, weekEnd: int)

  /** `edits` and `checkouts` are requests that have read a row and not yet written it. */
  datatype State = State(
    entries: map<Id, Entry>,
    lock: Work,
    edits: set<Work>,
    checkouts: set<Id>)

  datatype Action =
    | CheckStart(now: int, startedAt: int)
    | CheckStop(id: Id)
    | CheckAdd(start: int, end: int)
    | ReadForEdit(id: Id, start: int, end: int)
    | CheckEdit(id: Id, start: int, end: int)
    | CheckSubmit(weekStart: int, weekEnd: int)
    | Write(id: Id, now: int)
    | Abort
    | ReadForCheckout(id: Id)
    | Checkout(id: Id, eventTime: int)
    | Review(weekStart: int, weekEnd: int, approve: bool)

  const DAY_MS := 24 * 60 * 60 * 1000

  predicate Running(s: State, id: Id) { id in s.entries && s.entries[id].end.Open? }

  predicate Starts(e: Entry, from: int, to: int) { from <= e.start < to }

  /** No entry is open at `now`, reaches past it, or starts after it. */
  predicate NothingFrom(entries: map<Id, Entry>, now: int) {
    forall id :: id in entries ==>
      var e := entries[id];
      !(e.start <= now && Precedes(now, e.end)) && !(e.start > now)
  }

  predicate ClearOf(entries: map<Id, Entry>, start: int, end: End, except: set<Id>) {
    forall id :: id in entries && id !in except ==> !Overlaps(entries[id], Entry(start, end, Draft, 0))
  }

  predicate Enabled(s: State, a: Action) {
    match a
    case CheckStart(now, startedAt) => s.lock.Free? && now <= startedAt && NothingFrom(s.entries, now)
    case CheckStop(id) => s.lock.Free? && Running(s, id)
    case CheckAdd(start, end) =>
      s.lock.Free? && start < end && Rounded(end - start) <= 24 * 60 && ClearOf(s.entries, start, At(end), {})
    case ReadForEdit(id, start, end) =>
      id in s.entries && s.entries[id].Editable() && start < end && end - start <= DAY_MS
    case CheckEdit(id, start, end) =>
      s.lock.Free? && WillEdit(id, start, end) in s.edits && ClearOf(s.entries, start, At(end), {id})
    case CheckSubmit(from, to) =>
      s.lock.Free? && forall id :: id in s.entries && s.entries[id].end.Open? ==> !Starts(s.entries[id], from, to)
    case Write(id, _) =>
      match s.lock {
        case Free => false
        case WillStart(_) => id !in s.entries
        case WillAdd(_, _) => id !in s.entries
        case _ => true
      }
    case Abort => !s.lock.Free?
    case ReadForCheckout(id) => Running(s, id) && s.entries[id].status.Draft?
    case Checkout(id, _) => id in s.checkouts
    case Review(_, _, _) => true
  }

  /** `updateMany` on one id with `ended_at: null, status: 'draft'`. */
  function Stopped(entries: map<Id, Entry>, id: Id, at: int): map<Id, Entry> {
    if id in entries && entries[id].end.Open? && entries[id].status.Draft?
    then entries[id := entries[id].(end := At(at), minutes := AtLeastOne(Rounded(at - entries[id].start)))] else entries
  }

  function Restatus(entries: map<Id, Entry>, from: int, to: int, which: Entry -> bool, status: Status): map<Id, Entry> {
    map id | id in entries ::
      if Starts(entries[id], from, to) && which(entries[id]) then entries[id].(status := status) else entries[id]
  }

  /** An entry with both times given. */
  function Manual(start: int, end: int): Entry { Entry(start, At(end), Draft, Rounded(end - start)) }

  function Written(s: State, id: Id, now: int): map<Id, Entry> {
    match s.lock
    case Free => s.entries
    case WillStart(at) => s.entries[id := Entry(at, Open, Draft, 0)]
    case WillStop(timer) => Stopped(s.entries, timer, now)
    case WillAdd(start, end) => s.entries[id := Manual(start, end)]
    case WillEdit(e, start, end) =>
      if e in s.entries && s.entries[e].Editable() then s.entries[e := Manual(start, end)] else s.entries
    case WillSubmit(from, to) => Restatus(s.entries, from, to, (e: Entry) => e.Editable(), Submitted)
  }

  function Next(s: State, a: Action): State {
    match a
    case CheckStart(_, startedAt) => s.(lock := WillStart(startedAt))
    case CheckStop(id) => s.(lock := WillStop(id))
    case CheckAdd(start, end) => s.(lock := WillAdd(start, end))
    case ReadForEdit(id, start, end) => s.(edits := s.edits + {WillEdit(id, start, end)})
    case CheckEdit(id, start, end) => s.(lock := WillEdit(id, start, end))
    case CheckSubmit(from, to) => s.(lock := WillSubmit(from, to))
    case Write(id, now) => s.(entries := Written(s, id, now), lock := Free)
    case Abort => s.(lock := Free)
    case ReadForCheckout(id) => s.(checkouts := s.checkouts + {id})
    case Checkout(id, eventTime) =>
      s.(entries := Stopped(s.entries, id, eventTime), checkouts := s.checkouts - {id})
    case Review(from, to, approve) =>
      var status := if approve then Locked else Rejected;
      s.(entries := Restatus(s.entries, from, to, (e: Entry) => e.status.Submitted?, status))
  }

  // ---------------------------------------------------------------------------
  // Invariant

  ghost predicate Disjoint(entries: map<Id, Entry>) {
    forall i, j :: i in entries && j in entries && i != j ==> !Overlaps(entries[i], entries[j])
  }

  /** A running timer is always a draft: it is never submitted, locked or returned. */
  ghost predicate TimersAreDrafts(entries: map<Id, Entry>) {
    forall id :: id in entries && entries[id].end.Open? ==> entries[id].status.Draft?
  }

  /** What was checked under the lock still holds when it is written. */
  ghost predicate LockOk(s: State) {
    match s.lock
    case WillStart(at) => ClearOf(s.entries, at, Open, {})
    case WillAdd(start, end) => ClearOf(s.entries, start, At(end), {})
    case WillEdit(id, start, end) => ClearOf(s.entries, start, At(end), {id})
    case WillSubmit(from, to) =>
      forall id :: id in s.entries && s.entries[id].end.Open? ==> !Starts(s.entries[id], from, to)
    case _ => true
  }

  ghost predicate Inv(s: State) {
    Disjoint(s.entries) && TimersAreDrafts(s.entries) && LockOk(s)
  }

  /** Every entry keeps its start and keeps or shrinks its end: stops and status changes only. */
  predicate Shrinks(before: map<Id, Entry>, after: map<Id, Entry>) {
    && after.Keys == before.Keys
    && forall id :: id in before ==>
         && after[id].start == before[id].start
         && (after[id].end == before[id].end || before[id].end.Open?)
         && (after[id].end.Open? ==> after[id].status == before[id].status)
  }

  /** Shrinking can only remove overlaps, so it is harmless at any moment, lock or no lock. */
  lemma ShrinkingIsSafe(s: State, after: map<Id, Entry>)
    requires Inv(s) && Shrinks(s.entries, after)
    ensures Inv(s.(entries := after))
  {
  }

  lemma InsertKeepsDisjoint(entries: map<Id, Entry>, id: Id, e: Entry)
    requires Disjoint(entries) && ClearOf(entries, e.start, e.end, {id})
    ensures Disjoint(entries[id := e])
  {
    assert forall j :: j in entries && j != id ==> !Overlaps(entries[j], Entry(e.start, e.end, Draft, 0));
  }

  /** The check against the earlier reading `now` covers an entry that starts at the later one. */
  lemma StartIsClear(entries: map<Id, Entry>, now: int, startedAt: int)
    requires now <= startedAt && NothingFrom(entries, now)
    ensures ClearOf(entries, startedAt, Open, {})
  {
  }

  lemma WriteKeepsInv(s: State, id: Id, now: int)
    requires Inv(s) && Enabled(s, Write(id, now))
    ensures Inv(Next(s, Write(id, now)))
  {
    match s.lock
    case WillStart(at) => InsertKeepsDisjoint(s.entries, id, Entry(at, Open, Draft, 0));
    case WillAdd(start, end) => InsertKeepsDisjoint(s.entries, id, Manual(start, end));
    case WillEdit(e, start, end) =>
      if e in s.entries && s.entries[e].Editable() {
        InsertKeepsDisjoint(s.entries, e, Manual(start, end));
      }
    case WillStop(_) => ShrinkingIsSafe(s, Written(s, id, now));
    case WillSubmit(_, _) => ShrinkingIsSafe(s, Written(s, id, now));
  }

  lemma StepKeepsInv(s: State, a: Action)
    requires Inv(s) && Enabled(s, a)
    ensures Inv(Next(s, a))
  {
    match a
    case CheckStart(now, startedAt) => StartIsClear(s.entries, now, startedAt);
    case Write(id, now) => WriteKeepsInv(s, id, now);
    case Checkout(_, _) => ShrinkingIsSafe(s, Next(s, a).entries);
    case Review(_, _, _) => ShrinkingIsSafe(s, Next(s, a).entries);
    case _ =>
  }

  /** A stop that found a running timer leaves it stopped, whoever got there first. */
  lemma StopEndsTimer(s: State, id: Id, any: Id, now: int)
    requires Inv(s) && s.lock == WillStop(id)
    ensures !Running(Next(s, Write(any, now)), id)
    ensures Running(s, id) ==> Ended(s.entries, Next(s, Write(any, now)).entries, id, now)
  {
  }

  ghost predicate IsRun(s: State, actions: seq<Action>, t: State)
    decreases |actions|
  {
    if actions == [] then s == t
    else Enabled(s, actions[0]) && IsRun(Next(s, actions[0]), actions[1..], t)
  }

  lemma {:induction false} RunKeepsInv(s: State, actions: seq<Action>, t: State)
    requires Inv(s) && IsRun(s, actions, t)
    ensures Inv(t)
    decreases |actions|
  {
    if actions != [] {
      StepKeepsInv(s, actions[0]);
      RunKeepsInv(Next(s, actions[0]), actions[1..], t);
    }
  }

  const START := State(map[], Free, {}, {})

  /**
   In every interleaving no two entries overlap, at most one timer runs, and a running
   timer is a draft.
   */
  lemma EveryRunIsDisjoint(actions: seq<Action>, t: State)
    requires IsRun(START, actions, t)
    ensures Disjoint(t.entries)
    ensures forall i, j :: Running(t, i) && Running(t, j) ==> i == j
    ensures forall i :: Running(t, i) ==> t.entries[i].status.Draft?
  {
    RunKeepsInv(START, actions, t);
    forall i, j | Running(t, i) && Running(t, j)
      ensures i == j
    {
      assert Overlaps(t.entries[i], t.entries[j]);
    }
  }

  // ---------------------------------------------------------------------------
  // Submitted work is frozen until a review returns it

  predicate Frozen(e: Entry) { e.status.Submitted? || e.status.Locked? }

  /** A review that returns the entries of a week with this start. */
  predicate Returns(a: Action, start: int) { a.Review? && !a.approve && a.weekStart <= start < a.weekEnd }

  lemma FrozenStep(s: State, a: Action, id: Id)
    requires TimersAreDrafts(s.entries) && Enabled(s, a) && id in s.entries && Frozen(s.entries[id])
    requires s.entries[id].status.Submitted? ==> !Returns(a, s.entries[id].start)
    ensures id in Next(s, a).entries && Frozen(Next(s, a).entries[id])
    ensures Next(s, a).entries[id].SameWork(s.entries[id])
    ensures s.entries[id].status.Locked? ==> Next(s, a).entries[id].status.Locked?
  {
  }

  /** Nothing changes submitted work unless a review returns its week; locked work never changes. */
  lemma {:induction false} FrozenStays(s: State, actions: seq<Action>, t: State, id: Id)
    requires Inv(s) && IsRun(s, actions, t) && id in s.entries && Frozen(s.entries[id])
    requires || s.entries[id].status.Locked?
             || forall i :: 0 <= i < |actions| ==> !Returns(actions[i], s.entries[id].start)
    ensures id in t.entries && Frozen(t.entries[id]) && t.entries[id].SameWork(s.entries[id])
    ensures s.entries[id].status.Locked? ==> t.entries[id] == s.entries[id]
    decreases |actions|
  {
    if actions != [] {
      FrozenStep(s, actions[0], id);
      StepKeepsInv(s, actions[0]);
      assert forall i :: 0 <= i < |actions| - 1 ==> actions[1..][i] == actions[i + 1];
      FrozenStays(Next(s, actions[0]), actions[1..], t, id);
    }
  }

  lemma SubmitTakes(s: State, from: int, to: int, any: Id, now: int, id: Id)
    requires Inv(s) && s.lock == WillSubmit(from, to) && id in s.entries && Starts(s.entries[id], from, to)
    ensures var after := Next(s, Write(any, now)).entries;
            id in after && Frozen(after[id]) && after[id].SameWork(s.entries[id])
  {
    var e := s.entries[id];
    assert Next(s, Write(any, now)).entries[id] == if e.Editable() then e.(status := Submitted) else e;
  }

  /**
   A submission freezes its week: every entry that started in it, in whatever state it was, keeps
   its times and minutes through any later run in which no review returns it.
   */
  lemma SubmittedWeekIsFrozen(s: State, from: int, to: int, any: Id, now: int, actions: seq<Action>, t: State, id: Id)
    requires Inv(s) && s.lock == WillSubmit(from, to) && IsRun(Next(s, Write(any, now)), actions, t)
    requires id in s.entries && Starts(s.entries[id], from, to)
    requires forall i :: 0 <= i < |actions| ==> !Returns(actions[i], s.entries[id].start)
    ensures id in t.entries && Frozen(t.entries[id]) && t.entries[id].SameWork(s.entries[id])
  {
    SubmitTakes(s, from, to, any, now, id);
    WriteKeepsInv(s, any, now);
    FrozenStays(Next(s, Write(any, now)), actions, t, id);
  }

  // ---------------------------------------------------------------------------
  // Disjoint entries inside a window cannot add up to more than the window

  function Total(entries: map<Id, Entry>, ids: seq<Id>): int
    requires forall i :: 0 <= i < |ids| ==> ids[i] in entries && entries[ids[i]].end.At?
  {
    if ids == [] then 0 else Total(entries, ids[..|ids| - 1]) + entries[ids[|ids| - 1]].Duration()
  }

  ghost predicate Inside(entries: map<Id, Entry>, ids: seq<Id>, from: int, to: int) {
    && (forall i :: 0 <= i < |ids| ==>
          && ids[i] in entries && entries[ids[i]].WellFormed()
          && from <= entries[ids[i]].start && entries[ids[i]].end.t <= to)
    && forall i, j :: 0 <= i < j < |ids| ==> ids[i] != ids[j]
  }

  function Without(ids: seq<Id>, k: nat): seq<Id>
    requires k < |ids|
  {
    ids[..k] + ids[k + 1..]
  }

  lemma {:induction false} TotalWithout(entries: map<Id, Entry>, ids: seq<Id>, k: nat)
    requires k < |ids| && forall i :: 0 <= i < |ids| ==> ids[i] in entries && entries[ids[i]].end.At?
    ensures Total(entries, ids) == Total(entries, Without(ids, k)) + entries[ids[k]].Duration()
  {
    var n := |ids| - 1;
    if k == n {
      assert Without(ids, k) == ids[..n];
    } else {
      TotalWithout(entries, ids[..n], k);
      assert Without(ids, k)[..n - 1] == Without(ids[..n], k);
    }
  }

  lemma {:induction false} LatestExists(entries: map<Id, Entry>, ids: seq<Id>) returns (k: nat)
    requires ids != [] && forall i :: 0 <= i < |ids| ==> ids[i] in entries && entries[ids[i]].end.At?
    ensures k < |ids| && forall i :: 0 <= i < |ids| ==> entries[ids[i]].end.t <= entries[ids[k]].end.t
  {
    var n := |ids| - 1;
    k := n;
    if n > 0 {
      var m := LatestExists(entries, ids[..n]);
      k := if entries[ids[m]].end.t > entries[ids[n]].end.t then m else n;
    }
  }

  /** Well-formed, pairwise disjoint entries inside a window sum to at most its length. */
  lemma {:induction false} TimeFitsWindow(entries: map<Id, Entry>, ids: seq<Id>, from: int, to: int)
    requires Disjoint(entries) && from <= to && Inside(entries, ids, from, to)
    ensures Total(entries, ids) <= to - from
    decreases |ids|
  {
    if ids != [] {
      var k := LatestExists(entries, ids);
      var last := entries[ids[k]];
      var rest := Without(ids, k);
      TotalWithout(entries, ids, k);
      forall i | 0 <= i < |rest|
        ensures rest[i] in entries && entries[rest[i]].WellFormed()
        ensures from <= entries[rest[i]].start && entries[rest[i]].end.t <= last.start
      {
        var p := if i < k then i else i + 1;
        assert rest[i] == ids[p];
        assert !Overlaps(entries[ids[p]], last);
      }
      TimeFitsWindow(entries, rest, from, last.start);
    }
  }

  // ---------------------------------------------------------------------------
  // The total of a timesheet, in rounded minutes

  /** Minutes are the rounded duration, or one if that was less and a timer was stopped; none while it runs. */
  ghost predicate MinutesOk(entries: map<Id, Entry>) {
    forall id :: id in entries ==> CountsRight(entries[id])
  }

  predicate CountsRight(e: Entry) {
    if e.end.Open? then e.minutes == 0
    else if e.Duration() <= 0 then e.minutes == 1
    else e.minutes in {Rounded(e.Duration()), AtLeastOne(Rounded(e.Duration()))}
  }

  /** What is about to be written by hand ends after it starts. */
  ghost predicate Forward(s: State) {
    && (s.lock.WillAdd? || s.lock.WillEdit? ==> s.lock.start < s.lock.end)
    && forall w :: w in s.edits ==> w.WillEdit? && w.start < w.end
  }

  lemma StepKeepsMinutes(s: State, a: Action)
    requires MinutesOk(s.entries) && Forward(s) && Enabled(s, a)
    ensures MinutesOk(Next(s, a).entries) && Forward(Next(s, a))
  {
  }

  lemma {:induction false} RunKeepsMinutes(s: State, actions: seq<Action>, t: State)
    requires MinutesOk(s.entries) && Forward(s) && IsRun(s, actions, t)
    ensures MinutesOk(t.entries)
    decreases |actions|
  {
    if actions != [] {
      StepKeepsMinutes(s, actions[0]);
      RunKeepsMinutes(Next(s, actions[0]), actions[1..], t);
    }
  }

  /** `total_minutes`: entries count by where they start, so one may reach past the week. */
  function SheetMinutes(entries: map<Id, Entry>, ids: seq<Id>): int
    requires forall i :: 0 <= i < |ids| ==> ids[i] in entries
  {
    if ids == [] then 0 else SheetMinutes(entries, ids[..|ids| - 1]) + entries[ids[|ids| - 1]].minutes
  }

  /** The entries of a sheet that have ended after they started. */
  function Proper(entries: map<Id, Entry>, ids: seq<Id>): seq<Id>
    requires forall i :: 0 <= i < |ids| ==> ids[i] in entries
  {
    if ids == [] then []
    else
      var n := |ids| - 1;
      Proper(entries, ids[..n]) + if entries[ids[n]].WellFormed() then [ids[n]] else []
  }

  lemma {:induction false} ProperOnes(entries: map<Id, Entry>, ids: seq<Id>)
    requires forall i :: 0 <= i < |ids| ==> ids[i] in entries
    requires forall i, j :: 0 <= i < j < |ids| ==> ids[i] != ids[j]
    ensures forall id :: id in Proper(entries, ids) ==> id in ids && entries[id].WellFormed()
    ensures forall i, j :: 0 <= i < j < |Proper(entries, ids)| ==> Proper(entries, ids)[i] != Proper(entries, ids)[j]
  {
    if ids != [] {
      ProperOnes(entries, ids[..|ids| - 1]);
    }
  }

  lemma {:induction false} AllProper(entries: map<Id, Entry>, ids: seq<Id>)
    requires forall i :: 0 <= i < |ids| ==> ids[i] in entries && entries[ids[i]].WellFormed()
    ensures Proper(entries, ids) == ids
  {
    if ids != [] {
      AllProper(entries, ids[..|ids| - 1]);
    }
  }

  lemma RoundingIsClose(e: Entry)
    requires CountsRight(e)
    ensures MINUTE_MS * e.minutes <= MINUTE_MS + if e.WellFormed() then e.Duration() else 0
  {
  }

  lemma {:induction false} MinutesOverTotal(entries: map<Id, Entry>, ids: seq<Id>)
    requires MinutesOk(entries) && forall i :: 0 <= i < |ids| ==> ids[i] in entries
    requires forall i, j :: 0 <= i < j < |ids| ==> ids[i] != ids[j]
    requires forall i :: 0 <= i < |Proper(entries, ids)| ==>
               Proper(entries, ids)[i] in entries && entries[Proper(entries, ids)[i]].end.At?
    ensures MINUTE_MS * SheetMinutes(entries, ids) <= Total(entries, Proper(entries, ids)) + MINUTE_MS * |ids|
  {
    if ids != [] {
      var n := |ids| - 1;
      var front := Proper(entries, ids[..n]);
      assert forall i :: 0 <= i < |front| ==> Proper(entries, ids)[i] == front[i];
      MinutesOverTotal(entries, ids[..n]);
      RoundingIsClose(entries[ids[n]]);
      if entries[ids[n]].WellFormed() {
        assert Proper(entries, ids) == front + [ids[n]];
        TotalWithout(entries, front + [ids[n]], |front|);
        assert Without(front + [ids[n]], |front|) == front;
      } else {
        assert Proper(entries, ids) == front;
      }
    }
  }

  /**
   After any run the minutes of a sheet exceed the time from the start of its week to the end of
   its last entry by at most one minute per entry, and fall short of the work they stand for by at
   most half a minute per entry.
   */
  lemma SheetFitsWeek(actions: seq<Action>, t: State, ids: seq<Id>, from: int, to: int, until: int)
    requires IsRun(START, actions, t) && from <= until
    requires forall i :: 0 <= i < |ids| ==> ids[i] in t.entries && Starts(t.entries[ids[i]], from, to)
    requires forall i :: 0 <= i < |ids| && t.entries[ids[i]].end.At? ==> t.entries[ids[i]].end.t <= until
    requires forall i, j :: 0 <= i < j < |ids| ==> ids[i] != ids[j]
    ensures MINUTE_MS * SheetMinutes(t.entries, ids) <= until - from + MINUTE_MS * |ids|
    ensures (forall i :: 0 <= i < |ids| ==> t.entries[ids[i]].WellFormed()) ==>
              60_000 * SheetMinutes(t.entries, ids) >= Total(t.entries, ids) - 30_000 * |ids|
  {
    RunKeepsInv(START, actions, t);
    RunKeepsMinutes(START, actions, t);
    ProperOnes(t.entries, ids);
    var proper := Proper(t.entries, ids);
    forall i | 0 <= i < |proper|
      ensures proper[i] in t.entries && t.entries[proper[i]].WellFormed()
      ensures from <= t.entries[proper[i]].start && t.entries[proper[i]].end.t <= until
    {
      assert proper[i] in proper;
    }
    TimeFitsWindow(t.entries, proper, from, until);
    MinutesOverTotal(t.entries, ids);
    MinutesCoverTotal(t.entries, ids);
    if forall i :: 0 <= i < |ids| ==> t.entries[ids[i]].WellFormed() {
      AllProper(t.entries, ids);
    }
  }

  /** The minute is needed: an entry of one millisecond counts as a whole minute of the sheet. */
  lemma ShortTimersCount()
    ensures exists actions, t :: IsRun(START, actions, t) && t.entries == map[0 := Entry(0, At(1), Draft, 1)]
  {
    var a := [CheckStart(0, 0), Write(0, 0), CheckStop(0), Write(0, 1)];
    var s1 := Next(START, a[0]);
    var s2 := Next(s1, a[1]);
    var s3 := Next(s2, a[2]);
    var s4 := Next(s3, a[3]);
    assert IsRun(s4, a[1..][1..][1..][1..], s4);
    assert IsRun(s3, a[1..][1..][1..], s4);
    assert IsRun(s2, a[1..][1..], s4);
    assert IsRun(s1, a[1..], s4);
    assert IsRun(START, a, s4);
  }

  // ---------------------------------------------------------------------------
  // Minutes are the duration to the nearest minute

  /** `minutes` is the duration in minutes, rounded to the nearest, halves up. */
  predicate Nearest(ms: int, minutes: int) { -30_000 < 60_000 * minutes - ms <= 30_000 }

  /** What a stopped timer counts: the nearest minute, but at least one. */
  predicate Counted(ms: int, minutes: int) { if ms < 30_000 then minutes == 1 else Nearest(ms, minutes) }

  lemma RoundedIsNearest(ms: int, minutes: int)
    ensures Nearest(ms, minutes) <==> minutes == Rounded(ms)
    ensures Counted(ms, minutes) <==> minutes == AtLeastOne(Rounded(ms))
  {
  }

  /**
   After any run: a running timer counts nothing; an ended entry counts the nearest minute, or one
   if it is shorter than half a minute, even if it ends before it starts.
   */
  lemma EveryRunCountsNearest(actions: seq<Action>, t: State, id: Id)
    requires IsRun(START, actions, t) && id in t.entries
    ensures var e := t.entries[id];
            if e.end.Open? then e.minutes == 0
            else if e.end.t <= e.start then e.minutes == 1
            else Nearest(e.end.t - e.start, e.minutes) || (e.minutes == 1 && e.end.t - e.start < 30_000)
  {
    RunKeepsMinutes(START, actions, t);
    var e := t.entries[id];
    if e.end.At? {
      RoundedIsNearest(e.Duration(), e.minutes);
    }
  }

  lemma {:induction false} MinutesCoverTotal(entries: map<Id, Entry>, ids: seq<Id>)
    requires MinutesOk(entries) && forall i :: 0 <= i < |ids| ==> ids[i] in entries
    requires forall i :: 0 <= i < |Proper(entries, ids)| ==>
               Proper(entries, ids)[i] in entries && entries[Proper(entries, ids)[i]].end.At?
    ensures 60_000 * SheetMinutes(entries, ids) >= Total(entries, Proper(entries, ids)) - 30_000 * |ids|
  {
    if ids != [] {
      var n := |ids| - 1;
      var front := Proper(entries, ids[..n]);
      assert forall i :: 0 <= i < |front| ==> Proper(entries, ids)[i] == front[i];
      MinutesCoverTotal(entries, ids[..n]);
      if entries[ids[n]].WellFormed() {
        assert Proper(entries, ids) == front + [ids[n]];
        TotalWithout(entries, front + [ids[n]], |front|);
        assert Without(front + [ids[n]], |front|) == front;
      } else {
        assert Proper(entries, ids) == front;
      }
    }
  }

  // ---------------------------------------------------------------------------
  // What a request does when nothing interferes: when it goes through, and what it stores

  /** The table with one entry written. */
  ghost predicate Stores(before: map<Id, Entry>, after: map<Id, Entry>, id: Id) {
    after.Keys == before.Keys + {id} && forall k :: k in before && k != id ==> after[k] == before[k]
  }

  /** The run goes through and leaves this table. */
  ghost predicate Leads(s: State, actions: seq<Action>, after: map<Id, Entry>) {
    exists t :: IsRun(s, actions, t) && t.entries == after
  }

  lemma LeadsTwo(s: State, first: Action, second: Action, after: map<Id, Entry>)
    ensures Leads(s, [first, second], after) <==>
            Enabled(s, first) && Enabled(Next(s, first), second) && Next(Next(s, first), second).entries == after
  {
    var actions := [first, second];
    var t := Next(Next(s, first), second);
    assert actions[1..] == [second] && [second][1..] == [];
    if Leads(s, actions, after) {
      var u :| IsRun(s, actions, u) && u.entries == after;
      assert IsRun(Next(s, first), [second], u);
      assert IsRun(t, [], u);
    }
    if Enabled(s, first) && Enabled(Next(s, first), second) {
      assert IsRun(t, [], t);
      assert IsRun(Next(s, first), [second], t);
      assert IsRun(s, actions, t);
    }
  }

  lemma LeadsThree(s: State, first: Action, second: Action, third: Action, after: map<Id, Entry>)
    ensures Leads(s, [first, second, third], after) <==>
            Enabled(s, first) && Leads(Next(s, first), [second, third], after)
  {
    assert [first, second, third][1..] == [second, third];
  }

  /** An instant of the entry lies in the time; an entry that ends before it starts, strictly inside it, counts too. */
  ghost predicate Meets(e: Entry, start: int, end: int) {
    || (exists x :: start <= x < end && Covers(e, x))
    || (e.end.At? && start < e.end.t <= e.start < end)
  }

  predicate Covers(e: Entry, x: int) { e.start <= x && (e.end.Open? || x < e.end.t) }

  lemma OverlapsIsMeets(e: Entry, start: int, end: int)
    requires start < end
    ensures Overlaps(e, Entry(start, At(end), Draft, 0)) <==> Meets(e, start, end)
  {
    if Overlaps(e, Entry(start, At(end), Draft, 0)) && !(e.end.At? && e.end.t <= e.start) {
      var x := if e.start < start then start else e.start;
      assert Covers(e, x);
    }
  }

  lemma ClearIsFree(entries: map<Id, Entry>, start: int, end: int, except: set<Id>)
    requires start < end
    ensures ClearOf(entries, start, At(end), except) <==>
            forall id :: id in entries && id !in except ==> !Meets(entries[id], start, end)
  {
    forall id | id in entries
      ensures Overlaps(entries[id], Entry(start, At(end), Draft, 0)) <==> Meets(entries[id], start, end)
    {
      OverlapsIsMeets(entries[id], start, end);
    }
  }

  /** A new entry is stored with the nearest minutes exactly if it is forward, at most a day, and meets no other. */
  lemma AddIff(s: State, id: Id, start: int, end: int, now: int, after: map<Id, Entry>)
    requires s.lock.Free? && id !in s.entries && Stores(s.entries, after, id)
    requires after[id].start == start && after[id].end == At(end) && after[id].status.Draft?
    requires Nearest(end - start, after[id].minutes)
    ensures Leads(s, [CheckAdd(start, end), Write(id, now)], after) <==>
            && start < end && after[id].minutes <= 1440
            && forall k :: k in s.entries ==> !Meets(s.entries[k], start, end)
  {
    LeadsTwo(s, CheckAdd(start, end), Write(id, now), after);
    RoundedIsNearest(end - start, after[id].minutes);
    if start < end {
      ClearIsFree(s.entries, start, end, {});
    }
    assert after == s.entries[id := after[id]];
  }

  /**
   An edit exactly if the entry is a completed draft or returned one, and the new time is free,
   forward and at most a day.
   */
  lemma EditIff(s: State, id: Id, start: int, end: int, any: Id, now: int, after: map<Id, Entry>)
    requires s.lock.Free? && id in s.entries && Stores(s.entries, after, id)
    requires after[id].start == start && after[id].end == At(end) && after[id].status.Draft?
    requires Nearest(end - start, after[id].minutes)
    ensures Leads(s, [ReadForEdit(id, start, end), CheckEdit(id, start, end), Write(any, now)], after) <==>
            && s.entries[id].end.At? && (s.entries[id].status.Draft? || s.entries[id].status.Rejected?)
            && start < end && end - start <= 86_400_000
            && forall k :: k in s.entries && k != id ==> !Meets(s.entries[k], start, end)
  {
    var read := Next(s, ReadForEdit(id, start, end));
    LeadsThree(s, ReadForEdit(id, start, end), CheckEdit(id, start, end), Write(any, now), after);
    LeadsTwo(read, CheckEdit(id, start, end), Write(any, now), after);
    RoundedIsNearest(end - start, after[id].minutes);
    if start < end {
      ClearIsFree(s.entries, start, end, {id});
    }
    assert after == s.entries[id := after[id]];
  }

  /** A timer starts exactly if every entry has started and ended by the time of the check. */
  lemma StartIff(s: State, id: Id, checked: int, at: int, now: int, after: map<Id, Entry>)
    requires s.lock.Free? && id !in s.entries && Stores(s.entries, after, id) && checked <= at
    requires after[id].start == at && after[id].end.Open? && after[id].status.Draft? && after[id].minutes == 0
    ensures Leads(s, [CheckStart(checked, at), Write(id, now)], after) <==>
            forall k :: k in s.entries ==>
              s.entries[k].start <= checked && s.entries[k].end.At? && s.entries[k].end.t <= checked
  {
    LeadsTwo(s, CheckStart(checked, at), Write(id, now), after);
    assert after == s.entries[id := after[id]];
  }

  /** The entry ended at a time, and nothing else. */
  ghost predicate Ended(before: map<Id, Entry>, after: map<Id, Entry>, id: Id, at: int) {
    && id in before && Stores(before, after, id)
    && after[id].start == before[id].start && after[id].end == At(at) && after[id].status.Draft?
    && Counted(at - before[id].start, after[id].minutes)
  }

  /** A stop and a checkout end the timer exactly if it runs. */
  lemma StopIff(s: State, id: Id, any: Id, at: int, after: map<Id, Entry>)
    requires Inv(s) && s.lock.Free? && Ended(s.entries, after, id, at)
    ensures Leads(s, [CheckStop(id), Write(any, at)], after) <==> s.entries[id].end.Open?
    ensures Leads(s, [ReadForCheckout(id), Checkout(id, at)], after) <==> s.entries[id].end.Open?
  {
    LeadsTwo(s, CheckStop(id), Write(any, at), after);
    LeadsTwo(s, ReadForCheckout(id), Checkout(id, at), after);
    RoundedIsNearest(at - s.entries[id].start, after[id].minutes);
    assert after == s.entries[id := after[id]];
  }

  /** The entries that start in the week and are in one of the old states get the new one. */
  ghost predicate Moved(before: map<Id, Entry>, after: map<Id, Entry>, from: int, to: int,
                        states: set<Status>, next: Status) {
    && after.Keys == before.Keys
    && forall k :: k in before ==>
         && after[k].start == before[k].start && after[k].end == before[k].end && after[k].minutes == before[k].minutes
         && after[k].status ==
            if from <= before[k].start < to && before[k].status in states && before[k].end.At? then next
            else before[k].status
  }

  /** A submission exactly if no timer of the week runs, and a review always: what becomes of the week. */
  lemma SubmitIff(s: State, from: int, to: int, any: Id, now: int, after: map<Id, Entry>)
    requires s.lock.Free? && Moved(s.entries, after, from, to, {Draft, Rejected}, Submitted)
    ensures Leads(s, [CheckSubmit(from, to), Write(any, now)], after) <==>
            forall k :: k in s.entries && from <= s.entries[k].start < to ==> s.entries[k].end.At?
  {
    LeadsTwo(s, CheckSubmit(from, to), Write(any, now), after);
    forall k | k in s.entries
      ensures after[k] == s.entries[k].(status := after[k].status)
    {
    }
  }

  lemma ReviewMoves(s: State, from: int, to: int, approve: bool)
    requires Inv(s)
    ensures Enabled(s, Review(from, to, approve))
    ensures Moved(s.entries, Next(s, Review(from, to, approve)).entries, from, to, {Submitted},
                  if approve then Locked else Rejected)
  {
  }
}
