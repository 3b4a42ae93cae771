/**
 Activation of statutory parameter sets (src/routes/payroll.ts): earlier active sets of the
 country are truncated, later ones make the activation fail, and drafts of the affected
 payroll months are marked stale. Days are integers; months are numbered 12 * year + month - 1.
 */
module StatutorySets {
  import opened Optional

  type Id = nat
  type Day = int
  type Country = nat
  type Actor = nat

  datatype Status = Draft | Active

  datatype ParamSet = ParamSet(country: Country, from: Day, to: Option<Day>, status: Status, createdBy: Actor) {
    predicate Covers(d: Day) { from <= d && (to.None? || d <= to.value) }
    predicate NonEmpty() { to.None? || from <= to.value }
  }

  type Table = map<Id, ParamSet>

  /** Closed date ranges that share a day, written as the two comparisons of the handler. */
  predicate Meets(a: ParamSet, b: ParamSet) {
    !(b.to.Some? && a.from > b.to.value) && !(a.to.Some? && a.to.value < b.from)
  }

  lemma MeetsIffSharedDay(a: ParamSet, b: ParamSet)
    requires a.NonEmpty() && b.NonEmpty()
    ensures Meets(a, b) <==> exists d :: a.Covers(d) && b.Covers(d)
  {
    if Meets(a, b) {
      var d := if a.from < b.from then b.from else a.from;
      assert a.Covers(d) && b.Covers(d);
    }
  }

  predicate Rival(sets: Table, id: Id, other: Id)
    requires id in sets && other in sets
  {
    other != id && sets[other].status.Active? && sets[other].country == sets[id].country && Meets(sets[other], sets[id])
  }

  /** An active set that starts on or after the new one and meets it blocks the activation. */
  ghost predicate Blocked(sets: Table, id: Id)
    requires id in sets
  {
    exists other :: other in sets && Rival(sets, id, other) && sets[other].from >= sets[id].from
  }

  /** Rivals in `done` end the day before the new start. */
  function Truncated(sets: Table, id: Id, done: set<Id>): Table
    requires id in sets
  {
    map k | k in sets ::
      if k in done && Rival(sets, id, k) then sets[k].(to := Some(sets[id].from - 1)) else sets[k]
  }

  function Activated(sets: Table, id: Id): Table
    requires id in sets
  {
    Truncated(sets, id, sets.Keys)[id := sets[id].(status := Active)]
  }

  predicate Competing(a: ParamSet, b: ParamSet) {
    a.status.Active? && b.status.Active? && a.country == b.country
  }

  /** All ranges are non-empty and active sets of one country never share a day. */
  ghost predicate Valid(sets: Table) {
    && (forall i :: i in sets ==> sets[i].NonEmpty())
    && forall i, j :: i in sets && j in sets && i != j && Competing(sets[i], sets[j]) ==> !Meets(sets[i], sets[j])
  }

  lemma TruncatedAt(sets: Table, id: Id, k: Id)
    requires Valid(sets) && id in sets && !Blocked(sets, id) && k in sets && k != id
    ensures k in Activated(sets, id) && Activated(sets, id)[k].NonEmpty()
    ensures || Activated(sets, id)[k] == sets[k]
            || (sets[k].from < sets[id].from && Activated(sets, id)[k] == sets[k].(to := Some(sets[id].from - 1)))
    ensures Competing(Activated(sets, id)[k], Activated(sets, id)[id]) ==>
              !Meets(Activated(sets, id)[k], sets[id]) && !Meets(sets[id], Activated(sets, id)[k])
    ensures forall other: ParamSet :: Meets(Activated(sets, id)[k], other) ==> Meets(sets[k], other)
    ensures forall other: ParamSet :: Meets(other, Activated(sets, id)[k]) ==> Meets(other, sets[k])
  {
    if Rival(sets, id, k) {
      assert sets[k].from < sets[id].from;
      assert !(sets[k].to.Some? && sets[k].to.value < sets[id].from);
    }
  }

  lemma ActivationIsValid(sets: Table, id: Id)
    requires Valid(sets) && id in sets && !Blocked(sets, id)
    ensures Valid(Activated(sets, id))
  {
    var after := Activated(sets, id);
    forall i, j | i in after && j in after && i != j && Competing(after[i], after[j])
      ensures !Meets(after[i], after[j])
    {
      if i != id {
        TruncatedAt(sets, id, i);
      }
      if j != id {
        TruncatedAt(sets, id, j);
      }
    }
    forall i | i in after
      ensures after[i].NonEmpty()
    {
      if i != id {
        TruncatedAt(sets, id, i);
      }
    }
  }

  // ---------------------------------------------------------------------------
  // Which set governs a day, and how activation changes it

  predicate Governs(sets: Table, country: Country, d: Day, id: Id) {
    id in sets && sets[id].status.Active? && sets[id].country == country && sets[id].Covers(d)
  }

  ghost predicate Ungoverned(sets: Table, country: Country, d: Day) {
    forall id :: !Governs(sets, country, d, id)
  }

  lemma OneGoverns(sets: Table, country: Country, d: Day, i: Id, j: Id)
    requires Valid(sets) && Governs(sets, country, d, i) && Governs(sets, country, d, j)
    ensures i == j
  {
    if i != j {
      MeetsIffSharedDay(sets[i], sets[j]);
    }
  }

  /** The truncated set, if any, that would still have covered `d`. */
  ghost predicate CutOff(sets: Table, id: Id, d: Day, other: Id)
    requires id in sets
  {
    && Governs(sets, sets[id].country, d, other) && other != id
    && Meets(sets[other], sets[id]) && d >= sets[id].from
  }

  /**
   Day by day: the new set governs the days it covers; a truncated set loses every day from
   the new start on, also those after the new end; all other days keep their set.
   */
  lemma GovernedAfter(sets: Table, id: Id, country: Country, d: Day, k: Id)
    requires Valid(sets) && id in sets && sets[id].status.Draft? && !Blocked(sets, id)
    ensures Governs(Activated(sets, id), country, d, k) <==>
            if k == id then country == sets[id].country && sets[id].Covers(d)
            else Governs(sets, country, d, k) && !(country == sets[id].country && CutOff(sets, id, d, k))
  {
    if k in sets && k != id && Rival(sets, id, k) {
      assert sets[k].from < sets[id].from;
    }
  }

  lemma DaysBeforeKept(sets: Table, id: Id, country: Country, d: Day, k: Id)
    requires Valid(sets) && id in sets && sets[id].status.Draft? && !Blocked(sets, id) && d < sets[id].from
    ensures Governs(Activated(sets, id), country, d, k) <==> Governs(sets, country, d, k)
  {
    GovernedAfter(sets, id, country, d, k);
  }

  // ---------------------------------------------------------------------------
  // The month filter

  function MonthIndex(year: int, month: int): int { 12 * year + month - 1 }

  datatype YearMonth = YearMonth(year: int, month: int) {
    predicate Proper() { 1 <= month <= 12 }
    function Index(): int { MonthIndex(year, month) }
  }

  /** The three-case database filter on `period_year` and `period_month`. */
  predicate InFilter(p: YearMonth, from: YearMonth, through: Option<YearMonth>) {
    if through.None? then
      p.year > from.year || (p.year == from.year && p.month >= from.month)
    else if through.value.year == from.year then
      p.year == from.year && from.month <= p.month <= through.value.month
    else
      || (p.year == from.year && p.month >= from.month)
      || (from.year < p.year < through.value.year)
      || (p.year == through.value.year && p.month <= through.value.month)
  }

  /** For a range whose end is not before its start, the filter is the plain comparison of months. */
  lemma FilterIsPlain(p: YearMonth, from: YearMonth, through: Option<YearMonth>)
    requires p.Proper() && from.Proper()
    requires through.Some? ==> through.value.Proper() && from.Index() <= through.value.Index()
    ensures InFilter(p, from, through) <==>
            from.Index() <= p.Index() && (through.None? || p.Index() <= through.value.Index())
  {
  }

  function YearMonthOf(index: int): (ym: YearMonth)
    ensures ym.Proper() && ym.Index() == index
  {
    YearMonth(index / 12, index % 12 + 1)
  }

  /** Months advance with days, and the last day of a month is in it. */
  datatype Calendar = Calendar(monthOf: Day -> int, monthEnd: int -> Day) {
    ghost predicate Sound() {
      && (forall a, b :: a <= b ==> monthOf(a) <= monthOf(b))
      && (forall m :: monthOf(monthEnd(m)) == m)
    }
  }

  predicate MarkedStale(c: Calendar, chosen: ParamSet, period: int) {
    InFilter(YearMonthOf(period), YearMonthOf(c.monthOf(chosen.from)),
             if chosen.to.None? then None else Some(YearMonthOf(c.monthOf(chosen.to.value))))
  }

  lemma MarkedIsPlain(c: Calendar, chosen: ParamSet, period: int)
    requires c.Sound() && chosen.NonEmpty()
    ensures MarkedStale(c, chosen, period) <==>
            c.monthOf(chosen.from) <= period && (chosen.to.None? || period <= c.monthOf(chosen.to.value))
  {
    FilterIsPlain(YearMonthOf(period), YearMonthOf(c.monthOf(chosen.from)),
                  if chosen.to.None? then None else Some(YearMonthOf(c.monthOf(chosen.to.value))));
  }

  /** Payroll of a period is computed with the set that governs its last day. */
  ghost predicate Changes(c: Calendar, sets: Table, id: Id, period: int)
    requires id in sets
  {
    exists k :: Governs(sets, sets[id].country, c.monthEnd(period), k) !=
                Governs(Activated(sets, id), sets[id].country, c.monthEnd(period), k)
  }

  /** The set in force at the end of the period is truncated although the new set has ended by then. */
  ghost predicate Outlasts(c: Calendar, sets: Table, id: Id, period: int)
    requires id in sets
  {
    && (exists other :: CutOff(sets, id, c.monthEnd(period), other))
    && sets[id].to.Some? && c.monthOf(sets[id].to.value) < period
  }

  /**
   A draft whose governing set changes stays unmarked exactly when a truncated set outlasted
   the new one: it governed a period after the month in which the new set ends.
   */
  lemma UnmarkedChangeIff(c: Calendar, sets: Table, id: Id, period: int)
    requires c.Sound() && Valid(sets) && id in sets && sets[id].status.Draft? && !Blocked(sets, id)
    ensures Changes(c, sets, id, period) && !MarkedStale(c, sets[id], period) <==> Outlasts(c, sets, id, period)
  {
    var country, d := sets[id].country, c.monthEnd(period);
    MarkedIsPlain(c, sets[id], period);
    if Changes(c, sets, id, period) && !MarkedStale(c, sets[id], period) {
      var k :| Governs(sets, country, d, k) != Governs(Activated(sets, id), country, d, k);
      GovernedAfter(sets, id, country, d, k);
      assert !sets[id].Covers(d);
      assert CutOff(sets, id, d, k);
    }
    if Outlasts(c, sets, id, period) {
      var k :| CutOff(sets, id, d, k);
      GovernedAfter(sets, id, country, d, k);
    }
  }

  lemma EndsAdvance(c: Calendar, m: int)
    requires c.Sound()
    ensures c.monthEnd(m) < c.monthEnd(m + 1)
  {
    assert c.monthOf(c.monthEnd(m)) == m && c.monthOf(c.monthEnd(m + 1)) == m + 1;
  }

  /** An open-ended set in force, and a draft for the last day of month `m` alone. */
  function LongAndShort(c: Calendar, m: int): Table {
    map[0 := ParamSet(1, c.monthEnd(m) - 1, None, Active, 1),
        1 := ParamSet(1, c.monthEnd(m), Some(c.monthEnd(m)), Draft, 1)]
  }

  /** In any calendar: activating the draft leaves the next month without a set and its drafts unmarked. */
  lemma OutlastingExample(c: Calendar, m: int)
    requires c.Sound()
    ensures var sets := LongAndShort(c, m);
            && Valid(sets) && !Blocked(sets, 1)
            && Governs(sets, 1, c.monthEnd(m + 1), 0)
            && Ungoverned(Activated(sets, 1), 1, c.monthEnd(m + 1))
            && !MarkedStale(c, sets[1], m + 1)
  {
    var sets := LongAndShort(c, m);
    EndsAdvance(c, m);
    assert CutOff(sets, 1, c.monthEnd(m + 1), 0);
    UnmarkedChangeIff(c, sets, 1, m + 1);
  }

  /** Activation also switches the organization to the country of the new set. */
  ghost predicate SwitchChanges(c: Calendar, sets: Table, country: Country, id: Id, period: int)
    requires id in sets
  {
    exists k :: Governs(sets, country, c.monthEnd(period), k) !=
                Governs(Activated(sets, id), sets[id].country, c.monthEnd(period), k)
  }

  /**
   Coming from another country, an unmarked period changes exactly when a set of the old
   country governed it, or a set of the new country that is not cut off now does.
   */
  lemma CountrySwitchIff(c: Calendar, sets: Table, country: Country, id: Id, period: int)
    requires c.Sound() && Valid(sets) && id in sets && sets[id].status.Draft? && !Blocked(sets, id)
    requires country != sets[id].country && !MarkedStale(c, sets[id], period)
    ensures SwitchChanges(c, sets, country, id, period) <==>
            || (exists k :: Governs(sets, country, c.monthEnd(period), k))
            || (exists k ::
                  Governs(sets, sets[id].country, c.monthEnd(period), k) && !CutOff(sets, id, c.monthEnd(period), k))
  {
    var d := c.monthEnd(period);
    MarkedIsPlain(c, sets[id], period);
    if k :| Governs(sets, country, d, k) != Governs(Activated(sets, id), sets[id].country, d, k) {
      GovernedAfter(sets, id, sets[id].country, d, k);
    }
    if k :| Governs(sets, country, d, k) {
      GovernedAfter(sets, id, sets[id].country, d, k);
    }
    if k :| Governs(sets, sets[id].country, d, k) && !CutOff(sets, id, d, k) {
      GovernedAfter(sets, id, sets[id].country, d, k);
    }
  }

  /** A set of country 2 in force, and a draft of country 1 from the end of the next month on. */
  function OldAndNewCountry(c: Calendar, m: int): Table {
    map[0 := ParamSet(2, c.monthEnd(m), None, Active, 1),
        1 := ParamSet(1, c.monthEnd(m + 1), None, Draft, 1)]
  }

  /**
   In any calendar: switching from country 2 to country 1 takes the set of month `m` away and
   leaves its drafts unmarked.
   */
  lemma CountrySwitchExample(c: Calendar, m: int)
    requires c.Sound()
    ensures var sets := OldAndNewCountry(c, m);
            && Valid(sets) && !Blocked(sets, 1)
            && Governs(sets, 2, c.monthEnd(m), 0)
            && Ungoverned(Activated(sets, 1), 1, c.monthEnd(m))
            && !MarkedStale(c, sets[1], m)
  {
    EndsAdvance(c, m);
    MarkedIsPlain(c, OldAndNewCountry(c, m)[1], m);
  }

  // ---------------------------------------------------------------------------
  // The transaction

  datatype Outcome = Ok | NotFound | NotDraft | MakerChecker | Overlap

  /** The loop over the active sets; `blocked` stands for the thrown overlap error. */
  method CloseRivals(sets: Table, id: Id) returns (blocked: bool, working: Table)
    requires id in sets
    ensures blocked <==> Blocked(sets, id)
    ensures !blocked ==> working == Truncated(sets, id, sets.Keys)
  {
    working := sets;
    var left := sets.Keys;
    while left != {}
      invariant left <= sets.Keys
      invariant working == Truncated(sets, id, sets.Keys - left)
      invariant forall k :: k in sets && k !in left && Rival(sets, id, k) ==> sets[k].from < sets[id].from
      decreases left
    {
      var k :| k in left;
      left := left - {k};
      if Rival(sets, id, k) {
        if sets[k].from >= sets[id].from {
          return true, sets;
        }
        var closeOldOn := sets[id].from - 1;
        if closeOldOn < sets[k].from {
          // the "cannot be closed before its start date" branch
          assert false;
        }
        working := working[k := working[k].(to := Some(closeOldOn))];
      }
    }
    assert sets.Keys - left == sets.Keys;
    blocked := false;
  }

  class ParamStore {
    var sets: Table

    /** `POST .../activate` when nothing happens between its read and its transaction; any error rolls back. */
    method Activate(id: Id, actor: Actor) returns (outcome: Outcome)
      requires Valid(sets)
      modifies this
      ensures Valid(sets)
      ensures outcome.NotFound? <==> id !in old(sets)
      ensures outcome.NotDraft? <==> id in old(sets) && !old(sets)[id].status.Draft?
      ensures outcome.MakerChecker? <==>
              id in old(sets) && old(sets)[id].status.Draft? && old(sets)[id].createdBy == actor
      ensures outcome.Overlap? ==> Blocked(old(sets), id)
      ensures outcome.Ok? ==> !Blocked(old(sets), id)
      ensures sets == if outcome.Ok? then Activated(old(sets), id) else old(sets)
    {
      if id !in sets {
        return NotFound;
      }
      if !sets[id].status.Draft? {
        return NotDraft;
      }
      if sets[id].createdBy == actor {
        return MakerChecker;
      }
      var blocked, working := CloseRivals(sets, id);
      if blocked {
        return Overlap;
      }
      ActivationIsValid(sets, id);
      sets := working[id := sets[id].(status := Active)];
      return Ok;
    }
  }

  // ---------------------------------------------------------------------------
  // Runs of drafting, reading and activating

  /** An activation that has read its set, and waits for the lease and the transaction. */
  datatype Pending = Pending(id: Id, seen: ParamSet)

  /** Requests are kept in `pending` for good, since several may have read the same set. */
  datatype World = World(sets: Table, pending: set<Pending>)

  datatype Step = DraftSet(id: Id, value: ParamSet) | ReadSet(id: Id, actor: Actor) | WriteSet(p: Pending)

  /** The table with the set as the request has seen it: what the transaction compares the active sets with. */
  function AsSeen(sets: Table, p: Pending): Table { sets[p.id := p.seen] }

  /** The transaction: rivals of the seen range are truncated, and the row becomes active as it now is. */
  function Written(sets: Table, p: Pending): Table
    requires p.id in sets
  {
    Truncated(AsSeen(sets, p), p.id, sets.Keys)[p.id := sets[p.id].(status := Active)]
  }

  ghost predicate Enabled(w: World, step: Step) {
    match step
    case DraftSet(id, v) => id !in w.sets && v.status.Draft? && v.NonEmpty()
    case ReadSet(id, actor) => id in w.sets && w.sets[id].status.Draft? && w.sets[id].createdBy != actor
    case WriteSet(p) => p in w.pending && p.id in w.sets && !Blocked(AsSeen(w.sets, p), p.id)
  }

  ghost function Next(w: World, step: Step): World
    requires Enabled(w, step)
  {
    match step
    case DraftSet(id, v) => w.(sets := w.sets[id := v])
    case ReadSet(id, _) => w.(pending := w.pending + {Pending(id, w.sets[id])})
    case WriteSet(p) => w.(sets := Written(w.sets, p))
  }

  /** An active set of the country starts later, inside the seen range. */
  ghost predicate Superseded(sets: Table, p: Pending) {
    exists k :: k in sets && k != p.id && sets[k].status.Active? && sets[k].country == p.seen.country
                && p.seen.from < sets[k].from && p.seen.Covers(sets[k].from)
  }

  /** What was read is a draft; the row is still that draft, or was activated, and truncated only by a later set. */
  ghost predicate PendingOk(sets: Table, p: Pending) {
    && p.seen.status.Draft? && p.id in sets
    && (|| sets[p.id] == p.seen
        || sets[p.id] == p.seen.(status := Active)
        || (sets[p.id] == p.seen.(status := Active, to := sets[p.id].to) && Superseded(sets, p)))
  }

  ghost predicate Inv(w: World) {
    Valid(w.sets) && forall p :: p in w.pending ==> PendingOk(w.sets, p)
  }

  /** A pending activation whose set is no longer a draft is refused or changes nothing. */
  lemma StaleActivationIsHarmless(sets: Table, p: Pending)
    requires Valid(sets) && PendingOk(sets, p) && !sets[p.id].status.Draft?
    ensures Blocked(AsSeen(sets, p), p.id) || Written(sets, p) == sets
    ensures sets[p.id].to != p.seen.to ==> Blocked(AsSeen(sets, p), p.id)
  {
    var seen := AsSeen(sets, p);
    if sets[p.id] == p.seen.(status := Active) {
      forall k | k in seen
        ensures !Rival(seen, p.id, k)
      {
        if k != p.id {
          assert Competing(sets[k], sets[p.id]) ==> !Meets(sets[k], sets[p.id]);
        }
      }
      assert Truncated(seen, p.id, sets.Keys) == seen;
    } else {
      var k :| k in sets && k != p.id && sets[k].status.Active? && sets[k].country == p.seen.country
               && p.seen.from < sets[k].from && p.seen.Covers(sets[k].from);
      assert Rival(seen, p.id, k);
    }
  }

  /** An enabled write activates the draft as it stands, or changes nothing. */
  lemma WriteIsActivation(sets: Table, p: Pending)
    requires Valid(sets) && PendingOk(sets, p) && !Blocked(AsSeen(sets, p), p.id)
    ensures if sets[p.id].status.Draft? then !Blocked(sets, p.id) && Written(sets, p) == Activated(sets, p.id)
            else Written(sets, p) == sets
  {
    if sets[p.id].status.Draft? {
      assert AsSeen(sets, p) == sets;
    } else {
      StaleActivationIsHarmless(sets, p);
    }
  }

  lemma SupersededStays(sets: Table, id: Id, p: Pending)
    requires Valid(sets) && id in sets && !Blocked(sets, id) && Superseded(sets, p)
    ensures Superseded(Activated(sets, id), p)
  {
    var k :| k in sets && k != p.id && sets[k].status.Active? && sets[k].country == p.seen.country
             && p.seen.from < sets[k].from && p.seen.Covers(sets[k].from);
    var after := Activated(sets, id);
    if k != id {
      TruncatedAt(sets, id, k);
    }
    assert k in after && after[k].status.Active? && after[k].country == sets[k].country
           && after[k].from == sets[k].from;
  }

  lemma ActivationKeepsPending(sets: Table, id: Id, p: Pending)
    requires Valid(sets) && id in sets && sets[id].status.Draft? && !Blocked(sets, id) && PendingOk(sets, p)
    ensures PendingOk(Activated(sets, id), p)
  {
    var after := Activated(sets, id);
    if Superseded(sets, p) {
      SupersededStays(sets, id, p);
    }
    if p.id != id {
      TruncatedAt(sets, id, p.id);
      if after[p.id] != sets[p.id] {
        assert Rival(sets, id, p.id);
        assert after[id].status.Active? && sets[p.id].Covers(sets[id].from);
        assert !Superseded(sets, p) ==> p.seen.Covers(after[id].from);
      }
    }
  }

  lemma StepKeepsInv(w: World, step: Step)
    requires Inv(w) && Enabled(w, step)
    ensures Inv(Next(w, step))
  {
    match step
    case DraftSet(id, v) =>
      forall p | p in w.pending
        ensures PendingOk(w.sets[id := v], p)
      {
        DraftKeepsPending(w.sets, id, v, p);
      }
    case ReadSet(_, _) =>
    case WriteSet(q) =>
      WriteIsActivation(w.sets, q);
      if w.sets[q.id].status.Draft? {
        ActivationIsValid(w.sets, q.id);
        forall p | p in w.pending
          ensures PendingOk(Activated(w.sets, q.id), p)
        {
          ActivationKeepsPending(w.sets, q.id, p);
        }
      }
  }

  lemma DraftKeepsPending(sets: Table, id: Id, v: ParamSet, p: Pending)
    requires id !in sets && PendingOk(sets, p)
    ensures PendingOk(sets[id := v], p)
  {
    if k :| k in sets && k != p.id && sets[k].status.Active? && sets[k].country == p.seen.country
            && p.seen.from < sets[k].from && p.seen.Covers(sets[k].from) {
      assert sets[id := v][k] == sets[k];
    }
  }

  ghost predicate IsRun(a: World, steps: seq<Step>, b: World)
    decreases |steps|
  {
    if steps == [] then a == b else Enabled(a, steps[0]) && IsRun(Next(a, steps[0]), steps[1..], b)
  }

  lemma {:induction false} RunKeepsInv(a: World, steps: seq<Step>, b: World)
    requires Inv(a) && IsRun(a, steps, b)
    ensures Inv(b)
    decreases |steps|
  {
    if steps != [] {
      StepKeepsInv(a, steps[0]);
      RunKeepsInv(Next(a, steps[0]), steps[1..], b);
    }
  }

  /**
   Undisturbed, an activation goes through if and only if the set is a draft of somebody else and no
   active set of its country that starts on its first day or later shares a day with it; the set then
   governs its days.
   */
  lemma ActivationGoesThroughIff(w: World, id: Id, actor: Actor)
    requires Inv(w) && id in w.sets
    ensures (exists t :: IsRun(w, [ReadSet(id, actor), WriteSet(Pending(id, w.sets[id]))], t) && Takes(w, id, t)) <==>
            && w.sets[id].status.Draft? && w.sets[id].createdBy != actor
            && forall k :: k in w.sets && k != id ==> !Opposes(w.sets[k], w.sets[id])
  {
    var p := Pending(id, w.sets[id]);
    assert AsSeen(w.sets, p) == w.sets;
    BlockedIsShared(w.sets, id);
    var steps := [ReadSet(id, actor), WriteSet(p)];
    assert steps[1..] == [WriteSet(p)] && [WriteSet(p)][1..] == [];
    if Enabled(w, ReadSet(id, actor)) {
      var w1 := Next(w, ReadSet(id, actor));
      if Enabled(w1, WriteSet(p)) {
        var t := Next(w1, WriteSet(p));
        assert IsRun(t, [], t);
        assert IsRun(w1, [WriteSet(p)], t);
        assert IsRun(w, steps, t);
        ActivationTakes(w, id, p, t);
      }
    }
  }

  /** A drafted set can be activated by somebody else, and governs nothing before that. */
  lemma DraftIsPending(w: World, id: Id, v: ParamSet, actor: Actor)
    requires Inv(w) && Enabled(w, DraftSet(id, v)) && v.createdBy != actor
    ensures var t := Next(w, DraftSet(id, v));
            && Enabled(t, ReadSet(id, actor)) && id in t.sets && t.sets[id] == v
            && forall country, d, k :: Governs(t.sets, country, d, k) <==> Governs(w.sets, country, d, k)
  {
  }

  /** An active set of the country that starts on the first day or later and shares a day. */
  ghost predicate Opposes(a: ParamSet, b: ParamSet) {
    a.status.Active? && a.country == b.country && a.from >= b.from && exists d :: a.Covers(d) && b.Covers(d)
  }

  /** The set governs exactly its days from now on, and earlier days are governed as before. */
  ghost predicate Takes(w: World, id: Id, t: World)
    requires id in w.sets
  {
    var country := w.sets[id].country;
    && (forall d :: Governs(t.sets, country, d, id) <==> w.sets[id].Covers(d))
    && (forall d, k :: d < w.sets[id].from ==> (Governs(t.sets, country, d, k) <==> Governs(w.sets, country, d, k)))
  }

  lemma ActivationTakes(w: World, id: Id, p: Pending, t: World)
    requires Inv(w) && id in w.sets && p == Pending(id, w.sets[id]) && w.sets[id].status.Draft?
    requires !Blocked(w.sets, id) && t.sets == Written(w.sets, p)
    ensures Takes(w, id, t)
  {
    assert AsSeen(w.sets, p) == w.sets;
    WriteIsActivation(w.sets, p);
    var country := w.sets[id].country;
    forall d
      ensures Governs(t.sets, country, d, id) <==> w.sets[id].Covers(d)
    {
      GovernedAfter(w.sets, id, country, d, id);
    }
    forall d, k | d < w.sets[id].from
      ensures Governs(t.sets, country, d, k) <==> Governs(w.sets, country, d, k)
    {
      DaysBeforeKept(w.sets, id, country, d, k);
    }
  }

  lemma BlockedIsShared(sets: Table, id: Id)
    requires Valid(sets) && id in sets
    ensures Blocked(sets, id) <==> exists k :: k in sets && k != id && Opposes(sets[k], sets[id])
  {
    forall k | k in sets && k != id
      ensures Rival(sets, id, k) && sets[k].from >= sets[id].from <==> Opposes(sets[k], sets[id])
    {
      MeetsIffSharedDay(sets[k], sets[id]);
    }
    if k :| k in sets && k != id && Opposes(sets[k], sets[id]) {
      assert Rival(sets, id, k);
    }
  }

  /**
   However reads and writes of activations interleave, ranges stay disjoint, so at most one
   active set governs a day of a country, and a pending activation whose set another request has
   activated meanwhile is refused or changes nothing.
   */
  lemma RunStaysDisjoint(sets: Table, steps: seq<Step>, b: World)
    requires Valid(sets) && IsRun(World(sets, {}), steps, b)
    ensures Valid(b.sets)
    ensures forall country, d, i, j :: Governs(b.sets, country, d, i) && Governs(b.sets, country, d, j) ==> i == j
    ensures forall p :: p in b.pending ==> p.id in b.sets
    ensures forall p :: p in b.pending && !b.sets[p.id].status.Draft? ==>
              Blocked(AsSeen(b.sets, p), p.id) || Written(b.sets, p) == b.sets
  {
    RunKeepsInv(World(sets, {}), steps, b);
    forall country, d, i, j | Governs(b.sets, country, d, i) && Governs(b.sets, country, d, j)
      ensures i == j
    {
      OneGoverns(b.sets, country, d, i, j);
    }
    forall p | p in b.pending && !b.sets[p.id].status.Draft?
      ensures Blocked(AsSeen(b.sets, p), p.id) || Written(b.sets, p) == b.sets
    {
      StaleActivationIsHarmless(b.sets, p);
    }
  }
}
