/**
 Emergency shift offers (src/routes/shift-field-ops.ts): overnight interval arithmetic where
 only the days before and after the offer are inspected, and the life of an offer under
 concurrent claims, expiry sweeps and cancellations.
 */
module EmergencyShift {
  import opened Optional

  // ---------------------------------------------------------------------------
  // Times of day

  predicate Digit(c: char, max: char) { '0' <= c <= max }

  function Value(c: char): int { c as int - '0' as int }

  /** `^([01]\d|2[0-3]):([0-5]\d)$`, in minutes after midnight. */
  function TimeToMins(s: string): Option<int> {
    if && |s| == 5 && s[2] == ':'
       && (if s[0] == '2' then Digit(s[1], '3') else Digit(s[0], '1') && Digit(s[1], '9'))
       && Digit(s[3], '5') && Digit(s[4], '9')
    then Some((10 * Value(s[0]) + Value(s[1])) * 60 + 10 * Value(s[3]) + Value(s[4]))
    else None
  }

  function DigitOf(n: int): char
    requires 0 <= n < 10
  {
    '0' + n as char
  }

  function Clock(m: int): string
    requires 0 <= m < 1440
  {
    [DigitOf(m / 600), DigitOf(m / 60 % 10), ':', DigitOf(m % 60 / 10), DigitOf(m % 10)]
  }

  /** The accepted strings are exactly the clock readings of a day, each read as its own minute. */
  lemma TimeToMinsIsClock(s: string)
    ensures TimeToMins(s).Some? <==> exists m :: 0 <= m < 1440 && s == Clock(m)
    ensures TimeToMins(s).Some? ==> 0 <= TimeToMins(s).value < 1440 && s == Clock(TimeToMins(s).value)
  {
    if TimeToMins(s).Some? {
      var m := TimeToMins(s).value;
      var h, t := 10 * Value(s[0]) + Value(s[1]), 10 * Value(s[3]) + Value(s[4]);
      assert m == 60 * h + t && 0 <= h < 24 && 0 <= t < 60;
      assert m / 60 == h && m % 60 == t;
      assert m / 600 == Value(s[0]) && m % 10 == Value(s[4]);
      assert s == Clock(m);
    }
    forall m | 0 <= m < 1440
      ensures TimeToMins(Clock(m)) == Some(m)
    {
      ClockReads(m);
    }
  }

  lemma ClockReads(m: int)
    requires 0 <= m < 1440
    ensures TimeToMins(Clock(m)) == Some(m)
  {
    var h, t := m / 60, m % 60;
    assert m / 600 == h / 10 && m % 10 == t % 10;
    assert 10 * (h / 10) + h % 10 == h && 10 * (t / 10) + t % 10 == t;
  }

  // ---------------------------------------------------------------------------
  // Intervals

  const MINUTE := 60_000
  const DAY := 86_400_000
  const HOUR := 3_600_000

  /** A shift by its clock times in minutes and the rest it demands in hours. */
  datatype Shift = Shift(start: int, end: int, restHours: int) {
    predicate Valid() { 0 <= start < 1440 && 0 <= end < 1440 && restHours >= 0 }
    /** An end at or before the start belongs to the next day. */
    function EndMinutes(): int { if end <= start then end + 1440 else end }
    function Duration(): int { EndMinutes() - start }
  }

  datatype Interval = Interval(start: int, end: int)

  function ShiftInterval(day: int, s: Shift): Interval {
    Interval(day * DAY + s.start * MINUTE, day * DAY + s.EndMinutes() * MINUTE)
  }

  predicate Overlaps(a: Interval, b: Interval) { a.start < b.end && b.start < a.end }

  function Max(a: int, b: int): int { if a >= b then a else b }

  function RestNeeded(a: Shift, b: Shift): int { Max(a.restHours, b.restHours) * HOUR }

  /** The condition under which the claim is refused because of one neighbouring assignment. */
  predicate Conflicts(offer: Interval, existing: Interval, rest: int) {
    || Overlaps(offer, existing)
    || (offer.start - existing.end < rest && existing.end <= offer.start)
    || (existing.start - offer.end < rest && offer.end <= existing.start)
  }

  /** What the check stands for: disjoint, with the rest in between. */
  predicate Rested(a: Interval, b: Interval, rest: int) {
    a.end + rest <= b.start || b.end + rest <= a.start
  }

  lemma ConflictsIsNotRested(a: Interval, b: Interval, rest: int)
    requires a.start < a.end && b.start < b.end && rest >= 0
    ensures Conflicts(a, b, rest) <==> !Rested(a, b, rest)
  {
  }

  // ---------------------------------------------------------------------------
  // The claim check: one employee's assignments by day

  type Roster = map<int, Shift>

  ghost predicate ValidRoster(roster: Roster) {
    forall d :: d in roster ==> roster[d].Valid()
  }

  /** No assignment on the day itself, and no conflict on the day before or after. */
  predicate NeighborsClear(roster: Roster, day: int, offer: Shift) {
    && day !in roster
    && forall d :: d in roster && day - 1 <= d <= day + 1 ==>
         !Conflicts(ShiftInterval(day, offer), ShiftInterval(d, roster[d]), RestNeeded(offer, roster[d]))
  }

  lemma FarApart(day: int, a: Shift, later: int, b: Shift)
    requires a.Valid() && b.Valid() && later >= day + 2
    ensures ShiftInterval(day, a).end + (1441 - a.Duration()) * MINUTE <= ShiftInterval(later, b).start
  {
  }

  /** A claim that passes overlaps none of the employee's assignments, on any date. */
  lemma ClaimNeverOverlaps(roster: Roster, day: int, offer: Shift, d: int)
    requires ValidRoster(roster) && offer.Valid() && NeighborsClear(roster, day, offer) && d in roster
    ensures !Overlaps(ShiftInterval(day, offer), ShiftInterval(d, roster[d]))
  {
    if d >= day + 2 {
      FarApart(day, offer, d, roster[d]);
    } else if d <= day - 2 {
      FarApart(d, roster[d], day, offer);
    }
  }

  /** The shift that comes first in a pair. */
  function Earlier(day: int, offer: Shift, d: int, other: Shift): Shift {
    if d < day then other else offer
  }

  /**
   Required rest holds against every date as soon as, for every assignment two or more days
   away, the earlier shift's length and the rest fit into 1441 minutes.
   */
  lemma ClaimKeepsRest(roster: Roster, day: int, offer: Shift, d: int)
    requires ValidRoster(roster) && offer.Valid() && NeighborsClear(roster, day, offer) && d in roster
    requires d <= day - 2 || d >= day + 2 ==>
               Earlier(day, offer, d, roster[d]).Duration() * MINUTE + RestNeeded(offer, roster[d]) <= 1441 * MINUTE
    ensures Rested(ShiftInterval(day, offer), ShiftInterval(d, roster[d]), RestNeeded(offer, roster[d]))
  {
    if d >= day + 2 {
      FarApart(day, offer, d, roster[d]);
    } else if d <= day - 2 {
      FarApart(d, roster[d], day, offer);
    } else {
      ConflictsIsNotRested(ShiftInterval(day, offer), ShiftInterval(d, roster[d]), RestNeeded(offer, roster[d]));
    }
  }

  /** Rest of `hours` after a shift of `minutes` is guaranteed however the clock times fall. */
  ghost predicate Guaranteed(minutes: int, hours: int) {
    forall roster: Roster, day, offer: Shift, d ::
      ValidRoster(roster) && offer.Valid() && NeighborsClear(roster, day, offer) && d in roster &&
      Earlier(day, offer, d, roster[d]).Duration() == minutes && Max(offer.restHours, roster[d].restHours) == hours ==>
        Rested(ShiftInterval(day, offer), ShiftInterval(d, roster[d]), hours * HOUR)
  }

  /** Looking one day around is enough for the rest rule exactly up to 1441 minutes of shift plus rest. */
  lemma RestGuaranteedIff(minutes: int, hours: int)
    requires 1 <= minutes <= 1440 && 0 <= hours
    ensures Guaranteed(minutes, hours) <==> minutes + 60 * hours <= 1441
  {
    if minutes + 60 * hours <= 1441 {
      forall roster: Roster, day, offer: Shift, d |
        ValidRoster(roster) && offer.Valid() && NeighborsClear(roster, day, offer) && d in roster &&
        Earlier(day, offer, d, roster[d]).Duration() == minutes && Max(offer.restHours, roster[d].restHours) == hours
        ensures Rested(ShiftInterval(day, offer), ShiftInterval(d, roster[d]), hours * HOUR)
      {
        ClaimKeepsRest(roster, day, offer, d);
      }
    } else {
      LateShiftBreaksRest(minutes, hours);
    }
  }

  /** A shift that starts at 23:59 and an offer at 00:00 two days later. */
  lemma LateShiftBreaksRest(minutes: int, hours: int)
    requires 1 <= minutes <= 1440 && 0 <= hours && minutes + 60 * hours > 1441
    ensures !Guaranteed(minutes, hours)
  {
    var late := Shift(1439, (1439 + minutes) % 1440, hours);
    var offer := Shift(0, 60, 0);
    var roster: Roster := map[0 := late];
    assert late.EndMinutes() == 1439 + minutes;
    assert NeighborsClear(roster, 2, offer) && ValidRoster(roster) && offer.Valid() && 0 in roster;
    assert Earlier(2, offer, 0, roster[0]).Duration() == minutes && Max(offer.restHours, roster[0].restHours) == hours;
    assert !Rested(ShiftInterval(2, offer), ShiftInterval(0, roster[0]), hours * HOUR);
  }

  // ---------------------------------------------------------------------------
  // Offers under concurrent requests

  type OfferId = nat
  type User = nat

  datatype Status = Open | Claimed | Cancelled | Expired
  datatype Offer = Offer(day: int, shift: Shift, expires: int, status: Status)

  /** `cancelling` holds offers a cancel request has read as open; `made` is the history of claims. */
  datatype State = State(
    offers: map<OfferId, Offer>,
    rosters: map<User, Roster>,
    cancelling: set<OfferId>,
    made: seq<(OfferId, User)>)

  datatype Action =
    | Post(id: OfferId, offer: Offer)
    | Sweep(now: int)
    | Claim(id: OfferId, user: User, seen: int, now: int, fit: bool)
    | ReadForCancel(id: OfferId)
    | Cancel(id: OfferId)
    | Assign(user: User, day: int, shift: Shift)
    | Unassign(user: User, day: int)

  function RosterOf(s: State, user: User): Roster {
    if user in s.rosters then s.rosters[user] else map[]
  }

  /**
   `fit` collects the checks on the employee record, leave and availability. The date is compared
   with the day on which the request first read the offer, at `seen`; that the offer was open and
   unexpired then follows from its being so at `now`.
   */
  predicate ClaimAllowed(s: State, id: OfferId, user: User, seen: int, now: int, fit: bool) {
    && id in s.offers && s.offers[id].status.Open? && now < s.offers[id].expires && fit
    && seen / DAY <= s.offers[id].day
    && NeighborsClear(RosterOf(s, user), s.offers[id].day, s.offers[id].shift)
  }

  predicate Enabled(s: State, a: Action) {
    match a
    case Post(id, offer) => id !in s.offers && offer.status.Open? && offer.shift.Valid()
    case ReadForCancel(id) => id in s.offers && s.offers[id].status.Open?
    case Cancel(id) => id in s.cancelling && id in s.offers
    case Claim(_, _, seen, now, _) => seen <= now
    case Assign(user, day, shift) => shift.Valid() && day !in RosterOf(s, user)
    case _ => true
  }

  function Next(s: State, a: Action): State {
    match a
    case Post(id, offer) => s.(offers := s.offers[id := offer])
    case Sweep(now) =>
      s.(offers := map id | id in s.offers ::
           if s.offers[id].status.Open? && s.offers[id].expires <= now then s.offers[id].(status := Expired)
           else s.offers[id])
    case Claim(id, user, seen, now, fit) =>
      if !ClaimAllowed(s, id, user, seen, now, fit) then s  // the transaction rolls back
      else
        var o := s.offers[id];
        s.(offers := s.offers[id := o.(status := Claimed)],
           rosters := s.rosters[user := RosterOf(s, user)[o.day := o.shift]],
           made := s.made + [(id, user)])
    case ReadForCancel(id) => s.(cancelling := s.cancelling + {id})
    case Cancel(id) =>
      if id !in s.offers then s else
      s.(offers := s.offers[id := s.offers[id].(status := Cancelled)], cancelling := s.cancelling - {id})
    case Assign(user, day, shift) => s.(rosters := s.rosters[user := RosterOf(s, user)[day := shift]])
    case Unassign(user, day) => s.(rosters := s.rosters[user := RosterOf(s, user) - {day}])
  }

  ghost predicate Inv(s: State) {
    && (forall id :: id in s.offers ==> s.offers[id].shift.Valid())
    && (forall user :: user in s.rosters ==> ValidRoster(s.rosters[user]))
    && (forall i :: 0 <= i < |s.made| ==> s.made[i].0 in s.offers && !s.offers[s.made[i].0].status.Open?)
    && (forall id :: id in s.cancelling ==> id in s.offers)
    && (forall i, j :: 0 <= i < j < |s.made| ==> s.made[i].0 != s.made[j].0)
  }

  lemma StepKeepsInv(s: State, a: Action)
    requires Inv(s) && Enabled(s, a)
    ensures Inv(Next(s, a))
  {
    if a.Claim? && ClaimAllowed(s, a.id, a.user, a.seen, a.now, a.fit) {
      forall i | 0 <= i < |s.made|
        ensures s.made[i].0 != a.id
      {
      }
    }
  }

  /** The sweep of the listing closes exactly the open offers whose time is up. */
  lemma SweepIsExact(s: State, now: int, id: OfferId)
    requires id in s.offers
    ensures var after := Next(s, Sweep(now)).offers;
            && id in after
            && (after[id].status.Open? <==> s.offers[id].status.Open? && now < s.offers[id].expires)
            && (!s.offers[id].status.Open? ==> after[id] == s.offers[id])
  {
    var o := s.offers[id];
    assert Next(s, Sweep(now)).offers[id] == if o.status.Open? && o.expires <= now then o.(status := Expired) else o;
  }

  /** An offer that has left `open` never returns to it, and keeps its day, shift and expiry. */
  lemma StepNeverReopens(s: State, a: Action, id: OfferId)
    requires Enabled(s, a) && id in s.offers
    ensures id in Next(s, a).offers
    ensures Next(s, a).offers[id].status.Open? ==> s.offers[id].status.Open?
    ensures Next(s, a).offers[id] == s.offers[id].(status := Next(s, a).offers[id].status)
  {
  }

  ghost predicate IsRun(s: State, actions: seq<Action>, t: State)
    decreases |actions|
  {
    if actions == [] then s == t
    else Enabled(s, actions[0]) && IsRun(Next(s, actions[0]), actions[1..], t)
  }

  lemma {:induction false} RunKeepsInv(s: State, actions: seq<Action>, t: State)
    requires Inv(s) && IsRun(s, actions, t)
    ensures Inv(t)
    ensures forall id :: id in s.offers ==> id in t.offers && (t.offers[id].status.Open? ==> s.offers[id].status.Open?)
    decreases |actions|
  {
    if actions != [] {
      StepKeepsInv(s, actions[0]);
      forall id | id in s.offers
        ensures id in Next(s, actions[0]).offers
        ensures Next(s, actions[0]).offers[id].status.Open? ==> s.offers[id].status.Open?
      {
        StepNeverReopens(s, actions[0], id);
      }
      RunKeepsInv(Next(s, actions[0]), actions[1..], t);
    }
  }

  /** Once an offer is not open, nobody claims it: the history of claims only grows by other offers. */
  lemma {:induction false} ClosedIsNeverClaimed(s: State, actions: seq<Action>, t: State, id: OfferId)
    requires IsRun(s, actions, t) && id in s.offers && !s.offers[id].status.Open?
    ensures |s.made| <= |t.made| && t.made[..|s.made|] == s.made
    ensures forall i :: |s.made| <= i < |t.made| ==> t.made[i].0 != id
    decreases |actions|
  {
    if actions != [] {
      StepNeverReopens(s, actions[0], id);
      ClosedIsNeverClaimed(Next(s, actions[0]), actions[1..], t, id);
    }
  }

  /** After a sweep at `now` an offer is claimed later only if it was open and its time was not up. */
  lemma SweptIsNeverClaimed(s: State, now: int, actions: seq<Action>, t: State, id: OfferId)
    requires IsRun(Next(s, Sweep(now)), actions, t) && id in s.offers
    ensures |s.made| <= |t.made|
    ensures (exists i :: |s.made| <= i < |t.made| && t.made[i].0 == id) ==>
              s.offers[id].status.Open? && now < s.offers[id].expires
  {
    SweepIsExact(s, now, id);
    MadeStays(Next(s, Sweep(now)), actions, t);
    if !(s.offers[id].status.Open? && now < s.offers[id].expires) {
      ClosedIsNeverClaimed(Next(s, Sweep(now)), actions, t, id);
    }
  }

  const START := State(map[], map[], {}, [])

  /** In every interleaving an offer yields at most one assignment. */
  lemma AtMostOneAssignment(actions: seq<Action>, t: State, i: nat, j: nat)
    requires IsRun(START, actions, t) && i < |t.made| && j < |t.made| && t.made[i].0 == t.made[j].0
    ensures i == j
  {
    RunKeepsInv(START, actions, t);
  }

  /** Every claim that succeeds, at any point of any run, is clear of all of the claimer's assignments. */
  lemma EveryClaimIsClear(actions: seq<Action>, s: State, id: OfferId, user: User, seen: int, now: int, fit: bool,
                          d: int)
    requires IsRun(START, actions, s) && Next(s, Claim(id, user, seen, now, fit)) != s && d in RosterOf(s, user)
    ensures id in s.offers
    ensures !Overlaps(ShiftInterval(s.offers[id].day, s.offers[id].shift), ShiftInterval(d, RosterOf(s, user)[d]))
    ensures var t := Next(s, Claim(id, user, seen, now, fit));
            && t.made == s.made + [(id, user)] && t.offers[id].status.Claimed?
            && s.offers[id].day !in RosterOf(s, user)
            && RosterOf(t, user) == RosterOf(s, user)[s.offers[id].day := s.offers[id].shift]
  {
    RunKeepsInv(START, actions, s);
    ClaimNeverOverlaps(RosterOf(s, user), s.offers[id].day, s.offers[id].shift, d);
  }

  /** The employee is free on the day, and rested against the day before and the day after. */
  ghost predicate FreeAndRested(roster: Roster, day: int, offer: Shift) {
    && day !in roster
    && forall d :: d in roster && (d == day - 1 || d == day + 1) ==>
         var rest := Max(offer.restHours, roster[d].restHours) * HOUR;
         Rested(ShiftInterval(day, offer), ShiftInterval(d, roster[d]), rest)
  }

  /** In any reachable state a claim takes effect if and only if all of this holds; otherwise it changes nothing. */
  lemma ClaimIff(actions: seq<Action>, s: State, id: OfferId, user: User, seen: int, now: int, fit: bool)
    requires IsRun(START, actions, s)
    ensures Next(s, Claim(id, user, seen, now, fit)) != s <==>
            && id in s.offers && s.offers[id].status == Open && now < s.offers[id].expires
            && seen / 86_400_000 <= s.offers[id].day && fit
            && FreeAndRested(RosterOf(s, user), s.offers[id].day, s.offers[id].shift)
  {
    RunKeepsInv(START, actions, s);
    if id in s.offers {
      ClearIsRested(RosterOf(s, user), s.offers[id].day, s.offers[id].shift);
      if ClaimAllowed(s, id, user, seen, now, fit) {
        assert Next(s, Claim(id, user, seen, now, fit)).offers[id].status.Claimed?;
      }
    }
  }

  lemma ClearIsRested(roster: Roster, day: int, offer: Shift)
    requires ValidRoster(roster) && offer.Valid()
    ensures NeighborsClear(roster, day, offer) <==> FreeAndRested(roster, day, offer)
  {
    forall d | d in roster
      ensures Conflicts(ShiftInterval(day, offer), ShiftInterval(d, roster[d]), RestNeeded(offer, roster[d]))
              <==> !Rested(ShiftInterval(day, offer), ShiftInterval(d, roster[d]), RestNeeded(offer, roster[d]))
    {
      ConflictsIsNotRested(ShiftInterval(day, offer), ShiftInterval(d, roster[d]), RestNeeded(offer, roster[d]));
    }
  }

  /** A claim of the run made before the offer's expiry, and not after its day, by a fit employee. */
  ghost predicate ClaimedInTime(actions: seq<Action>, id: OfferId, user: User, offer: Offer) {
    exists k :: 0 <= k < |actions| && actions[k].Claim? && actions[k].id == id && actions[k].user == user
                && actions[k].fit && actions[k].now < offer.expires && actions[k].seen / 86_400_000 <= offer.day
  }

  /** Every assignment in the history stems from such a claim. */
  lemma {:induction false} MadeInTime(s: State, actions: seq<Action>, t: State, i: nat)
    requires IsRun(s, actions, t) && |s.made| <= i < |t.made|
    ensures t.made[i].0 in t.offers && ClaimedInTime(actions, t.made[i].0, t.made[i].1, t.offers[t.made[i].0])
    decreases |actions|
  {
    var m := Next(s, actions[0]);
    var id, user := t.made[i].0, t.made[i].1;
    MadeStays(m, actions[1..], t);
    if i < |m.made| {
      assert m.made[i] == t.made[i] && actions[0].Claim? && m != s;
      assert actions[0].id == id && actions[0].user == user && actions[0].fit;
      OfferStays(m, actions[1..], t, id);
      assert ClaimedInTime(actions, id, user, t.offers[id]);
    } else {
      MadeInTime(m, actions[1..], t, i);
      var k :| 0 <= k < |actions[1..]| && actions[1..][k].Claim? && actions[1..][k].id == id
               && actions[1..][k].user == user && actions[1..][k].fit && actions[1..][k].now < t.offers[id].expires
               && actions[1..][k].seen / 86_400_000 <= t.offers[id].day;
      assert actions[k + 1] == actions[1..][k];
    }
  }

  lemma {:induction false} MadeStays(s: State, actions: seq<Action>, t: State)
    requires IsRun(s, actions, t)
    ensures |s.made| <= |t.made| && t.made[..|s.made|] == s.made
    decreases |actions|
  {
    if actions != [] {
      MadeStays(Next(s, actions[0]), actions[1..], t);
      assert Next(s, actions[0]).made[..|s.made|] == s.made;
    }
  }

  lemma {:induction false} OfferStays(s: State, actions: seq<Action>, t: State, id: OfferId)
    requires IsRun(s, actions, t) && id in s.offers
    ensures id in t.offers && t.offers[id] == s.offers[id].(status := t.offers[id].status)
    decreases |actions|
  {
    if actions != [] {
      StepNeverReopens(s, actions[0], id);
      OfferStays(Next(s, actions[0]), actions[1..], t, id);
    }
  }

  /** What each of the other steps writes: offers, assignments, and nothing else. */
  lemma OtherStepsWrite(s: State, id: OfferId, offer: Offer, user: User, day: int, shift: Shift)
    ensures Next(s, Post(id, offer)) == s.(offers := s.offers[id := offer])
    ensures id in s.offers ==>
              Next(s, Cancel(id)).offers == s.offers[id := s.offers[id].(status := Cancelled)]
              && Next(s, Cancel(id)).rosters == s.rosters && Next(s, Cancel(id)).made == s.made
    ensures Next(s, ReadForCancel(id)) == s.(cancelling := s.cancelling + {id})
    ensures RosterOf(Next(s, Assign(user, day, shift)), user) == RosterOf(s, user)[day := shift]
    ensures RosterOf(Next(s, Unassign(user, day)), user) == RosterOf(s, user) - {day}
    ensures forall other :: other != user ==>
              && RosterOf(Next(s, Assign(user, day, shift)), other) == RosterOf(s, other)
              && RosterOf(Next(s, Unassign(user, day)), other) == RosterOf(s, other)
  {
  }

  /** Too late: the offer has expired, though nobody has swept it. */
  lemma ExpiredClaimExample()
    ensures var s := START.(offers := map[0 := Offer(10, Shift(480, 960, 11), 100, Open)]);
            && IsRun(START, [Post(0, Offer(10, Shift(480, 960, 11), 100, Open))], s)
            && Next(s, Claim(0, 7, 50, 150, true)) == s && Next(s, Claim(0, 7, 50, 99, true)).made == [(0, 7)]
  {
    var a := [Post(0, Offer(10, Shift(480, 960, 11), 100, Open))];
    var s := Next(START, a[0]);
    assert a[1..] == [] && IsRun(s, [], s);
  }

  /** The unconditional cancel can land on an offer that was claimed after it was read. */
  lemma ClaimedCanBecomeCancelled()
    ensures exists actions, t: State :: IsRun(START, actions, t) && 0 in t.offers
              && t.offers[0].status.Cancelled? && t.made == [(0, 7)]
  {
    var offer := Offer(10, Shift(480, 960, 11), 100, Open);
    var a := [Post(0, offer), ReadForCancel(0), Claim(0, 7, 40, 50, true), Cancel(0)];
    var s1 := Next(START, a[0]);
    var s2 := Next(s1, a[1]);
    var s3 := Next(s2, a[2]);
    var s4 := Next(s3, a[3]);
    assert IsRun(s4, a[1..][1..][1..][1..], s4);
    assert IsRun(s3, a[1..][1..][1..], s4);
    assert IsRun(s2, a[1..][1..], s4);
    assert IsRun(s1, a[1..], s4);
    assert IsRun(START, a, s4);
  }
}
