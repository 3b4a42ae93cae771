/**
 Local wall-clock time to UTC by fixed-point correction (src/routes/calendar-feed.ts).
 A zone is its offset function: the local reading of instant `g` is `g + offset(g)`.
 Readings carry whole minutes, so instants and offsets are counted in minutes.
 */
module CalendarClock {

  type Zone = int -> int

  function Local(zone: Zone, instant: int): int { instant + zone(instant) }

  /** The bounded loop of the feed: at most three corrections, stopping when one is zero. */
  method LocalToUtc(zone: Zone, target: int) returns (guess: int)
    ensures guess == Third(zone, target)
  {
    guess := target;
    var i := 0;
    while i < 3
      invariant 0 <= i <= 3
      invariant guess == Corrected(zone, target, i)
    {
      var delta := target - Local(zone, guess);
      if delta == 0 {
        FixedStays(zone, target, i, 3);
        break;
      }
      guess := guess + delta;
      i := i + 1;
    }
  }

  /** `n` corrections without stopping. */
  function Corrected(zone: Zone, target: int, n: nat): int {
    if n == 0 then target else target - zone(Corrected(zone, target, n - 1))
  }

  function Third(zone: Zone, target: int): int { Corrected(zone, target, 3) }

  lemma {:induction false} FixedStays(zone: Zone, target: int, i: nat, n: nat)
    requires i <= n && Local(zone, Corrected(zone, target, i)) == target
    ensures Corrected(zone, target, n) == Corrected(zone, target, i)
    decreases n - i
  {
    if i < n {
      assert Corrected(zone, target, i + 1) == Corrected(zone, target, i);
      FixedStays(zone, target, i + 1, n);
    }
  }

  /** Around the target the offset is one of two values, as around a single clock change. */
  predicate TwoOffsets(zone: Zone, target: int, a: int, b: int) {
    && (zone(target) == a || zone(target) == b)
    && (zone(target - a) == a || zone(target - a) == b)
    && (zone(target - b) == a || zone(target - b) == b)
  }

  /** Some instant with one of the two offsets reads as the requested time. */
  ghost predicate Exists(zone: Zone, target: int, a: int, b: int) {
    exists g :: Local(zone, g) == target && (zone(g) == a || zone(g) == b)
  }

  lemma ExistsIff(zone: Zone, target: int, a: int, b: int)
    ensures Exists(zone, target, a, b) <==> zone(target - a) == a || zone(target - b) == b
  {
    if zone(target - a) == a {
      assert Local(zone, target - a) == target;
    }
    if zone(target - b) == b {
      assert Local(zone, target - b) == target;
    }
  }

  function Abs(x: int): int { if x < 0 then -x else x }

  /**
   Three corrections find the requested time whenever it exists, and only then; a time
   skipped by the clock change is missed by exactly the size of the change.
   */
  lemma ThreeRoundsSuffice(zone: Zone, target: int, a: int, b: int)
    requires TwoOffsets(zone, target, a, b)
    ensures Local(zone, Third(zone, target)) == target <==> Exists(zone, target, a, b)
    ensures !Exists(zone, target, a, b) ==> Abs(Local(zone, Third(zone, target)) - target) == Abs(a - b) != 0
    ensures Third(zone, target) == target - a || Third(zone, target) == target - b
  {
    ExistsIff(zone, target, a, b);
    assert Corrected(zone, target, 0) == target;
    var g1 := Corrected(zone, target, 1);
    var g2 := Corrected(zone, target, 2);
    assert g1 == target - zone(target);
    assert g2 == target - zone(g1);
    assert Third(zone, target) == target - zone(g2);
  }

  /** One correction is not enough: on this zone the requested time exists and the first guess misses it. */
  lemma OneRoundMisses()
    ensures exists zone: Zone, target: int ::
              TwoOffsets(zone, target, 60, 120) && Exists(zone, target, 60, 120)
              && Local(zone, Corrected(zone, target, 1)) != target
  {
    var zone: Zone := (g: int) => if g < 100 then 60 else 120;
    assert zone(150) == 120 && zone(30) == 60 && zone(90) == 60;
    ExistsIff(zone, 150, 60, 120);
    assert Corrected(zone, 150, 0) == 150;
    assert Corrected(zone, 150, 1) == 30;
  }

  // ---------------------------------------------------------------------------
  // The offset a time is resolved with

  /** Three lookups of the zone: the offset that the result of the loop has subtracted. */
  function Chosen(zone: Zone, target: int): int { zone(target - zone(target - zone(target))) }

  lemma ThirdUsesChosen(zone: Zone, target: int)
    ensures Third(zone, target) == target - Chosen(zone, target)
  {
    assert Corrected(zone, target, 0) == target;
    assert Corrected(zone, target, 1) == target - zone(target);
    assert Corrected(zone, target, 2) == target - zone(target - zone(target));
  }

  /**
   The first offset looked up is kept unless it reads wrong and the other one reads right; so
   times that exist in neither offset, and times that exist in both, keep the first.
   */
  lemma ChosenIs(zone: Zone, target: int, a: int, b: int)
    requires TwoOffsets(zone, target, a, b)
    ensures Chosen(zone, target) == a || Chosen(zone, target) == b
    ensures Chosen(zone, target) != zone(target) <==>
            zone(target - zone(target)) != zone(target) && Exists(zone, target, a, b)
  {
    ExistsIff(zone, target, a, b);
  }

  // ---------------------------------------------------------------------------
  // The end of an overnight shift

  const DAY_MINUTES := 1440

  /** Minutes of the local readings: start, end on the same day, end on the next day. */
  datatype Shift = Shift(day: int, start: int, end: int) {
    function StartAt(): int { day * DAY_MINUTES + start }
    function EndAt(): int { day * DAY_MINUTES + end }
    function NextEndAt(): int { (day + 1) * DAY_MINUTES + end }
    /** Both times are clock times of a day. */
    predicate OnClock() { 0 <= start < DAY_MINUTES && 0 <= end < DAY_MINUTES }
  }

  /** Clock times with one clock change, between offsets `low` and `high`, in reach of the three readings. */
  predicate OneChange(zone: Zone, s: Shift, low: int, high: int) {
    && s.OnClock() && low <= high
    && TwoOffsets(zone, s.StartAt(), low, high)
    && TwoOffsets(zone, s.EndAt(), low, high)
    && TwoOffsets(zone, s.NextEndAt(), low, high)
  }

  /** The start is resolved with the lower offset and the other reading with the higher one. */
  predicate Climbs(zone: Zone, from: int, to: int, low: int, high: int) {
    Chosen(zone, from) == low && Chosen(zone, to) == high
  }

  /** The end moves to the next day although its clock time is later. */
  predicate MovesWrongly(zone: Zone, s: Shift, low: int, high: int) {
    s.end - s.start <= high - low && Climbs(zone, s.StartAt(), s.EndAt(), low, high)
  }

  /** The end stays on the day although its clock time is not later. */
  predicate StaysWrongly(zone: Zone, s: Shift, low: int, high: int) {
    s.start - s.end < high - low && Climbs(zone, s.EndAt(), s.StartAt(), low, high)
  }

  /** Even the end on the next day is not after the start. */
  predicate EndsEarly(zone: Zone, s: Shift, low: int, high: int) {
    s.end + DAY_MINUTES - s.start <= high - low && Climbs(zone, s.StartAt(), s.NextEndAt(), low, high)
  }

  /** What the offsets, looked up beforehand, say about an event. */
  predicate OffsetsTell(zone: Zone, s: Shift, low: int, high: int, start: int, end: int, nextDay: bool) {
    && (s.start < s.end ==> (nextDay <==> MovesWrongly(zone, s, low, high)))
    && (s.end <= s.start ==> (!nextDay <==> StaysWrongly(zone, s, low, high)))
    && (end - start > 0 <==> !(nextDay && EndsEarly(zone, s, low, high)))
  }

  /**
   Start and end of an event; an end that is not later is taken on the next day. The length is
   the one on the clock less the change of offset, and around a clock change the offsets decide
   when the end moves or stays against its clock time and when the event has positive length.
   */
  method EventTimes(zone: Zone, s: Shift) returns (start: int, end: int, nextDay: bool)
    ensures IsEvent(zone, s, start, end, nextDay)
    ensures nextDay <==> s.end - s.start <= Chosen(zone, s.EndAt()) - Chosen(zone, s.StartAt())
    ensures var resolved := if nextDay then s.NextEndAt() else s.EndAt();
            end - start == resolved - s.StartAt() - (Chosen(zone, resolved) - Chosen(zone, s.StartAt()))
    ensures forall low, high :: OneChange(zone, s, low, high) ==> OffsetsTell(zone, s, low, high, start, end, nextDay)
    ensures forall change: int, before, after :: s.OnClock() && Transition(zone, change, before, after) ==>
              ReadingsTell(change, before, after, s, start, end, nextDay)
  {
    start := LocalToUtc(zone, s.StartAt());
    end := LocalToUtc(zone, s.EndAt());
    nextDay := end <= start;
    if nextDay {
      end := LocalToUtc(zone, s.NextEndAt());
    }
    EventLength(zone, s, start, end, nextDay);
    forall low, high | OneChange(zone, s, low, high)
      ensures OffsetsTell(zone, s, low, high, start, end, nextDay)
    {
      EventByOffsets(zone, s, start, end, nextDay, low, high);
    }
    forall change: int, before, after | s.OnClock() && Transition(zone, change, before, after)
      ensures ReadingsTell(change, before, after, s, start, end, nextDay)
    {
      EventByReadings(zone, change, before, after, s, start, end, nextDay);
    }
  }

  lemma EventLength(zone: Zone, s: Shift, start: int, end: int, nextDay: bool)
    requires IsEvent(zone, s, start, end, nextDay)
    ensures nextDay <==> s.end - s.start <= Chosen(zone, s.EndAt()) - Chosen(zone, s.StartAt())
    ensures var resolved := if nextDay then s.NextEndAt() else s.EndAt();
            end - start == resolved - s.StartAt() - (Chosen(zone, resolved) - Chosen(zone, s.StartAt()))
  {
    ThirdUsesChosen(zone, s.StartAt());
    ThirdUsesChosen(zone, s.EndAt());
    ThirdUsesChosen(zone, s.NextEndAt());
  }

  lemma EventByOffsets(zone: Zone, s: Shift, start: int, end: int, nextDay: bool, low: int, high: int)
    requires IsEvent(zone, s, start, end, nextDay) && OneChange(zone, s, low, high)
    ensures OffsetsTell(zone, s, low, high, start, end, nextDay)
  {
    EventLength(zone, s, start, end, nextDay);
    ChosenIs(zone, s.StartAt(), low, high);
    ChosenIs(zone, s.EndAt(), low, high);
    ChosenIs(zone, s.NextEndAt(), low, high);
  }

  /** The event the feed writes, by the instants its readings are resolved to. */
  predicate IsEvent(zone: Zone, s: Shift, start: int, end: int, nextDay: bool) {
    && start == Third(zone, s.StartAt())
    && (nextDay <==> Third(zone, s.EndAt()) <= start)
    && end == Third(zone, if nextDay then s.NextEndAt() else s.EndAt())
  }

  // ---------------------------------------------------------------------------
  // Zones with a clock change: events are right unless a reading is skipped

  /** The offset is `before` up to the instant `change` and `after` from it on. */
  ghost predicate Transition(zone: Zone, change: int, before: int, after: int) {
    forall g :: zone(g) == if g < change then before else after
  }

  ghost predicate Readable(zone: Zone, target: int) { exists g :: Local(zone, g) == target }

  lemma ReadableIff(zone: Zone, change: int, before: int, after: int, target: int)
    requires Transition(zone, change, before, after)
    ensures TwoOffsets(zone, target, before, after)
    ensures Readable(zone, target) <==> target - before < change || change <= target - after
    ensures Readable(zone, target) <==> Exists(zone, target, before, after)
  {
    ExistsIff(zone, target, before, after);
    if target - before < change {
      assert Local(zone, target - before) == target;
    }
    if change <= target - after {
      assert Local(zone, target - after) == target;
    }
  }

  /** Readings that exist are resolved in order, also where the clock repeats an hour. */
  lemma ReadableKeepsOrder(zone: Zone, change: int, before: int, after: int, first: int, second: int)
    requires Transition(zone, change, before, after)
    requires Readable(zone, first) && Readable(zone, second) && first < second
    ensures Third(zone, first) < Third(zone, second)
  {
    ReadableIff(zone, change, before, after, first);
    ReadableIff(zone, change, before, after, second);
    ThirdUsesChosen(zone, first);
    ThirdUsesChosen(zone, second);
  }

  /** The clock jumps over this reading. */
  predicate Skipped(change: int, before: int, after: int, target: int) {
    target - after < change <= target - before
  }

  lemma SkippedIff(zone: Zone, change: int, before: int, after: int, target: int)
    requires Transition(zone, change, before, after)
    ensures Skipped(change, before, after, target) <==> !Readable(zone, target)
  {
    ReadableIff(zone, change, before, after, target);
  }

  /**
   The first of two readings is resolved with the old offset and the second with the new one, and
   at least one of them is skipped: a skipped reading below the instant of the change takes the old
   offset, any other the new one.
   */
  predicate Crosses(change: int, before: int, after: int, first: int, second: int) {
    || (Skipped(change, before, after, first) && first < change
        && (change <= second - after || (Skipped(change, before, after, second) && change <= second)))
    || (first - before < change && Skipped(change, before, after, second) && change <= second)
  }

  /** The later of two close readings is resolved no later exactly if they cross a jump forward. */
  lemma CrossesIff(zone: Zone, change: int, before: int, after: int, first: int, second: int)
    requires Transition(zone, change, before, after) && first < second
    ensures Third(zone, second) <= Third(zone, first) <==>
            second - first <= after - before && Crosses(change, before, after, first, second)
  {
    ThirdUsesChosen(zone, first);
    ThirdUsesChosen(zone, second);
  }

  /** What the readings and the instant of the change say about an event. */
  predicate ReadingsTell(change: int, before: int, after: int, s: Shift, start: int, end: int, nextDay: bool) {
    var jump := after - before;
    && (s.start < s.end ==>
          (nextDay <==> s.end - s.start <= jump && Crosses(change, before, after, s.StartAt(), s.EndAt())))
    && (s.end <= s.start ==>
          (!nextDay <==> s.start - s.end < jump && Crosses(change, before, after, s.EndAt(), s.StartAt())))
    && (end - start > 0 <==>
          !(nextDay && s.end + DAY_MINUTES - s.start <= jump
              && Crosses(change, before, after, s.StartAt(), s.NextEndAt())))
  }

  lemma EventByReadings(zone: Zone, change: int, before: int, after: int, s: Shift, start: int, end: int, nextDay: bool)
    requires Transition(zone, change, before, after) && s.OnClock() && IsEvent(zone, s, start, end, nextDay)
    ensures ReadingsTell(change, before, after, s, start, end, nextDay)
  {
    CrossesIff(zone, change, before, after, s.StartAt(), s.NextEndAt());
    if s.start < s.end {
      CrossesIff(zone, change, before, after, s.StartAt(), s.EndAt());
    } else if s.end < s.start {
      CrossesIff(zone, change, before, after, s.EndAt(), s.StartAt());
    }
  }

  /**
   If the readings of a shift exist, the end is on the next day exactly when its clock time is
   not later, the event has positive length, and both instants read as written.
   */
  lemma EventIsWallClock(zone: Zone, change: int, before: int, after: int, s: Shift, start: int, end: int,
                         nextDay: bool)
    requires Transition(zone, change, before, after) && s.OnClock()
    requires Readable(zone, s.StartAt()) && Readable(zone, s.EndAt())
    requires s.end <= s.start ==> Readable(zone, s.NextEndAt())
    requires IsEvent(zone, s, start, end, nextDay)
    ensures nextDay <==> s.end <= s.start
    ensures start < end
    ensures Local(zone, start) == s.StartAt() && Local(zone, end) == if nextDay then s.NextEndAt() else s.EndAt()
  {
    if s.start < s.end {
      ReadableKeepsOrder(zone, change, before, after, s.StartAt(), s.EndAt());
    } else {
      ReadableKeepsOrder(zone, change, before, after, s.StartAt(), s.NextEndAt());
      if s.end < s.start {
        ReadableKeepsOrder(zone, change, before, after, s.EndAt(), s.StartAt());
      }
    }
    ReadableIff(zone, change, before, after, s.StartAt());
    ReadableIff(zone, change, before, after, s.EndAt());
    ReadableIff(zone, change, before, after, s.NextEndAt());
    ThreeRoundsSuffice(zone, s.StartAt(), before, after);
    ThreeRoundsSuffice(zone, s.EndAt(), before, after);
    ThreeRoundsSuffice(zone, s.NextEndAt(), before, after);
  }

  /** Spring forward at 02:00 from five to four hours behind UTC: 02:30 to 03:00 becomes 23.5 hours. */
  lemma SkippedStartExample()
    ensures var zone: Zone := (g: int) => if g < 420 then -300 else -240;
            && OneChange(zone, Shift(0, 150, 180), -300, -240)
            && IsEvent(zone, Shift(0, 150, 180), 450, 1860, true)
  {
    var zone: Zone := (g: int) => if g < 420 then -300 else -240;
    ThirdUsesChosen(zone, 150);
    ThirdUsesChosen(zone, 180);
    ThirdUsesChosen(zone, 1620);
  }

  /** Spring forward at midnight from two to three hours ahead: 23:45 to 00:30 ends before it starts. */
  lemma SkippedEndExample()
    ensures var zone: Zone := (g: int) => if g < 1320 then 120 else 180;
            && OneChange(zone, Shift(0, 1425, 30), 120, 180)
            && IsEvent(zone, Shift(0, 1425, 30), 1305, 1290, true)
  {
    var zone: Zone := (g: int) => if g < 1320 then 120 else 180;
    ThirdUsesChosen(zone, 1425);
    ThirdUsesChosen(zone, 30);
    ThirdUsesChosen(zone, 1470);
  }
}
