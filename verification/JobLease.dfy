/**
 The Redis lease of a scheduled job (src/jobs/scheduler.ts): acquire with SET NX PX, renew
 and delete by token. Each command is one step; tokens are never reused; time may pass and
 processes may crash between any two steps.
 */
module JobLease {
  import opened Optional

  type Token = nat

  const TTL_MS := 15 * 60_000

  datatype Lease = Lease(token: Token, expires: int)

  /** A cron firing that acquired the lease: running its handler, about to release, or gone. */
  datatype Phase = Working | Finishing | Gone
  datatype Run = Run(phase: Phase, renewed: int)

  datatype State = State(key: Option<Lease>, runs: map<Token, Run>, now: int) {
    /** Redis drops a key once its expiry has passed. */
    predicate Live() { key.Some? && now < key.value.expires }
    predicate HeldBy(t: Token) { Live() && key.value.token == t }
    /** More than the TTL since the last renewal that took effect. */
    predicate Lapsed(t: Token) requires t in runs { runs[t].renewed + TTL_MS <= now }
    predicate Works(t: Token) { t in runs && runs[t].phase.Working? }
  }

  datatype Action =
    | Tick(to: int)
    | Acquire(t: Token)
    | Renew(t: Token)
    | Finish(t: Token)
    | Release(t: Token)
    | Crash(t: Token)

  predicate Enabled(s: State, a: Action) {
    match a
    case Tick(to) => s.now <= to
    case Acquire(t) => t !in s.runs
    case Renew(t) => t in s.runs
    case Finish(t) => s.Works(t)
    case Release(t) => t in s.runs && s.runs[t].phase.Finishing?
    case Crash(t) => t in s.runs
  }

  function Next(s: State, a: Action): State
    requires Enabled(s, a)
  {
    match a
    case Tick(to) => s.(now := to)
    case Acquire(t) =>
      if s.Live() then s
      else s.(key := Some(Lease(t, s.now + TTL_MS)), runs := s.runs[t := Run(Working, s.now)])
    case Renew(t) =>
      // the script compares the token before it extends; a late renewal may arrive in any phase
      if !s.HeldBy(t) then s
      else s.(key := Some(Lease(t, s.now + TTL_MS)), runs := s.runs[t := s.runs[t].(renewed := s.now)])
    case Finish(t) => s.(runs := s.runs[t := s.runs[t].(phase := Finishing)])
    case Release(t) =>
      // the script compares the token before it deletes
      s.(key := if s.HeldBy(t) then None else s.key, runs := s.runs[t := s.runs[t].(phase := Gone)])
    case Crash(t) => s.(runs := s.runs[t := s.runs[t].(phase := Gone)])
  }

  ghost predicate Inv(s: State) {
    && (s.key.Some? ==>
          s.key.value.token in s.runs && s.key.value.expires == s.runs[s.key.value.token].renewed + TTL_MS)
    && (forall t :: t in s.runs && !s.runs[t].phase.Gone? && !s.Lapsed(t) ==> s.HeldBy(t))
    && (forall t :: t in s.runs ==> s.runs[t].renewed <= s.now)
  }

  lemma StepKeepsInv(s: State, a: Action)
    requires Inv(s) && Enabled(s, a)
    ensures Inv(Next(s, a))
  {
  }

  /** Once lapsed, a holder is out for good: no step revives its lease or lets it take the key again. */
  lemma LapsedStepStays(s: State, a: Action, t: Token)
    requires Inv(s) && Enabled(s, a) && t in s.runs && s.Lapsed(t)
    ensures t in Next(s, a).runs && Next(s, a).Lapsed(t) && !Next(s, a).HeldBy(t)
  {
  }

  /** A firing starts exactly when no live lease exists, and a release by the holder lets the next one start. */
  lemma AcquireIff(s: State, t: Token)
    requires Inv(s) && Enabled(s, Acquire(t))
    ensures Next(s, Acquire(t)).Works(t) <==> !s.Live()
    ensures Next(s, Acquire(t)).Works(t) ==> Next(s, Acquire(t)).HeldBy(t)
  {
  }

  lemma ReleaseFrees(s: State, t: Token, next: Token)
    requires Inv(s) && Enabled(s, Release(t)) && s.HeldBy(t) && next !in s.runs
    ensures var freed := Next(s, Release(t));
            && Enabled(freed, Acquire(next)) && Next(freed, Acquire(next)).Works(next)
            && Next(freed, Acquire(next)).HeldBy(next)
  {
    StepKeepsInv(s, Release(t));
    AcquireIff(Next(s, Release(t)), next);
  }

  ghost predicate IsRun(s: State, actions: seq<Action>, e: State)
    decreases |actions|
  {
    if actions == [] then s == e
    else Enabled(s, actions[0]) && IsRun(Next(s, actions[0]), actions[1..], e)
  }

  lemma {:induction false} RunKeepsInv(s: State, actions: seq<Action>, e: State)
    requires Inv(s) && IsRun(s, actions, e)
    ensures Inv(e)
    decreases |actions|
  {
    if actions != [] {
      StepKeepsInv(s, actions[0]);
      RunKeepsInv(Next(s, actions[0]), actions[1..], e);
    }
  }

  /** Once its lease has lapsed, no renewal or release of a run, however late, changes the key again. */
  lemma {:induction false} LapsedStays(s: State, actions: seq<Action>, e: State, t: Token)
    requires Inv(s) && IsRun(s, actions, e) && t in s.runs && s.Lapsed(t)
    ensures t in e.runs && e.Lapsed(t) && !e.HeldBy(t)
    ensures forall a :: (a == Renew(t) || a == Release(t)) && Enabled(e, a) ==> Next(e, a).key == e.key
    decreases |actions|
  {
    if actions != [] {
      StepKeepsInv(s, actions[0]);
      LapsedStepStays(s, actions[0], t);
      LapsedStays(Next(s, actions[0]), actions[1..], e, t);
    }
  }

  lemma HeldStep(s: State, a: Action, t: Token)
    requires Inv(s) && Enabled(s, a) && s.HeldBy(t) && a != Release(t) && Next(s, a).now < s.key.value.expires
    ensures Next(s, a).HeldBy(t) && Next(s, a).key.value.expires >= s.key.value.expires
  {
  }

  /** A live lease stays with its holder until it expires or the holder gives it back. */
  lemma {:induction false} HeldStays(s: State, actions: seq<Action>, e: State, t: Token)
    requires Inv(s) && IsRun(s, actions, e) && s.HeldBy(t) && e.now < s.key.value.expires
    requires forall i :: 0 <= i < |actions| ==> actions[i] != Release(t)
    ensures e.HeldBy(t)
    decreases |actions|
  {
    if actions != [] {
      TimeAdvances(Next(s, actions[0]), actions[1..], e);
      HeldStep(s, actions[0], t);
      StepKeepsInv(s, actions[0]);
      assert forall i :: 0 <= i < |actions| - 1 ==> actions[1..][i] == actions[i + 1];
      HeldStays(Next(s, actions[0]), actions[1..], e, t);
    }
  }

  lemma {:induction false} TimeAdvances(s: State, actions: seq<Action>, e: State)
    requires IsRun(s, actions, e)
    ensures s.now <= e.now
    decreases |actions|
  {
    if actions != [] {
      TimeAdvances(Next(s, actions[0]), actions[1..], e);
    }
  }

  /** Acquiring a free lease, or renewing a held one, holds it for 15 minutes through any run without a release. */
  lemma HeldForTtl(s: State, a: Action, t: Token, actions: seq<Action>, e: State)
    requires Inv(s) && Enabled(s, a) && IsRun(Next(s, a), actions, e)
    requires (a == Acquire(t) && !s.Live()) || (a == Renew(t) && s.HeldBy(t))
    requires forall i :: 0 <= i < |actions| ==> actions[i] != Release(t)
    requires e.now < s.now + 900_000
    ensures e.HeldBy(t)
  {
    StepKeepsInv(s, a);
    HeldStays(Next(s, a), actions, e, t);
  }

  /** Without a renewal it is over after that time: the next firing starts. */
  lemma FreeAfterTtl(s: State, t: Token, next: Token, later: int)
    requires Inv(s) && t !in s.runs && !s.Live() && next !in s.runs && next != t && s.now + 900_000 <= later
    ensures exists e :: IsRun(s, [Acquire(t), Tick(later), Acquire(next)], e) && e.Works(next) && e.HeldBy(next)
  {
    var a := [Acquire(t), Tick(later), Acquire(next)];
    var s1 := Next(s, a[0]);
    var s2 := Next(s1, a[1]);
    var s3 := Next(s2, a[2]);
    assert a[1..] == [Tick(later), Acquire(next)] && a[1..][1..] == [Acquire(next)] && a[1..][1..][1..] == [];
    assert IsRun(s3, [], s3);
    assert IsRun(s2, a[1..][1..], s3);
    assert IsRun(s1, a[1..], s3);
    assert IsRun(s, a, s3);
  }

  /** A firing that gets the lease, works and finishes leaves it free. */
  lemma FiringLeavesFree(s: State, t: Token)
    requires Inv(s) && t !in s.runs && !s.Live()
    ensures exists e :: IsRun(s, [Acquire(t), Finish(t), Release(t)], e) && !e.Live() && e.now == s.now
              && t in e.runs && e.runs[t].phase.Gone?
  {
    var a := [Acquire(t), Finish(t), Release(t)];
    var s1 := Next(s, a[0]);
    var s2 := Next(s1, a[1]);
    var s3 := Next(s2, a[2]);
    assert a[1..] == [Finish(t), Release(t)] && a[1..][1..] == [Release(t)] && a[1..][1..][1..] == [];
    assert IsRun(s3, [], s3);
    assert IsRun(s2, a[1..][1..], s3);
    assert IsRun(s1, a[1..], s3);
    assert IsRun(s, a, s3);
  }

  /** A crashed handler works no longer, and its lease blocks the next firing until it runs out. */
  lemma CrashKeepsLease(s: State, t: Token, next: Token)
    requires Inv(s) && s.HeldBy(t) && next !in s.runs
    ensures var crashed := Next(s, Crash(t));
            && !crashed.Works(t) && crashed.HeldBy(t) && crashed.key == s.key
            && !Next(crashed, Acquire(next)).Works(next)
            && forall later :: s.key.value.expires <= later ==>
                 Next(Next(crashed, Tick(later)), Acquire(next)).Works(next)
  {
    StepKeepsInv(s, Crash(t));
  }

  const START := State(None, map[], 0)

  /** Two handlers can only run together if one of them has let its lease lapse. */
  lemma OverlapNeedsLapse(actions: seq<Action>, e: State, t: Token, u: Token)
    requires IsRun(START, actions, e) && e.Works(t) && e.Works(u) && t != u
    ensures e.Lapsed(t) || e.Lapsed(u)
  {
    RunKeepsInv(START, actions, e);
  }

  /** If every renewal lands within the TTL, at most one handler of the job runs at any time. */
  lemma TimelyRenewalsExclude(actions: seq<Action>, e: State)
    requires IsRun(START, actions, e) && forall t :: e.Works(t) ==> !e.Lapsed(t)
    ensures forall t, u :: e.Works(t) && e.Works(u) ==> t == u
  {
    forall t, u | e.Works(t) && e.Works(u)
      ensures t == u
    {
      if t != u {
        OverlapNeedsLapse(actions, e, t, u);
      }
    }
  }

  /** The condition is needed: after a missed renewal a second firing starts beside the first. */
  lemma MissedRenewalOverlaps()
    ensures exists actions, e: State :: IsRun(START, actions, e) && e.Works(1) && e.Works(2)
  {
    var a := [Acquire(1), Tick(TTL_MS), Acquire(2)];
    var s1 := Next(START, a[0]);
    var s2 := Next(s1, a[1]);
    var s3 := Next(s2, a[2]);
    assert IsRun(s3, a[1..][1..][1..], s3);
    assert IsRun(s2, a[1..][1..], s3);
    assert IsRun(s1, a[1..], s3);
    assert IsRun(START, a, s3);
  }
}
