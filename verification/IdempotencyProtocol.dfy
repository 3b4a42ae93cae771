/**
 The life of one idempotency key of one actor (src/middleware/idempotency.ts): concurrent
 requests look up, expire, mark stale, claim, run, complete, replay or are refused, in any
 interleaving of their database statements. Each statement is one step; the clock, crashes
 and failing statements are steps or step parameters.
 */
module IdempotencyProtocol {
  import opened Optional

  type RequestId = nat
  type RecordId = nat
  type Hash = nat

  const RETENTION_MS := 24 * 60 * 60 * 1000
  const STALE_MS := 5 * 60_000

  datatype Response = Response(status: int, body: int) {
    predicate Success() { 200 <= status < 300 }
    /** Neither a success nor a server error: the claim is deleted so that the key can be retried. */
    predicate Releases() { !Success() && status < 500 }
  }

  datatype RecordState = Processing | Unknown | Completed(response: Response)
  datatype Record = Record(id: RecordId, hash: Hash, state: RecordState, touched: int, expires: int)

  /** The conflict a client is told about; `Failed` stands for an error or a crash. */
  datatype Reason = KeyReused | OutcomeUnknown | InProgress | Failed

  datatype Phase =
    | Arrived
    | Looked(seen: Option<Record>)
    | Dropping(id: RecordId)
    | Fresh(seen: Option<Record>)
    | Marking(stale: Record)
    | Rereading
    | Deciding(seen: Option<Record>)
    | Creating
    | Collided
    | Running(id: RecordId)
    | Falling(id: RecordId, response: Response)
    | Answered(id: RecordId)
    | Lost(id: RecordId)
    | Replayed(id: RecordId, response: Response)
    | Refused(reason: Reason)

  datatype Request = Request(hash: Hash, expires: int, phase: Phase)

  /** History of a claim: who created the record, and what its run sent back. */
  datatype Claim = Claim(owner: RequestId, hash: Hash, expires: int, answer: Option<Response>) {
    /** The claim can no longer be counted on: it expired, or its own run gave it up. */
    predicate Over(now: int) { expires <= now || (answer.Some? && answer.value.Releases()) }
  }

  datatype State = State(
    record: Option<Record>,
    claims: map<RecordId, Claim>,
    requests: map<RequestId, Request>,
    now: int)

  datatype Action =
    | Tick(to: int)
    | Arrive(q: RequestId, hash: Hash)
    | LookUp(q: RequestId)
    | TestExpiry(q: RequestId)
    | DropExpired(q: RequestId)
    | TestStale(q: RequestId)
    | MarkStale(q: RequestId)
    | Reread(q: RequestId)
    | Decide(q: RequestId)
    | Create(q: RequestId, id: RecordId)
    | ReadWinner(q: RequestId)
    | Send(q: RequestId, response: Response, storable: bool, dbFails: bool)
    | FallBack(q: RequestId, dbFails: bool)
    | Crash(q: RequestId)
    | Purge

  // ---------------------------------------------------------------------------
  // Statements

  function With(s: State, q: RequestId, phase: Phase): State
    requires q in s.requests
  {
    s.(requests := s.requests[q := s.requests[q].(phase := phase)])
  }

  predicate Holds(s: State, id: RecordId) {
    s.record.Some? && s.record.value.id == id
  }

  /** `updateMany({ where: { id, state: 'processing' }, data: { state: 'unknown' } })` */
  function ToUnknown(s: State, id: RecordId): Option<Record> {
    if Holds(s, id) && s.record.value.state.Processing?
    then Some(s.record.value.(state := Unknown, touched := s.now))
    else s.record
  }

  /** What a request does with the record it has in hand (lines 87-95 and 101-111). */
  function Outcome(hash: Hash, r: Record): Phase {
    if r.hash != hash then Refused(KeyReused)
    else
      match r.state
      case Unknown => Refused(OutcomeUnknown)
      case Processing => Refused(InProgress)
      case Completed(response) => Replayed(r.id, response)
  }

  function Answer(s: State, id: RecordId, response: Response): map<RecordId, Claim>
    requires id in s.claims
  {
    s.claims[id := s.claims[id].(answer := Some(response))]
  }

  /** The replaced `res.send`: status decides between delete, unknown and completed. */
  function AfterSend(s: State, q: RequestId, response: Response, storable: bool, dbFails: bool): State
    requires q in s.requests && s.requests[q].phase.Running? && s.requests[q].phase.id in s.claims
  {
    var id := s.requests[q].phase.id;
    var told := s.(claims := Answer(s, id, response));
    if response.Releases() then
      With(told, q, Answered(id)).(record :=
        if !dbFails && Holds(s, id) && s.record.value.state.Processing? then None else s.record)
    else if !response.Success() || !storable then
      With(told, q, Answered(id)).(record := if dbFails then s.record else ToUnknown(s, id))
    else if dbFails || !Holds(s, id) then
      With(told, q, Falling(id, response))
    else
      With(told, q, Answered(id)).(record :=
        Some(s.record.value.(state := Completed(response), touched := s.now, expires := s.requests[q].expires)))
  }

  predicate Before(s: State, q: RequestId, test: Phase -> bool) {
    q in s.requests && test(s.requests[q].phase)
  }

  predicate Enabled(s: State, a: Action) {
    match a
    case Tick(to) => to >= s.now
    case Arrive(q, _) => q !in s.requests
    case LookUp(q) => Before(s, q, (p: Phase) => p.Arrived?)
    case TestExpiry(q) => Before(s, q, (p: Phase) => p.Looked?)
    case DropExpired(q) => Before(s, q, (p: Phase) => p.Dropping?)
    case TestStale(q) => Before(s, q, (p: Phase) => p.Fresh?)
    case MarkStale(q) => Before(s, q, (p: Phase) => p.Marking?)
    case Reread(q) => Before(s, q, (p: Phase) => p.Rereading?)
    case Decide(q) => Before(s, q, (p: Phase) => p.Deciding?)
    case Create(q, id) => Before(s, q, (p: Phase) => p.Creating?) && id !in s.claims
    case ReadWinner(q) => Before(s, q, (p: Phase) => p.Collided?)
    case Send(q, _, _, _) => Before(s, q, (p: Phase) => p.Running?) && s.requests[q].phase.id in s.claims
    case FallBack(q, _) => Before(s, q, (p: Phase) => p.Falling?)
    case Crash(q) => q in s.requests
    case Purge => true
  }

  function Next(s: State, a: Action): State
    requires Enabled(s, a)
  {
    match a
    case Tick(to) => s.(now := to)
    case Arrive(q, hash) =>
      s.(requests := s.requests[q := Request(hash, s.now + RETENTION_MS, Arrived)])
    case LookUp(q) => With(s, q, Looked(s.record))
    case TestExpiry(q) =>
      var seen := s.requests[q].phase.seen;
      if seen.Some? && seen.value.expires <= s.now then With(s, q, Dropping(seen.value.id)) else With(s, q, Fresh(seen))
    case DropExpired(q) =>
      // deleting a row that is already gone is an error
      if Holds(s, s.requests[q].phase.id) then With(s, q, Creating).(record := None) else With(s, q, Refused(Failed))
    case TestStale(q) =>
      var seen := s.requests[q].phase.seen;
      if seen.Some? && seen.value.state.Processing? && seen.value.touched < s.now - STALE_MS
      then With(s, q, Marking(seen.value)) else With(s, q, Deciding(seen))
    case MarkStale(q) =>
      var seen := s.requests[q].phase.stale;
      var hit := Holds(s, seen.id) && s.record.value.touched == seen.touched;
      With(s, q, Rereading).(record := if hit then ToUnknown(s, seen.id) else s.record)
    case Reread(q) => With(s, q, Deciding(s.record))
    case Decide(q) =>
      var seen := s.requests[q].phase.seen;
      With(s, q, if seen.None? then Creating else Outcome(s.requests[q].hash, seen.value))
    case Create(q, id) =>
      if s.record.Some? then With(s, q, Collided)
      else
        var r := s.requests[q];
        With(s, q, Running(id)).(
          record := Some(Record(id, r.hash, Processing, s.now, r.expires)),
          claims := s.claims[id := Claim(q, r.hash, r.expires, None)])
    case ReadWinner(q) =>
      With(s, q, if s.record.None? then Refused(Failed) else Outcome(s.requests[q].hash, s.record.value))
    case Send(q, response, storable, dbFails) => AfterSend(s, q, response, storable, dbFails)
    case FallBack(q, dbFails) =>
      var id := s.requests[q].phase.id;
      With(s, q, Answered(id)).(record := if dbFails then s.record else ToUnknown(s, id))
    case Crash(q) =>
      var p := s.requests[q].phase;
      if p.Running? || p.Falling? then With(s, q, Lost(p.id))
      else if p.Answered? || p.Lost? || p.Replayed? then s
      else With(s, q, Refused(Failed))
    case Purge =>
      if s.record.Some? && s.record.value.expires < s.now then s.(record := None) else s
  }

  // ---------------------------------------------------------------------------
  // Invariant

  /** A record, stored or remembered, never contradicts the history of its claim. */
  predicate Faithful(s: State, r: Record) {
    && r.id in s.claims
    && r.hash == s.claims[r.id].hash
    && r.expires == s.claims[r.id].expires
    && (r.state.Completed? ==> r.state.response.Success() && s.claims[r.id].answer == Some(r.state.response))
  }

  /** The request whose handler was admitted for claim `id`. */
  predicate Ran(p: Phase, id: RecordId) {
    (p.Running? || p.Falling? || p.Answered? || p.Lost?) && p.id == id
  }

  predicate PhaseOk(s: State, q: RequestId)
    requires q in s.requests
  {
    var r := s.requests[q];
    match r.phase
    case Looked(seen) => seen.Some? ==> Faithful(s, seen.value)
    case Fresh(seen) => seen.Some? ==> Faithful(s, seen.value)
    case Deciding(seen) => seen.Some? ==> Faithful(s, seen.value)
    case Marking(seen) => Faithful(s, seen)
    case Dropping(id) => id in s.claims && s.claims[id].expires <= s.now
    case Running(id) =>
      && id in s.claims && s.claims[id].owner == q && s.claims[id].answer.None?
      && s.claims[id].expires == r.expires && s.claims[id].hash == r.hash
    case Falling(id, response) => id in s.claims && s.claims[id].owner == q && s.claims[id].answer == Some(response)
    case Answered(id) => id in s.claims && s.claims[id].owner == q
    case Lost(id) => id in s.claims && s.claims[id].owner == q
    case Replayed(id, response) =>
      id in s.claims && s.claims[id].hash == r.hash && s.claims[id].answer == Some(response) && response.Success()
    case _ => true
  }

  predicate ClaimOk(s: State, id: RecordId)
    requires id in s.claims
  {
    var c := s.claims[id];
    && c.owner in s.requests && Ran(s.requests[c.owner].phase, id)
    && (Holds(s, id) || c.Over(s.now))
  }

  ghost predicate Inv(s: State) {
    && (s.record.Some? ==> Faithful(s, s.record.value))
    && (forall q :: q in s.requests ==> PhaseOk(s, q))
    && (forall id :: id in s.claims ==> ClaimOk(s, id))
  }

  const START := State(None, map[], map[], 0)

  /** Claims only ever gain information, so what was faithful stays faithful. */
  predicate Grows(s: State, t: State) {
    && s.now <= t.now
    && forall id :: id in s.claims ==>
         && id in t.claims
         && t.claims[id].owner == s.claims[id].owner && t.claims[id].hash == s.claims[id].hash
         && t.claims[id].expires == s.claims[id].expires
         && (s.claims[id].answer.Some? ==> t.claims[id].answer == s.claims[id].answer)
  }

  lemma NextGrows(s: State, a: Action)
    requires Inv(s) && Enabled(s, a)
    ensures Grows(s, Next(s, a))
  {
    if a.Send? {
      assert PhaseOk(s, a.q);
    }
  }

  /** Whether `q` is the request that performs `a`. */
  predicate Performs(a: Action, q: RequestId) {
    !a.Tick? && !a.Purge? && a.q == q
  }

  lemma OthersUntouched(s: State, a: Action, q: RequestId)
    requires Enabled(s, a) && !Performs(a, q)
    ensures q in Next(s, a).requests <==> q in s.requests
    ensures q in s.requests ==> Next(s, a).requests[q] == s.requests[q]
  {
  }

  lemma PhaseSurvivesGrowth(s: State, t: State, q: RequestId)
    requires Grows(s, t) && q in s.requests && q in t.requests && t.requests[q] == s.requests[q] && PhaseOk(s, q)
    requires s.requests[q].phase.Running? ==> t.claims[s.requests[q].phase.id].answer.None?
    ensures PhaseOk(t, q)
  {
  }

  /** Only the run that sends writes an answer, and only into its own claim. */
  lemma OthersUnanswered(s: State, a: Action, id: RecordId)
    requires Inv(s) && Enabled(s, a) && id in s.claims && s.claims[id].answer.None?
    requires !Performs(a, s.claims[id].owner)
    ensures id in Next(s, a).claims && Next(s, a).claims[id].answer.None?
  {
    if a.Send? {
      assert PhaseOk(s, a.q);
    }
  }

  lemma OtherPhaseKept(s: State, a: Action, q: RequestId)
    requires Inv(s) && Enabled(s, a) && !Performs(a, q) && q in s.requests
    ensures q in Next(s, a).requests && PhaseOk(Next(s, a), q)
  {
    OthersUntouched(s, a, q);
    NextGrows(s, a);
    assert PhaseOk(s, q);
    if s.requests[q].phase.Running? {
      OthersUnanswered(s, a, s.requests[q].phase.id);
    }
    PhaseSurvivesGrowth(s, Next(s, a), q);
  }

  lemma SendPhaseKept(s: State, a: Action)
    requires Inv(s) && Enabled(s, a) && a.Send?
    ensures a.q in Next(s, a).requests && PhaseOk(Next(s, a), a.q)
  {
    assert PhaseOk(s, a.q);
  }

  lemma OwnPhaseKept(s: State, a: Action)
    requires Inv(s) && Enabled(s, a) && !a.Tick? && !a.Purge?
    ensures a.q in Next(s, a).requests && PhaseOk(Next(s, a), a.q)
  {
    if a.Send? {
      SendPhaseKept(s, a);
    } else if a.q in s.requests {
      assert PhaseOk(s, a.q);
    }
  }

  lemma PhasesKept(s: State, a: Action, q: RequestId)
    requires Inv(s) && Enabled(s, a) && q in Next(s, a).requests
    ensures PhaseOk(Next(s, a), q)
  {
    if Performs(a, q) {
      OwnPhaseKept(s, a);
    } else {
      OthersUntouched(s, a, q);
      OtherPhaseKept(s, a, q);
    }
  }

  lemma RecordKept(s: State, a: Action)
    requires Inv(s) && Enabled(s, a)
    ensures Next(s, a).record.Some? ==> Faithful(Next(s, a), Next(s, a).record.value)
  {
    NextGrows(s, a);
    if a.Send? {
      assert PhaseOk(s, a.q);
    }
  }

  lemma NoRestart(s: State, a: Action, q: RequestId, id: RecordId)
    requires Enabled(s, a) && q in s.requests && Ran(s.requests[q].phase, id)
    ensures q in Next(s, a).requests && Ran(Next(s, a).requests[q].phase, id)
    ensures Next(s, a).requests[q].phase.Running? ==> s.requests[q].phase.Running?
  {
    if !Performs(a, q) {
      OthersUntouched(s, a, q);
    }
  }

  lemma DeletionNeedsOver(s: State, a: Action, id: RecordId)
    requires Inv(s) && Enabled(s, a) && id in s.claims && Holds(s, id)
    ensures Holds(Next(s, a), id) || (id in Next(s, a).claims && Next(s, a).claims[id].Over(Next(s, a).now))
  {
    if a.DropExpired? || a.Send? {
      assert PhaseOk(s, a.q);
    }
  }

  lemma ClaimKept(s: State, a: Action, id: RecordId)
    requires Inv(s) && Enabled(s, a) && id in Next(s, a).claims
    ensures ClaimOk(Next(s, a), id)
  {
    NextGrows(s, a);
    if id in s.claims {
      assert ClaimOk(s, id);
      NoRestart(s, a, s.claims[id].owner, id);
      if Holds(s, id) {
        DeletionNeedsOver(s, a, id);
      }
    }
  }

  lemma StepKeepsInv(s: State, a: Action)
    requires Inv(s) && Enabled(s, a)
    ensures Inv(Next(s, a))
  {
    RecordKept(s, a);
    forall q | q in Next(s, a).requests
      ensures PhaseOk(Next(s, a), q)
    {
      PhasesKept(s, a, q);
    }
    forall id | id in Next(s, a).claims
      ensures ClaimOk(Next(s, a), id)
    {
      ClaimKept(s, a, id);
    }
  }

  // ---------------------------------------------------------------------------
  // Runs

  ghost predicate IsRun(s: State, actions: seq<Action>, t: State)
    decreases |actions|
  {
    if actions == [] then s == t
    else Enabled(s, actions[0]) && IsRun(Next(s, actions[0]), actions[1..], t)
  }

  lemma {:induction false} RunKeepsInv(s: State, actions: seq<Action>, t: State)
    requires Inv(s) && IsRun(s, actions, t)
    ensures Inv(t) && Grows(s, t)
    decreases |actions|
  {
    if actions != [] {
      StepKeepsInv(s, actions[0]);
      NextGrows(s, actions[0]);
      RunKeepsInv(Next(s, actions[0]), actions[1..], t);
    }
  }

  /** Each stored claim admits exactly one handler run, and each request runs at most once. */
  lemma OneRunPerClaim(actions: seq<Action>, t: State, id: RecordId)
    requires IsRun(START, actions, t) && id in t.claims
    ensures exists q :: q in t.requests && Ran(t.requests[q].phase, id)
    ensures forall q, p ::
              q in t.requests && Ran(t.requests[q].phase, id) && p in t.requests && Ran(t.requests[p].phase, id) ==>
                q == p
  {
    RunKeepsInv(START, actions, t);
    assert ClaimOk(t, id);
    forall q | q in t.requests && Ran(t.requests[q].phase, id)
      ensures q == t.claims[id].owner
    {
      assert PhaseOk(t, q);
    }
  }

  /** A step admits a handler only when every earlier claim has expired or given itself up. */
  lemma AdmissionNeedsOver(s: State, a: Action, id: RecordId)
    requires Inv(s) && Enabled(s, a) && id in s.claims
    requires Next(s, a).claims.Keys != s.claims.Keys
    ensures s.claims[id].Over(s.now)
  {
    assert ClaimOk(s, id);
    OnlyCreateAdmits(s, a);
  }

  lemma OnlyCreateAdmits(s: State, a: Action)
    requires Inv(s) && Enabled(s, a)
    ensures Next(s, a).claims.Keys != s.claims.Keys ==> a.Create? && s.record.None?
  {
    if a.Send? {
      assert Next(s, a).claims.Keys == s.claims.Keys;
    }
  }

  lemma OverIsForGood(s: State, t: State, id: RecordId)
    requires Grows(s, t) && id in s.claims && s.claims[id].Over(s.now)
    ensures t.claims[id].Over(t.now)
  {
  }

  /**
   While a claim is neither expired nor given up, no other handler is admitted, through any
   run of stale marks, slow completions, failed writes, purges and retries.
   */
  lemma {:induction false} NoSecondRun(s: State, actions: seq<Action>, t: State, id: RecordId)
    requires Inv(s) && IsRun(s, actions, t) && id in s.claims
    requires id in t.claims && !t.claims[id].Over(t.now)
    ensures t.claims.Keys == s.claims.Keys && Holds(t, id)
    decreases |actions|
  {
    RunKeepsInv(s, actions, t);
    assert ClaimOk(t, id);
    if actions != [] {
      var m := Next(s, actions[0]);
      StepKeepsInv(s, actions[0]);
      NextGrows(s, actions[0]);
      RunKeepsInv(m, actions[1..], t);
      NoSecondRun(m, actions[1..], t, id);
      if m.claims.Keys != s.claims.Keys {
        AdmissionNeedsOver(s, actions[0], id);
        OverIsForGood(s, t, id);
      }
    }
  }

  /** The promise to clients: after a 2xx or 5xx answer nothing runs again until the record expires. */
  lemma AnsweredBlocksUntilExpiry(s: State, actions: seq<Action>, t: State, id: RecordId)
    requires Inv(s) && IsRun(s, actions, t) && id in s.claims
    requires s.claims[id].answer.Some?
    requires var status := s.claims[id].answer.value.status; 200 <= status < 300 || status >= 500
    requires t.now < s.claims[id].expires
    ensures t.claims.Keys == s.claims.Keys
    ensures forall q, other :: q in t.requests && Ran(t.requests[q].phase, other) ==> other in s.claims
    ensures forall q :: q in s.requests && q in t.requests && t.requests[q].phase.Running? ==>
              s.requests[q].phase.Running?
  {
    RunKeepsInv(s, actions, t);
    NoSecondRun(s, actions, t, id);
    forall q | q in t.requests
      ensures forall other :: Ran(t.requests[q].phase, other) ==> other in s.claims
      ensures q in s.requests && t.requests[q].phase.Running? ==> s.requests[q].phase.Running?
    {
      assert PhaseOk(t, q);
      if q in s.requests && t.requests[q].phase.Running? {
        var mine := t.requests[q].phase.id;
        assert ClaimOk(s, mine);
        assert PhaseOk(s, q);
        RunningStays(s, actions, t, q, mine);
      }
    }
  }

  /** A run that has stopped does not start again. */
  lemma {:induction false} RunningStays(s: State, actions: seq<Action>, t: State, q: RequestId, id: RecordId)
    requires IsRun(s, actions, t)
    requires q in s.requests && q in t.requests && Ran(s.requests[q].phase, id) && t.requests[q].phase.Running?
    ensures s.requests[q].phase.Running?
    decreases |actions|
  {
    if actions != [] {
      NoRestart(s, actions[0], q, id);
      RunningStays(Next(s, actions[0]), actions[1..], t, q, id);
    }
  }

  /** A replay is the response of the run that owns the record, for the same canonical request. */
  lemma ReplayIsTheOwnersAnswer(actions: seq<Action>, t: State, q: RequestId)
    requires IsRun(START, actions, t) && q in t.requests && t.requests[q].phase.Replayed?
    ensures var id, response := t.requests[q].phase.id, t.requests[q].phase.response;
            && id in t.claims && t.claims[id].answer == Some(response) && response.Success()
            && t.claims[id].owner in t.requests && t.claims[id].owner != q
            && Ran(t.requests[t.claims[id].owner].phase, id)
            && t.claims[id].hash == t.requests[q].hash
  {
    RunKeepsInv(START, actions, t);
    assert PhaseOk(t, q);
    assert ClaimOk(t, t.requests[q].phase.id);
  }

  /**
   The moves a stored record can make in one step: processing to completed, unknown or
   deleted; unknown to completed; anything to deleted once expired. Completed is final
   until expiry, and an unexpired record is deleted only by its own run's refusal.
   */
  lemma RecordMoves(s: State, a: Action)
    requires Inv(s) && Enabled(s, a) && s.record.Some?
    ensures var r, t := s.record.value, Next(s, a);
            if t.record.None? then
              r.expires <= s.now ||
              (r.state.Processing? && a.Send? && a.q == s.claims[r.id].owner && a.response.Releases())
            else
              && t.record.value.id == r.id && t.record.value.hash == r.hash && t.record.value.expires == r.expires
              && (r.state.Completed? ==> t.record.value.state == r.state)
              && (r.state.Unknown? ==> !t.record.value.state.Processing?)
              && (t.record.value.state.Completed? && !r.state.Completed? ==>
                    a.Send? && a.q == s.claims[r.id].owner && t.record.value.state.response == a.response)
  {
    if a.Send? || a.DropExpired? {
      assert PhaseOk(s, a.q);
    }
    NextGrows(s, a);
  }

  // ---------------------------------------------------------------------------
  // What a client sees when it retries

  lemma {:induction false} RunAppend(s: State, actions: seq<Action>, m: State, a: Action)
    requires IsRun(s, actions, m) && Enabled(m, a)
    ensures IsRun(s, actions + [a], Next(m, a))
    decreases |actions|
  {
    if actions != [] {
      RunAppend(Next(s, actions[0]), actions[1..], m, a);
      assert (actions + [a])[1..] == actions[1..] + [a];
    }
  }

  /** All steps are statements of one request. */
  ghost predicate Alone(actions: seq<Action>, q: RequestId) {
    forall i :: 0 <= i < |actions| ==> Performs(actions[i], q)
  }

  /** A processing record whose run has been silent for five minutes. */
  predicate Silent(r: Record, now: int) { r.state.Processing? && now - r.touched > 300_000 }

  /** What a request is told about an unexpired record. */
  ghost predicate Told(phase: Phase, sameHash: bool, r: Record, answer: Option<Response>) {
    if !sameHash then phase == Refused(KeyReused)
    else if r.state.Completed? then answer.Some? && phase == Replayed(r.id, answer.value)
    else phase == Refused(if r.state.Processing? then InProgress else OutcomeUnknown)
  }

  /** What a retry leaves of the record it finds. */
  function AfterRetry(r: Record, now: int): Record {
    if Silent(r, now) then r.(state := Unknown, touched := now) else r
  }

  /** A new request up to the test for a silent run. */
  lemma Approach(s: State, q: RequestId, hash: Hash) returns (actions: seq<Action>, t: State)
    requires q !in s.requests && (s.record.Some? ==> s.now < s.record.value.expires)
    ensures IsRun(s, actions, t) && Alone(actions, q)
    ensures t == s.(requests := s.requests[q := Request(hash, s.now + RETENTION_MS, Fresh(s.record))])
  {
    var s1 := Next(s, Arrive(q, hash));
    var s2 := Next(s1, LookUp(q));
    t := Next(s2, TestExpiry(q));
    actions := [] + [Arrive(q, hash)] + [LookUp(q)] + [TestExpiry(q)];
    assert IsRun(s, [], s);
    RunAppend(s, [], s, Arrive(q, hash));
    RunAppend(s, [] + [Arrive(q, hash)], s1, LookUp(q));
    RunAppend(s, [] + [Arrive(q, hash)] + [LookUp(q)], s2, TestExpiry(q));
  }

  /** From there to the decision: a silent run is given up first. */
  lemma ToDecision(s: State, q: RequestId) returns (actions: seq<Action>, t: State)
    requires q in s.requests && s.requests[q].phase == Fresh(s.record)
    ensures IsRun(s, actions, t) && Alone(actions, q)
    ensures t.record == (if s.record.None? then None else Some(AfterRetry(s.record.value, s.now)))
    ensures t == s.(record := t.record, requests := s.requests[q := s.requests[q].(phase := Deciding(t.record))])
  {
    var s1 := Next(s, TestStale(q));
    assert IsRun(s, [], s);
    RunAppend(s, [], s, TestStale(q));
    actions, t := [] + [TestStale(q)], s1;
    if s.record.Some? && Silent(s.record.value, s.now) {
      var s2 := Next(s1, MarkStale(q));
      RunAppend(s, actions, s1, MarkStale(q));
      RunAppend(s, actions + [MarkStale(q)], s2, Reread(q));
      actions, t := actions + [MarkStale(q)] + [Reread(q)], Next(s2, Reread(q));
    }
  }

  lemma {:induction false} RunConcat(s: State, a: seq<Action>, m: State, b: seq<Action>, t: State)
    requires IsRun(s, a, m) && IsRun(m, b, t)
    ensures IsRun(s, a + b, t)
    decreases |a|
  {
    if a == [] {
      assert a + b == b;
    } else {
      RunConcat(Next(s, a[0]), a[1..], m, b, t);
      assert (a + b)[1..] == a[1..] + b;
    }
  }

  /**
   A retry that finds an unexpired record is answered without running: with the stored response if
   the record is completed and the request is the same, with the matching conflict otherwise.
   The record of a silent run becomes unknown on the way, and nothing else changes.
   */
  lemma RetryOutcome(s: State, q: RequestId, hash: Hash) returns (actions: seq<Action>, t: State)
    requires Inv(s) && q !in s.requests && s.record.Some? && s.now < s.record.value.expires
    ensures IsRun(s, actions, t) && Alone(actions, q)
    ensures t.record == Some(AfterRetry(s.record.value, s.now)) && t.claims == s.claims && q in t.requests
    ensures var r := s.record.value;
            Told(t.requests[q].phase, s.claims[r.id].hash == hash, AfterRetry(r, s.now), s.claims[r.id].answer)
  {
    var first, s1 := Approach(s, q, hash);
    var second, s2 := ToDecision(s1, q);
    RunConcat(s, first, s1, second, s2);
    RunAppend(s, first + second, s2, Decide(q));
    actions, t := first + second + [Decide(q)], Next(s2, Decide(q));
  }

  /** The record is stored, and its state is settled: completed, or never to be, and unknown if it is `marked` so. */
  ghost predicate Settled(s: State, id: RecordId, stored: bool, marked: bool) {
    && id in s.claims && Holds(s, id)
    && (if stored then s.record.value.state.Completed?
        else
          && !s.record.value.state.Completed? && (marked ==> s.record.value.state.Unknown?)
          && s.claims[id].owner in s.requests
          && Ran(s.requests[s.claims[id].owner].phase, id) && !s.requests[s.claims[id].owner].phase.Running?)
  }

  lemma SettledStep(s: State, a: Action, id: RecordId, stored: bool, marked: bool)
    requires Inv(s) && Enabled(s, a) && Settled(s, id, stored, marked) && s.claims[id].answer.Some?
    ensures Settled(Next(s, a), id, stored, marked) || Next(s, a).claims[id].Over(Next(s, a).now)
  {
    NextGrows(s, a);
    DeletionNeedsOver(s, a, id);
    RecordMoves(s, a);
    if !stored {
      NoRestart(s, a, s.claims[id].owner, id);
    }
  }

  lemma {:induction false} SettledStays(s: State, actions: seq<Action>, t: State, id: RecordId, stored: bool,
                                        marked: bool)
    requires Inv(s) && IsRun(s, actions, t) && Settled(s, id, stored, marked)
    requires s.claims[id].answer.Some? && !s.claims[id].answer.value.Releases() && t.now < s.claims[id].expires
    ensures Inv(t) && Settled(t, id, stored, marked) && t.claims[id] == s.claims[id]
    decreases |actions|
  {
    if actions != [] {
      var m := Next(s, actions[0]);
      StepKeepsInv(s, actions[0]);
      NextGrows(s, actions[0]);
      RunKeepsInv(m, actions[1..], t);
      SettledStep(s, actions[0], id, stored, marked);
      SettledStays(m, actions[1..], t, id, stored, marked);
    }
  }

  lemma SendSettles(s: State, q: RequestId, response: Response, storable: bool, dbFails: bool)
    requires Inv(s) && q in s.requests && s.requests[q].phase.Running? && !response.Releases()
    requires s.now < s.requests[q].expires
    ensures var id, t := s.requests[q].phase.id, Next(s, Send(q, response, storable, dbFails));
            && Settled(t, id, response.Success() && storable && !dbFails, !dbFails)
            && id in s.claims && t.claims[id] == Claim(q, s.requests[q].hash, s.requests[q].expires, Some(response))
            && s.now == t.now
  {
    assert PhaseOk(s, q);
    assert ClaimOk(s, s.requests[q].phase.id);
  }

  /** Until expiry the record keeps saying what the run sent. */
  lemma AnswerIsKept(s: State, q: RequestId, response: Response, storable: bool, dbFails: bool, between: seq<Action>,
                     m: State)
    requires Inv(s) && q in s.requests && s.requests[q].phase.Running? && !response.Releases()
    requires Enabled(s, Send(q, response, storable, dbFails))
    requires IsRun(Next(s, Send(q, response, storable, dbFails)), between, m) && m.now < s.requests[q].expires
    ensures Inv(m) && m.record.Some? && m.now < m.record.value.expires
    ensures m.record.value.id == s.requests[q].phase.id && m.record.value.id in m.claims
    ensures m.record.value.state.Completed? <==> response.Success() && storable && !dbFails
    ensures !dbFails && !m.record.value.state.Completed? ==> m.record.value.state.Unknown?
    ensures m.claims[m.record.value.id].answer == Some(response)
    ensures m.claims[m.record.value.id].hash == s.requests[q].hash
  {
    var s1 := Next(s, Send(q, response, storable, dbFails));
    StepKeepsInv(s, Send(q, response, storable, dbFails));
    RunKeepsInv(s1, between, m);
    SendSettles(s, q, response, storable, dbFails);
    SettledStays(s1, between, m, s.requests[q].phase.id, response.Success() && storable && !dbFails, !dbFails);
  }

  /**
   The promise of the header: once a run has sent a success or a server error, any run of other
   requests later and before expiry, a retry gets the stored success back if it is the same
   request, and is refused if the success was not stored, failed, or belongs to another request.
   */
  lemma AnswerThenRetry(s: State, q: RequestId, response: Response, storable: bool, dbFails: bool,
                        between: seq<Action>, m: State, retry: RequestId, hash: Hash)
    returns (actions: seq<Action>, t: State)
    requires Inv(s) && q in s.requests && s.requests[q].phase.Running?
    requires 200 <= response.status < 300 || response.status >= 500
    requires Enabled(s, Send(q, response, storable, dbFails))
    requires IsRun(Next(s, Send(q, response, storable, dbFails)), between, m)
    requires m.now < s.requests[q].expires && retry !in m.requests
    ensures IsRun(m, actions, t) && Alone(actions, retry) && t.claims == m.claims && retry in t.requests
    ensures if hash != s.requests[q].hash then t.requests[retry].phase == Refused(KeyReused)
            else if response.status < 300 && storable && !dbFails then
              t.requests[retry].phase == Replayed(s.requests[q].phase.id, response)
            else t.requests[retry].phase == Refused(OutcomeUnknown)
                 || (dbFails && t.requests[retry].phase == Refused(InProgress))
  {
    AnswerIsKept(s, q, response, storable, dbFails, between, m);
    actions, t := RetryOutcome(m, retry, hash);
  }

  lemma FallBackSettles(s: State, q: RequestId, response: Response)
    requires Inv(s) && q in s.requests && s.requests[q].phase.Running? && 200 <= response.status < 300
    requires s.now < s.requests[q].expires
    ensures var id, failed := s.requests[q].phase.id, Next(s, Send(q, response, true, true));
            && Enabled(failed, FallBack(q, false))
            && Settled(Next(failed, FallBack(q, false)), id, false, true)
            && Next(failed, FallBack(q, false)).claims == failed.claims && id in failed.claims
            && failed.claims[id] == Claim(q, s.requests[q].hash, s.requests[q].expires, Some(response))
  {
    assert PhaseOk(s, q);
    assert ClaimOk(s, s.requests[q].phase.id);
  }

  /** A success that could not be stored, once marked, is reported as an unknown outcome until it expires. */
  lemma FailedStoreIsUnknown(s: State, q: RequestId, response: Response, between: seq<Action>, m: State,
                             retry: RequestId, hash: Hash)
    returns (actions: seq<Action>, t: State)
    requires Inv(s) && q in s.requests && s.requests[q].phase.Running? && 200 <= response.status < 300
    requires Enabled(s, Send(q, response, true, true))
    requires var failed := Next(s, Send(q, response, true, true));
             Enabled(failed, FallBack(q, false)) && IsRun(Next(failed, FallBack(q, false)), between, m)
    requires m.now < s.requests[q].expires && retry !in m.requests
    ensures IsRun(m, actions, t) && Alone(actions, retry) && t.claims == m.claims && retry in t.requests
    ensures t.requests[retry].phase == Refused(if hash == s.requests[q].hash then OutcomeUnknown else KeyReused)
  {
    var failed := Next(s, Send(q, response, true, true));
    var marked := Next(failed, FallBack(q, false));
    StepKeepsInv(s, Send(q, response, true, true));
    StepKeepsInv(failed, FallBack(q, false));
    RunKeepsInv(marked, between, m);
    FallBackSettles(s, q, response);
    SettledStays(marked, between, m, s.requests[q].phase.id, false, true);
    assert Faithful(m, m.record.value);
    actions, t := RetryOutcome(m, retry, hash);
  }

  /** The handler of `q` runs under a new claim, which is stored for 24 hours from the request's arrival. */
  ghost predicate Admitted(s: State, q: RequestId, hash: Hash, id: RecordId, t: State) {
    && q in t.requests && t.requests[q].phase == Running(id)
    && t.record == Some(Record(id, hash, Processing, s.now, s.now + 86_400_000))
    && t.claims == s.claims[id := Claim(q, hash, s.now + 86_400_000, None)]
  }

  /** A request that finds no record runs its handler. */
  lemma FreeKeyAdmits(s: State, q: RequestId, hash: Hash, id: RecordId) returns (actions: seq<Action>, t: State)
    requires s.record.None? && q !in s.requests && id !in s.claims
    ensures IsRun(s, actions, t) && Alone(actions, q) && Admitted(s, q, hash, id, t)
  {
    var first, s1 := Approach(s, q, hash);
    var second, s2 := ToDecision(s1, q);
    RunConcat(s, first, s1, second, s2);
    RunAppend(s, first + second, s2, Decide(q));
    var s3 := Next(s2, Decide(q));
    RunAppend(s, first + second + [Decide(q)], s3, Create(q, id));
    actions, t := first + second + [Decide(q)] + [Create(q, id)], Next(s3, Create(q, id));
  }

  /** A redirect or client error frees the key: the next request runs its handler under a new claim. */
  lemma RefusalFreesKey(s: State, q: RequestId, response: Response, storable: bool, retry: RequestId, hash: Hash,
                        id: RecordId)
    returns (actions: seq<Action>, t: State)
    requires Inv(s) && q in s.requests && s.requests[q].phase.Running?
    requires response.status < 200 || 300 <= response.status < 500
    requires Holds(s, s.requests[q].phase.id) && s.record.value.state.Processing?
    requires retry !in s.requests && id !in s.claims
    ensures Enabled(s, Send(q, response, storable, false))
    ensures IsRun(Next(s, Send(q, response, storable, false)), actions, t) && Alone(actions, retry)
    ensures Admitted(Next(s, Send(q, response, storable, false)), retry, hash, id, t)
  {
    assert PhaseOk(s, q);
    actions, t := FreeKeyAdmits(Next(s, Send(q, response, storable, false)), retry, hash, id);
  }

  /** A request that finds an expired record deletes it and runs under a new claim. */
  lemma ExpiredIsReplaced(s: State, q: RequestId, hash: Hash, id: RecordId) returns (actions: seq<Action>, t: State)
    requires s.record.Some? && s.record.value.expires <= s.now && q !in s.requests && id !in s.claims
    ensures IsRun(s, actions, t) && Alone(actions, q) && Admitted(s, q, hash, id, t)
  {
    var s1 := Next(s, Arrive(q, hash));
    var s2 := Next(s1, LookUp(q));
    var s3 := Next(s2, TestExpiry(q));
    var s4 := Next(s3, DropExpired(q));
    assert IsRun(s, [], s);
    RunAppend(s, [], s, Arrive(q, hash));
    RunAppend(s, [] + [Arrive(q, hash)], s1, LookUp(q));
    var first := [] + [Arrive(q, hash)] + [LookUp(q)];
    RunAppend(s, first, s2, TestExpiry(q));
    RunAppend(s, first + [TestExpiry(q)], s3, DropExpired(q));
    RunAppend(s, first + [TestExpiry(q)] + [DropExpired(q)], s4, Create(q, id));
    actions := first + [TestExpiry(q)] + [DropExpired(q)] + [Create(q, id)];
    t := Next(s4, Create(q, id));
  }

  /** A request that finds no record but loses the race to create one is told what a retry would be told. */
  lemma LostRaceOutcome(s: State, q: RequestId, id: RecordId) returns (t: State)
    requires Inv(s) && q in s.requests && s.requests[q].phase.Creating? && s.record.Some? && id !in s.claims
    ensures IsRun(s, [Create(q, id), ReadWinner(q)], t)
    ensures t.record == s.record && t.claims == s.claims && q in t.requests
    ensures var r := s.record.value;
            Told(t.requests[q].phase, s.claims[r.id].hash == s.requests[q].hash, r, s.claims[r.id].answer)
  {
    var s1 := Next(s, Create(q, id));
    t := Next(s1, ReadWinner(q));
    var a := [Create(q, id), ReadWinner(q)];
    assert a[1..] == [ReadWinner(q)] && [ReadWinner(q)][1..] == [];
    assert IsRun(t, [], t);
    assert IsRun(s1, a[1..], t);
  }

  /** The purge removes exactly what has expired; a crash leaves the record alone and ends the run. */
  lemma PurgeAndCrash(s: State, q: RequestId)
    ensures Next(s, Purge).record == if s.record.Some? && s.record.value.expires < s.now then None else s.record
    ensures Next(s, Purge).requests == s.requests && Next(s, Purge).claims == s.claims
    ensures q in s.requests && s.requests[q].phase.Running? ==>
              && Next(s, Crash(q)).record == s.record
              && Next(s, Crash(q)).requests[q].phase == Lost(s.requests[q].phase.id)
  {
  }
}
