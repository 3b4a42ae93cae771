/**
 Effective-dated compliance rules (src/routes/compliance.ts): an update at day `start`
 closes, deletes, rewrites and creates versions in one transaction. Days are integers and
 the table holds the rules of one organization.
 */
module RuleTimeline {
  import opened Optional

  type Id = nat
  type Day = int
  type Code = string

  /** One version of a rule; a missing end means it never ends. */
  datatype Rule = Rule(code: Code, from: Day, to: Option<Day>, content: int) {
    predicate ActiveOn(d: Day) { from <= d && (to.None? || d <= to.value) }
    predicate NonEmpty() { to.None? || from <= to.value }
    predicate EndsBefore(d: Day) { to.Some? && to.value < d }
  }
  datatype NewRule = NewRule(code: Code, content: int)

  type Table = map<Id, Rule>

  /** The as-of read: contents of the versions of a code in force on a day. */
  function AsOf(rows: Table, code: Code, d: Day): set<int> {
    set id | id in rows && rows[id].code == code && rows[id].ActiveOn(d) :: rows[id].content
  }

  predicate Apart(a: Rule, b: Rule) {
    a.code != b.code || a.EndsBefore(b.from) || b.EndsBefore(a.from)
  }

  /** Versions are non-empty and the versions of one code never share a day. */
  ghost predicate Valid(rows: Table) {
    && (forall i :: i in rows ==> rows[i].NonEmpty())
    && forall i, j :: i in rows && j in rows && i != j ==> Apart(rows[i], rows[j])
  }

  /** The row is one of those the as-of read returns for the code. */
  predicate InForce(rows: Table, code: Code, d: Day, id: Id) {
    id in rows && rows[id].code == code && rows[id].ActiveOn(d)
  }

  ghost predicate OneInForce(rows: Table) {
    forall code, d, i, j :: InForce(rows, code, d, i) && InForce(rows, code, d, j) ==> i == j
  }

  /** Non-empty versions are kept apart exactly when the as-of read never returns two versions of a code. */
  lemma ValidIffOneInForce(rows: Table)
    requires forall i :: i in rows ==> rows[i].NonEmpty()
    ensures Valid(rows) <==> OneInForce(rows)
  {
    if OneInForce(rows) {
      forall i, j | i in rows && j in rows && i != j
        ensures Apart(rows[i], rows[j])
      {
        var d := if rows[i].from < rows[j].from then rows[j].from else rows[i].from;
        assert !(InForce(rows, rows[i].code, d, i) && InForce(rows, rows[i].code, d, j));
      }
    }
  }

  // ---------------------------------------------------------------------------
  // First loop: close or delete what is in force on the start day

  /** Whether the first loop touches this version. */
  predicate Touched(r: Rule, start: Day, codes: set<Code>) {
    r.ActiveOn(start) && (r.code !in codes || r.from < start)
  }

  /** The table after the first loop has handled the ids in `done`. */
  function Closed(rows: Table, start: Day, codes: set<Code>, done: set<Id>): Table {
    map id | id in rows && !(id in done && Touched(rows[id], start, codes) && rows[id].from == start) ::
      if id in done && Touched(rows[id], start, codes) then rows[id].(to := Some(start - 1)) else rows[id]
  }

  // ---------------------------------------------------------------------------
  // Second loop: rewrite the same-day version or create one up to the next version

  ghost predicate IsNextStart(rows: Table, code: Code, start: Day, next: Option<Day>) {
    && (forall id :: id in rows && rows[id].code == code && rows[id].from > start ==>
          next.Some? && next.value <= rows[id].from)
    && (next.Some? ==>
          next.value > start && exists id :: id in rows && rows[id].code == code && rows[id].from == next.value)
  }

  predicate SameDay(r: Rule, code: Code, start: Day) { r.code == code && r.from == start }

  predicate HasSameDay(rows: Table, code: Code, start: Day) {
    exists id :: id in rows && SameDay(rows[id], code, start)
  }

  function Rewritten(rows: Table, rule: NewRule, start: Day): Table {
    map id | id in rows ::
      if SameDay(rows[id], rule.code, start) then rows[id].(content := rule.content) else rows[id]
  }

  function Version(rule: NewRule, start: Day, next: Option<Day>): Rule {
    Rule(rule.code, start, if next.Some? then Some(next.value - 1) else None, rule.content)
  }

  ghost predicate Creates(before: Table, rule: NewRule, start: Day, after: Table, id: Id, next: Option<Day>) {
    && id !in before
    && IsNextStart(before, rule.code, start, next)
    && after == before[id := Version(rule, start, next)]
  }

  ghost predicate Installs(before: Table, rule: NewRule, start: Day, after: Table) {
    if HasSameDay(before, rule.code, start) then after == Rewritten(before, rule, start)
    else exists id: Id, next: Option<Day> :: Creates(before, rule, start, after, id, next)
  }

  /** Days from `start` up to the first later version: the span an update may change. */
  ghost predicate InSpan(rows: Table, code: Code, start: Day, d: Day) {
    start <= d && forall id :: id in rows && rows[id].code == code && rows[id].from > start ==> d < rows[id].from
  }

  // ---------------------------------------------------------------------------
  // Effect of each loop on the as-of answers

  lemma ClosedIsValid(rows: Table, start: Day, codes: set<Code>)
    requires Valid(rows)
    ensures Valid(Closed(rows, start, codes, rows.Keys))
  {
  }

  /** A later version of the same code separates the days after it from anything in force on `start`. */
  lemma LaterVersionSeparates(rows: Table, code: Code, start: Day, d: Day, id: Id)
    requires Valid(rows) && id in rows && rows[id].code == code && rows[id].ActiveOn(start) && rows[id].ActiveOn(d)
    ensures start <= d ==> InSpan(rows, code, start, d)
  {
    forall k | k in rows && rows[k].code == code && rows[k].from > start
      ensures start <= d ==> d < rows[k].from
    {
      assert Apart(rows[k], rows[id]);
    }
  }

  lemma ClosedAnswer(rows: Table, start: Day, codes: set<Code>, code: Code, d: Day, x: int)
    requires Valid(rows) && !(InSpan(rows, code, start, d) && start <= d)
    ensures x in AsOf(Closed(rows, start, codes, rows.Keys), code, d) <==> x in AsOf(rows, code, d)
  {
    var after := Closed(rows, start, codes, rows.Keys);
    if x in AsOf(rows, code, d) {
      var id :| id in rows && rows[id].code == code && rows[id].ActiveOn(d) && rows[id].content == x;
      if rows[id].ActiveOn(start) {
        LaterVersionSeparates(rows, code, start, d, id);
      }
      assert id in after && after[id].ActiveOn(d);
    }
  }

  /** Closing leaves every answer outside the span alone, and empties the span of a retired code. */
  lemma ClosedAnswers(rows: Table, start: Day, codes: set<Code>, code: Code, d: Day)
    requires Valid(rows)
    ensures !InSpan(rows, code, start, d) ==>
              AsOf(Closed(rows, start, codes, rows.Keys), code, d) == AsOf(rows, code, d)
    ensures InSpan(rows, code, start, d) && code !in codes ==>
              AsOf(Closed(rows, start, codes, rows.Keys), code, d) == {}
  {
    if !InSpan(rows, code, start, d) {
      forall x
        ensures x in AsOf(Closed(rows, start, codes, rows.Keys), code, d) <==> x in AsOf(rows, code, d)
      {
        ClosedAnswer(rows, start, codes, code, d, x);
      }
    }
  }

  /** After closing, every version of a payload code lies before the start day, starts on it, or starts later. */
  ghost predicate Ready(rows: Table, code: Code, start: Day) {
    forall id :: id in rows && rows[id].code == code && rows[id].from < start ==> rows[id].EndsBefore(start)
  }

  lemma ClosedIsReady(rows: Table, start: Day, codes: set<Code>, code: Code)
    requires Valid(rows)
    ensures Ready(Closed(rows, start, codes, rows.Keys), code, start)
  {
  }

  lemma InstallIsValid(before: Table, rule: NewRule, start: Day, after: Table)
    requires Valid(before) && Ready(before, rule.code, start) && Installs(before, rule, start, after)
    ensures Valid(after)
  {
    if HasSameDay(before, rule.code, start) {
      assert forall i :: i in before ==>
               after[i].code == before[i].code && after[i].from == before[i].from && after[i].to == before[i].to;
    } else {
      var id: Id, next: Option<Day> :| Creates(before, rule, start, after, id, next);
      forall i | i in before && before[i].code == rule.code
        ensures Apart(before[i], after[id])
      {
        assert !SameDay(before[i], rule.code, start);
      }
    }
  }

  /** Both tables hold the same versions of `code`. */
  ghost predicate SameVersions(a: Table, b: Table, code: Code) {
    && (forall id :: id in a && a[id].code == code ==> id in b && b[id] == a[id])
    && (forall id :: id in b && b[id].code == code ==> id in a && a[id] == b[id])
  }

  lemma SameVersionsAnswer(a: Table, b: Table, code: Code, start: Day, d: Day)
    requires SameVersions(a, b, code)
    ensures AsOf(a, code, d) == AsOf(b, code, d)
    ensures InSpan(a, code, start, d) <==> InSpan(b, code, start, d)
    ensures Ready(a, code, start) <==> Ready(b, code, start)
    ensures HasSameDay(a, code, start) <==> HasSameDay(b, code, start)
  {
    forall x
      ensures x in AsOf(a, code, d) <==> x in AsOf(b, code, d)
    {
      if x in AsOf(a, code, d) {
        var k :| k in a && a[k].code == code && a[k].ActiveOn(d) && a[k].content == x;
        assert b[k] == a[k];
      }
      if x in AsOf(b, code, d) {
        var k :| k in b && b[k].code == code && b[k].ActiveOn(d) && b[k].content == x;
        assert a[k] == b[k];
      }
    }
    if HasSameDay(a, code, start) {
      var k :| k in a && SameDay(a[k], code, start);
      assert SameDay(b[k], code, start);
    }
    if HasSameDay(b, code, start) {
      var k :| k in b && SameDay(b[k], code, start);
      assert SameDay(a[k], code, start);
    }
  }

  lemma InstallKeepsOthers(before: Table, rule: NewRule, start: Day, after: Table, code: Code)
    requires Installs(before, rule, start, after) && code != rule.code
    ensures SameVersions(before, after, code)
  {
    if !HasSameDay(before, rule.code, start) {
      var id: Id, next: Option<Day> :| Creates(before, rule, start, after, id, next);
    }
  }

  /**
   The installed rule answers on every day of the span, except that a same-day version keeps
   its end; outside the span nothing changes.
   */
  lemma InstallAnswers(before: Table, rule: NewRule, start: Day, after: Table, d: Day)
    requires Valid(before) && Ready(before, rule.code, start) && Installs(before, rule, start, after)
    ensures !InSpan(before, rule.code, start, d) ==> AsOf(after, rule.code, d) == AsOf(before, rule.code, d)
    ensures InSpan(before, rule.code, start, d) && !HasSameDay(before, rule.code, start) ==>
              AsOf(after, rule.code, d) == {rule.content}
    ensures InSpan(before, rule.code, start, d) && HasSameDay(before, rule.code, start) ==>
              AsOf(after, rule.code, d) == if AsOf(before, rule.code, d) == {} then {} else {rule.content}
  {
    if HasSameDay(before, rule.code, start) {
      RewriteAnswers(before, rule, start, d);
    } else {
      var id: Id, next: Option<Day> :| Creates(before, rule, start, after, id, next);
      CreateAnswers(before, rule, start, id, next, d);
    }
  }

  lemma CreateAnswers(before: Table, rule: NewRule, start: Day, id: Id, next: Option<Day>, d: Day)
    requires Valid(before) && Ready(before, rule.code, start) && !HasSameDay(before, rule.code, start)
    requires id !in before && IsNextStart(before, rule.code, start, next)
    ensures var after := before[id := Version(rule, start, next)];
            AsOf(after, rule.code, d)
            == if InSpan(before, rule.code, start, d) then {rule.content} else AsOf(before, rule.code, d)
  {
    var after := before[id := Version(rule, start, next)];
    assert after[id].ActiveOn(d) <==> InSpan(before, rule.code, start, d) by {
      if next.Some? {
        var k :| k in before && before[k].code == rule.code && before[k].from == next.value;
      }
    }
    forall k | k in before && before[k].code == rule.code
      ensures InSpan(before, rule.code, start, d) ==> !before[k].ActiveOn(d)
    {
      assert !SameDay(before[k], rule.code, start);
    }
    forall x
      ensures x in AsOf(after, rule.code, d) <==>
              x in (if InSpan(before, rule.code, start, d) then {rule.content} else AsOf(before, rule.code, d))
    {
      if x in AsOf(before, rule.code, d) {
        var k :| k in before && before[k].code == rule.code && before[k].ActiveOn(d) && before[k].content == x;
        assert after[k] == before[k];
      }
      if InSpan(before, rule.code, start, d) {
        assert after[id].code == rule.code && after[id].ActiveOn(d) && after[id].content == rule.content;
      }
    }
  }

  /** On a day of the span only the same-day version can be in force; outside it never is. */
  lemma SameDayOwnsSpan(rows: Table, code: Code, start: Day, same: Id, k: Id, d: Day)
    requires Valid(rows) && Ready(rows, code, start)
    requires same in rows && SameDay(rows[same], code, start)
    requires k in rows && rows[k].code == code && rows[k].ActiveOn(d)
    ensures k == same <==> InSpan(rows, code, start, d)
  {
    if k == same {
      LaterVersionSeparates(rows, code, start, d, same);
    } else {
      assert Apart(rows[k], rows[same]);
    }
  }

  lemma AsOfFrom(rows: Table, code: Code, d: Day, id: Id)
    requires id in rows && rows[id].code == code && rows[id].ActiveOn(d)
    ensures rows[id].content in AsOf(rows, code, d)
  {
  }

  lemma RewrittenAt(rows: Table, rule: NewRule, start: Day, k: Id)
    ensures k in Rewritten(rows, rule, start) <==> k in rows
    ensures k in rows ==>
              Rewritten(rows, rule, start)[k] ==
              if SameDay(rows[k], rule.code, start) then rows[k].(content := rule.content) else rows[k]
  {
  }

  lemma RewriteAnswer(before: Table, rule: NewRule, start: Day, d: Day, x: int)
    requires Valid(before) && Ready(before, rule.code, start) && HasSameDay(before, rule.code, start)
    ensures x in AsOf(Rewritten(before, rule, start), rule.code, d) <==>
            if InSpan(before, rule.code, start, d) then AsOf(before, rule.code, d) != {} && x == rule.content
            else x in AsOf(before, rule.code, d)
  {
    var after := Rewritten(before, rule, start);
    var same :| same in before && SameDay(before[same], rule.code, start);
    if x in AsOf(after, rule.code, d) {
      var k :| k in after && after[k].code == rule.code && after[k].ActiveOn(d) && after[k].content == x;
      RewrittenAt(before, rule, start, k);
      AsOfFrom(before, rule.code, d, k);
      SameDayOwnsSpan(before, rule.code, start, same, k, d);
      assert k != same ==> !SameDay(before[k], rule.code, start) by {
        assert k != same ==> Apart(before[k], before[same]);
      }
    } else if y :| y in AsOf(before, rule.code, d) && (x == y || InSpan(before, rule.code, start, d)) {
      var k :| k in before && before[k].code == rule.code && before[k].ActiveOn(d) && before[k].content == y;
      RewrittenAt(before, rule, start, k);
      AsOfFrom(after, rule.code, d, k);
      SameDayOwnsSpan(before, rule.code, start, same, k, d);
    }
  }

  lemma RewriteAnswers(before: Table, rule: NewRule, start: Day, d: Day)
    requires Valid(before) && Ready(before, rule.code, start) && HasSameDay(before, rule.code, start)
    ensures AsOf(Rewritten(before, rule, start), rule.code, d) ==
              if !InSpan(before, rule.code, start, d) then AsOf(before, rule.code, d)
              else if AsOf(before, rule.code, d) == {} then {} else {rule.content}
  {
    forall x
      ensures x in AsOf(Rewritten(before, rule, start), rule.code, d) <==>
              if InSpan(before, rule.code, start, d) then AsOf(before, rule.code, d) != {} && x == rule.content
              else x in AsOf(before, rule.code, d)
    {
      RewriteAnswer(before, rule, start, d, x);
    }
  }

  // ---------------------------------------------------------------------------
  // The whole update

  function Codes(payload: seq<NewRule>): set<Code> {
    set r | r in payload :: r.code
  }

  lemma CodesGrow(front: seq<NewRule>, last: NewRule)
    ensures Codes(front + [last]) == Codes(front) + {last.code}
  {
  }

  lemma CodeIsListed(payload: seq<NewRule>, code: Code)
    ensures code in Codes(payload) <==> exists i :: 0 <= i < |payload| && payload[i].code == code
  {
    if i :| 0 <= i < |payload| && payload[i].code == code {
      assert payload[i] in payload;
    }
  }

  lemma DistinctGrows(front: seq<NewRule>, last: NewRule)
    ensures DistinctCodes(front + [last]) <==> DistinctCodes(front) && last.code !in Codes(front)
  {
    var payload := front + [last];
    CodeIsListed(front, last.code);
    assert payload[|front|] == last;
    assert forall i :: 0 <= i < |front| ==> payload[i] == front[i];
  }

  /** The handler compares the number of codes with the number of rules. */
  lemma {:induction false} SizeTellsRepeats(payload: seq<NewRule>)
    ensures |Codes(payload)| <= |payload|
    ensures |Codes(payload)| == |payload| <==> DistinctCodes(payload)
  {
    if payload != [] {
      var front, last := Front(payload), Last(payload);
      SizeTellsRepeats(front);
      CodesGrow(front, last);
      DistinctGrows(front, last);
      assert payload == front + [last];
    }
  }

  ghost predicate DistinctCodes(payload: seq<NewRule>) {
    forall i, j :: 0 <= i < j < |payload| ==> payload[i].code != payload[j].code
  }

  function Front(payload: seq<NewRule>): seq<NewRule>
    requires payload != []
  {
    payload[..|payload| - 1]
  }

  function Last(payload: seq<NewRule>): NewRule
    requires payload != []
  {
    payload[|payload| - 1]
  }

  ghost predicate InstallsAll(before: Table, payload: seq<NewRule>, start: Day, after: Table)
    decreases |payload|
  {
    if payload == [] then before == after
    else exists mid :: InstallsAll(before, Front(payload), start, mid) && Installs(mid, Last(payload), start, after)
  }

  /** The effect of `PUT /rules` on the table. */
  ghost predicate Updates(before: Table, start: Day, payload: seq<NewRule>, after: Table) {
    InstallsAll(Closed(before, start, Codes(payload), before.Keys), payload, start, after)
  }

  lemma {:induction false} InstallsAllKeepsOthers(before: Table, payload: seq<NewRule>, start: Day, after: Table,
                                                  code: Code)
    requires InstallsAll(before, payload, start, after) && forall i :: 0 <= i < |payload| ==> payload[i].code != code
    ensures SameVersions(before, after, code)
    decreases |payload|
  {
    if payload != [] {
      var n := |payload| - 1;
      var mid :| InstallsAll(before, Front(payload), start, mid) && Installs(mid, Last(payload), start, after);
      InstallsAllKeepsOthers(before, payload[..n], start, mid, code);
      InstallKeepsOthers(mid, payload[n], start, after, code);
    }
  }

  lemma LastCodeUntouched(before: Table, payload: seq<NewRule>, start: Day, mid: Table)
    requires payload != [] && DistinctCodes(payload) && InstallsAll(before, payload[..|payload| - 1], start, mid)
    ensures SameVersions(before, mid, payload[|payload| - 1].code)
  {
    InstallsAllKeepsOthers(before, payload[..|payload| - 1], start, mid, payload[|payload| - 1].code);
  }

  lemma {:induction false} InstallsAllIsValid(before: Table, payload: seq<NewRule>, start: Day, after: Table)
    requires Valid(before) && DistinctCodes(payload) && InstallsAll(before, payload, start, after)
    requires forall i :: 0 <= i < |payload| ==> Ready(before, payload[i].code, start)
    ensures Valid(after)
    decreases |payload|
  {
    if payload != [] {
      var n := |payload| - 1;
      var mid :| InstallsAll(before, Front(payload), start, mid) && Installs(mid, Last(payload), start, after);
      InstallsAllIsValid(before, payload[..n], start, mid);
      LastCodeUntouched(before, payload, start, mid);
      SameVersionsAnswer(before, mid, payload[n].code, start, start);
      InstallIsValid(mid, payload[n], start, after);
    }
  }

  lemma {:induction false} InstallsAllAnswers(before: Table, payload: seq<NewRule>, start: Day, after: Table, k: nat,
                                              d: Day)
    requires Valid(before) && DistinctCodes(payload) && InstallsAll(before, payload, start, after) && k < |payload|
    requires forall i :: 0 <= i < |payload| ==> Ready(before, payload[i].code, start)
    ensures AsOf(after, payload[k].code, d) == InstalledAnswer(before, payload[k], start, d)
    decreases |payload|
  {
    var n := |payload| - 1;
    var mid :| InstallsAll(before, Front(payload), start, mid) && Installs(mid, Last(payload), start, after);
    InstallsAllIsValid(before, payload[..n], start, mid);
    if k == n {
      LastCodeUntouched(before, payload, start, mid);
      SameVersionsAnswer(before, mid, payload[n].code, start, d);
      InstallAnswers(mid, payload[n], start, after, d);
    } else {
      InstallsAllAnswers(before, payload[..n], start, mid, k, d);
      InstallKeepsOthers(mid, payload[n], start, after, payload[k].code);
      SameVersionsAnswer(mid, after, payload[k].code, start, d);
    }
  }

  /** The answer for an installed rule's code, in terms of the table it was installed into. */
  ghost function InstalledAnswer(before: Table, rule: NewRule, start: Day, d: Day): set<int> {
    if !InSpan(before, rule.code, start, d) then AsOf(before, rule.code, d)
    else if HasSameDay(before, rule.code, start) && AsOf(before, rule.code, d) == {} then {}
    else {rule.content}
  }

  /** Closing keeps what the second loop looks at for a code of the payload. */
  lemma ClosedKeepsPlan(rows: Table, start: Day, codes: set<Code>, code: Code, d: Day)
    requires Valid(rows) && code in codes
    ensures var after := Closed(rows, start, codes, rows.Keys);
            && (InSpan(after, code, start, d) <==> InSpan(rows, code, start, d))
            && (HasSameDay(after, code, start) <==> HasSameDay(rows, code, start))
            && (HasSameDay(rows, code, start) ==> AsOf(after, code, d) == AsOf(rows, code, d))
  {
    var after := Closed(rows, start, codes, rows.Keys);
    assert forall k :: k in rows && rows[k].code == code ==>
             k in after && after[k].code == code && after[k].from == rows[k].from;
    if HasSameDay(rows, code, start) {
      var same :| same in rows && SameDay(rows[same], code, start);
      assert SameDay(after[same], code, start);
      forall k | k in rows && rows[k].code == code
        ensures after[k] == rows[k]
      {
        if k != same {
          assert Apart(rows[k], rows[same]);
        }
      }
      assert SameVersions(rows, after, code);
      SameVersionsAnswer(rows, after, code, start, d);
    }
  }

  /** Versions stay non-empty and disjoint through an update at any day with any payload. */
  lemma UpdateIsValid(before: Table, start: Day, payload: seq<NewRule>, after: Table)
    requires Valid(before) && DistinctCodes(payload) && Updates(before, start, payload, after)
    ensures Valid(after)
  {
    var closed := Closed(before, start, Codes(payload), before.Keys);
    ClosedIsValid(before, start, Codes(payload));
    forall i | 0 <= i < |payload|
      ensures Ready(closed, payload[i].code, start)
    {
      ClosedIsReady(before, start, Codes(payload), payload[i].code);
    }
    InstallsAllIsValid(closed, payload, start, after);
  }

  /** Codes left out of the payload are retired from `start` up to their next version, and only there. */
  lemma RetiredAnswers(before: Table, start: Day, payload: seq<NewRule>, after: Table, code: Code, d: Day)
    requires Valid(before) && DistinctCodes(payload) && Updates(before, start, payload, after)
    requires code !in Codes(payload)
    ensures AsOf(after, code, d) == if InSpan(before, code, start, d) then {} else AsOf(before, code, d)
  {
    var closed := Closed(before, start, Codes(payload), before.Keys);
    ClosedAnswers(before, start, Codes(payload), code, d);
    InstallsAllKeepsOthers(closed, payload, start, after, code);
    SameVersionsAnswer(closed, after, code, start, d);
  }

  /**
   A code of the payload: nothing changes before `start` or from the next version on. In
   between the new rule is in force; where a version of the same day existed, the new rule
   takes over exactly the days that version covered.
   */
  lemma PayloadAnswers(before: Table, start: Day, payload: seq<NewRule>, after: Table, k: nat, d: Day)
    requires Valid(before) && DistinctCodes(payload) && Updates(before, start, payload, after) && k < |payload|
    ensures AsOf(after, payload[k].code, d) == InstalledAnswer(before, payload[k], start, d)
  {
    var codes := Codes(payload);
    var closed := Closed(before, start, codes, before.Keys);
    ClosedIsValid(before, start, codes);
    forall i | 0 <= i < |payload|
      ensures Ready(closed, payload[i].code, start)
    {
      ClosedIsReady(before, start, codes, payload[i].code);
    }
    assert payload[k] in payload;
    InstallsAllAnswers(closed, payload, start, after, k, d);
    ClosedKeepsPlan(before, start, codes, payload[k].code, d);
    ClosedAnswers(before, start, codes, payload[k].code, d);
  }

  /** An update never rewrites the past: every as-of answer before its start day is kept. */
  lemma PastIsKept(before: Table, start: Day, payload: seq<NewRule>, after: Table, code: Code, d: Day)
    requires Valid(before) && DistinctCodes(payload) && Updates(before, start, payload, after) && d < start
    ensures AsOf(after, code, d) == AsOf(before, code, d)
  {
    if code in Codes(payload) {
      var r :| r in payload && r.code == code;
      var k :| 0 <= k < |payload| && payload[k] == r;
      PayloadAnswers(before, start, payload, after, k, d);
    } else {
      RetiredAnswers(before, start, payload, after, code, d);
    }
  }

  datatype Update = Update(start: Day, payload: seq<NewRule>)

  ghost predicate IsRun(before: Table, updates: seq<Update>, after: Table)
    decreases |updates|
  {
    if updates == [] then before == after
    else exists mid ::
           DistinctCodes(updates[0].payload) && Updates(before, updates[0].start, updates[0].payload, mid)
           && IsRun(mid, updates[1..], after)
  }

  /** Over any sequence of updates: disjoint versions, and days before every start keep their answers. */
  lemma {:induction false} RunKeepsTimeline(before: Table, updates: seq<Update>, after: Table, code: Code, d: Day)
    requires Valid(before) && IsRun(before, updates, after)
    ensures Valid(after) && OneInForce(after)
    ensures (forall i :: 0 <= i < |updates| ==> d < updates[i].start) ==> AsOf(after, code, d) == AsOf(before, code, d)
    decreases |updates|
  {
    if updates != [] {
      var u := updates[0];
      var mid :| Updates(before, u.start, u.payload, mid) && DistinctCodes(u.payload)
          && IsRun(mid, updates[1..], after);
      UpdateIsValid(before, u.start, u.payload, mid);
      RunKeepsTimeline(mid, updates[1..], after, code, d);
      if forall i :: 0 <= i < |updates| ==> d < updates[i].start {
        PastIsKept(before, u.start, u.payload, mid, code, d);
        assert forall i :: 0 <= i < |updates[1..]| ==> updates[1..][i] == updates[i + 1];
      }
    }
    ValidIffOneInForce(after);
  }

  // ---------------------------------------------------------------------------
  // The transaction

  function IdsOf(ids: seq<Id>): set<Id> {
    set id | id in ids
  }

  lemma InstallOneMore(before: Table, payload: seq<NewRule>, start: Day, i: nat, mid: Table, after: Table)
    requires i < |payload| && InstallsAll(before, payload[..i], start, mid) && Installs(mid, payload[i], start, after)
    ensures InstallsAll(before, payload[..i + 1], start, after)
  {
    assert Front(payload[..i + 1]) == payload[..i];
    assert Last(payload[..i + 1]) == payload[i];
  }

  /** The rows read at the start still tell whether a version of the day exists when its rule is reached. */
  lemma SnapshotStillTells(snapshot: Table, payload: seq<NewRule>, start: Day, i: nat, rows: Table)
    requires Valid(snapshot) && DistinctCodes(payload) && i < |payload|
    requires InstallsAll(Closed(snapshot, start, Codes(payload), snapshot.Keys), payload[..i], start, rows)
    ensures Ready(rows, payload[i].code, start)
    ensures HasSameDay(rows, payload[i].code, start) <==> HasSameDay(snapshot, payload[i].code, start)
    ensures forall id :: id in snapshot && SameDay(snapshot[id], payload[i].code, start) ==>
              id in rows && rows[id] == snapshot[id]
  {
    var codes, code := Codes(payload), payload[i].code;
    var closed := Closed(snapshot, start, codes, snapshot.Keys);
    assert payload[i] in payload;
    InstallsAllKeepsOthers(closed, payload[..i], start, rows, code);
    ClosedIsReady(snapshot, start, codes, code);
    ClosedKeepsPlan(snapshot, start, codes, code, start);
    SameVersionsAnswer(closed, rows, code, start, start);
    forall id | id in snapshot && SameDay(snapshot[id], code, start)
      ensures id in rows && rows[id] == snapshot[id]
    {
      assert id in closed && closed[id] == snapshot[id];
    }
  }

  lemma CloseOneMore(rows: Table, start: Day, codes: set<Code>, done: set<Id>, id: Id)
    requires id in rows && id !in done
    ensures var before := Closed(rows, start, codes, done);
            && id in before && before[id] == rows[id]
            && Closed(rows, start, codes, done + {id}) ==
                 if !Touched(rows[id], start, codes) then before
                 else if rows[id].from == start then before - {id}
                 else before[id := rows[id].(to := Some(start - 1))]
  {
  }

  class RuleStore {
    var rows: Table
    var nextId: Id

    ghost predicate Consistent()
      reads this
    {
      Valid(rows) && forall id :: id in rows ==> id < nextId
    }

    constructor ()
      ensures Consistent() && rows == map[]
    {
      rows, nextId := map[], 0;
    }

    /** `findMany` of the versions in force on the start day. */
    method ListActive(start: Day) returns (active: seq<Id>)
      ensures forall id :: id in active <==> id in rows && rows[id].ActiveOn(start)
      ensures forall i, j :: 0 <= i < j < |active| ==> active[i] != active[j]
    {
      active := [];
      var left := rows.Keys;
      while left != {}
        invariant left <= rows.Keys
        invariant forall id :: id in active <==> id in rows && id !in left && rows[id].ActiveOn(start)
        invariant forall i, j :: 0 <= i < j < |active| ==> active[i] != active[j]
        decreases left
      {
        var id :| id in left;
        left := left - {id};
        if rows[id].ActiveOn(start) {
          active := active + [id];
        }
      }
    }

    /** `findFirst` of the next version, by ascending start. */
    method FindNext(code: Code, start: Day) returns (next: Option<Day>)
      ensures IsNextStart(rows, code, start, next)
    {
      next := None;
      var left := rows.Keys;
      while left != {}
        invariant left <= rows.Keys
        invariant forall id :: id in rows && id !in left && rows[id].code == code && rows[id].from > start ==>
                    next.Some? && next.value <= rows[id].from
        invariant next.Some? ==> next.value > start
        invariant next.Some? ==> exists id :: id in rows && rows[id].code == code && rows[id].from == next.value
        decreases left
      {
        var id :| id in left;
        left := left - {id};
        if rows[id].code == code && rows[id].from > start && (next.None? || rows[id].from < next.value) {
          next := Some(rows[id].from);
        }
      }
    }

    method CloseActive(start: Day, codes: set<Code>, active: seq<Id>)
      requires forall id :: id in active <==> id in rows && rows[id].ActiveOn(start)
      requires forall i, j :: 0 <= i < j < |active| ==> active[i] != active[j]
      modifies this`rows
      ensures rows == Closed(old(rows), start, codes, old(rows).Keys)
    {
      var snapshot := rows;
      for i := 0 to |active|
        invariant rows == Closed(snapshot, start, codes, IdsOf(active[..i]))
      {
        var id := active[i];
        assert id in active && id !in active[..i];
        var current := snapshot[id];
        assert id in rows && rows[id] == current;
        if current.code !in codes || current.from < start {
          if current.from == start {
            rows := rows - {id};
          } else {
            rows := rows[id := rows[id].(to := Some(start - 1))];
          }
        }
        assert active[..i + 1] == active[..i] + [id];
        assert IdsOf(active[..i + 1]) == IdsOf(active[..i]) + {id};
        CloseOneMore(snapshot, start, codes, IdsOf(active[..i]), id);
      }
      assert active[..|active|] == active;
      assert Closed(snapshot, start, codes, IdsOf(active)) == Closed(snapshot, start, codes, snapshot.Keys);
    }

    /** One rule of the payload: rewrite the version of the same day, or create a version. */
    method Install(rule: NewRule, start: Day, sameDay: Option<Id>)
      requires Consistent() && Ready(rows, rule.code, start)
      requires sameDay.Some? ==> sameDay.value in rows && SameDay(rows[sameDay.value], rule.code, start)
      requires sameDay.None? ==> !HasSameDay(rows, rule.code, start)
      modifies this
      ensures Consistent() && Installs(old(rows), rule, start, rows)
    {
      ghost var before := rows;
      match sameDay {
        case Some(id) =>
          rows := rows[id := rows[id].(content := rule.content)];
          assert rows == Rewritten(before, rule, start) by {
            forall k | k in before && k != id
              ensures !SameDay(before[k], rule.code, start)
            {
              assert Apart(before[k], before[id]);
            }
          }
        case None =>
          var next := FindNext(rule.code, start);
          rows := rows[nextId := Version(rule, start, next)];
          assert Creates(before, rule, start, rows, nextId, next);
          nextId := nextId + 1;
      }
      InstallIsValid(before, rule, start, rows);
    }

    /** `PUT /rules`: refuse a repeated code, then close what is in force and install the payload. */
    method PutRules(start: Day, payload: seq<NewRule>) returns (ok: bool)
      requires Consistent()
      modifies this
      ensures Consistent() && (ok <==> DistinctCodes(payload))
      ensures if ok then Updates(old(rows), start, payload, rows) else rows == old(rows)
    {
      SizeTellsRepeats(payload);
      if |set r | r in payload :: r.code| != |payload| {
        return false;
      }
      ok := true;
      var snapshot := rows;
      ghost var codes := Codes(payload);
      var active := ListActive(start);
      CloseActive(start, set r | r in payload :: r.code, active);
      ghost var closed := rows;
      ClosedIsValid(snapshot, start, codes);
      for i := 0 to |payload|
        invariant Consistent() && InstallsAll(closed, payload[..i], start, rows)
      {
        ghost var before := rows;
        SnapshotStillTells(snapshot, payload, start, i, rows);
        var sameDay := FindSameDay(snapshot, active, payload[i].code, start);
        Install(payload[i], start, sameDay);
        InstallOneMore(closed, payload, start, i, before, rows);
      }
      assert payload[..|payload|] == payload;
    }
  }

  /** `activeAtStart.find(...)`: the version in force that starts on the start day. */
  method FindSameDay(snapshot: Table, active: seq<Id>, code: Code, start: Day) returns (found: Option<Id>)
    requires Valid(snapshot) && forall id :: id in active <==> id in snapshot && snapshot[id].ActiveOn(start)
    ensures found.Some? ==> found.value in snapshot && SameDay(snapshot[found.value], code, start)
    ensures found.None? ==> !HasSameDay(snapshot, code, start)
  {
    for i := 0 to |active|
      invariant forall j :: 0 <= j < i ==> !SameDay(snapshot[active[j]], code, start)
    {
      assert active[i] in active;
      if SameDay(snapshot[active[i]], code, start) {
        return Some(active[i]);
      }
    }
    forall id | id in snapshot && id in active
      ensures !SameDay(snapshot[id], code, start)
    {
      var j :| 0 <= j < |active| && active[j] == id;
    }
    return None;
  }
}
