/**
 Planned labor cost of a week (src/routes/shift-planning.ts): one pass over the assignments
 accumulates minutes per employee, overtime exposure, totals and day/department/location
 rows; budgets are then compared with the rows. Amounts are exact rationals.
 */
module LaborCost {
  import opened Optional

  type User = nat
  type Day = int

  datatype Break = Break(minutes: int, paid: bool)
  datatype Shift = Shift(start: int, end: int, breaks: seq<Break>, overtimeEnabled: bool, multiplier: real)

  datatype Basis = Hourly | Daily | Monthly
  datatype PayRate = PayRate(from: Day, to: Option<Day>, basis: Basis, amount: real) {
    predicate InForce(d: Day) { from <= d && (to.None? || to.value >= d) }
  }

  datatype Assignment = Assignment(
    user: User, day: Day, date: string, shift: Shift, rates: seq<PayRate>, hourlyRate: real,
    department: Option<string>, location: Option<string>, published: bool)

  const THRESHOLD := 48 * 60

  function Max(a: int, b: int): int { if a >= b then a else b }

  function MaxReal(a: real, b: real): real { if a >= b then a else b }

  function Unpaid(breaks: seq<Break>): int {
    if breaks == [] then 0
    else Unpaid(breaks[..|breaks| - 1]) + if breaks[|breaks| - 1].paid then 0 else breaks[|breaks| - 1].minutes
  }

  function ShiftMinutes(s: Shift): (m: int)
    ensures m >= 0
  {
    var duration := s.end - s.start;
    Max(0, (if duration <= 0 then duration + 1440 else duration) - Unpaid(s.breaks))
  }

  function Minutes(a: Assignment): int { ShiftMinutes(a.shift) }

  /** The first listed rate in force on the day. */
  function EffectiveRate(rates: seq<PayRate>, d: Day): (r: Option<PayRate>)
    ensures r.None? ==> forall i :: 0 <= i < |rates| ==> !rates[i].InForce(d)
    ensures r.Some? ==> exists i :: 0 <= i < |rates| && rates[i] == r.value && r.value.InForce(d)
                                    && forall j :: 0 <= j < i ==> !rates[j].InForce(d)
  {
    if rates == [] then None
    else if rates[0].InForce(d) then Some(rates[0])
    else
      var rest := EffectiveRate(rates[1..], d);
      assert rest.Some? ==> exists i :: 1 <= i < |rates| && rates[i] == rest.value && rest.value.InForce(d)
                                        && forall j :: 0 <= j < i ==> !rates[j].InForce(d) by {
        if rest.Some? {
          var k :| 0 <= k < |rates[1..]| && rates[1..][k] == rest.value && rest.value.InForce(d)
                   && forall j :: 0 <= j < k ==> !rates[1..][j].InForce(d);
          assert rates[k + 1] == rest.value;
          assert forall j :: 1 <= j < k + 1 ==> rates[j] == rates[1..][j - 1];
        }
      }
      rest
  }

  /** Amount per hour; `divisor` is the monthly divisor, at least one. */
  function Rate(a: Assignment, divisor: real): real
    requires divisor >= 1.0
  {
    match EffectiveRate(a.rates, a.day)
    case None => a.hourlyRate
    case Some(r) =>
      match r.basis
      case Hourly => r.amount
      case Daily => r.amount / 8.0
      case Monthly => r.amount / divisor / 8.0
  }

  function Over(minutes: int): int { Max(0, minutes - THRESHOLD) }

  /** Overtime minutes an assignment adds to an employee who already has `before` minutes. */
  function Increment(before: int, minutes: int): int { Over(before + minutes) - Over(before) }

  function Cost(a: Assignment, before: int, divisor: real): real
    requires divisor >= 1.0
  {
    var multiplier := if a.shift.multiplier == 0.0 then 1.5 else a.shift.multiplier;
    var overtime := Increment(before, Minutes(a)) as real / 60.0;
    Rate(a, divisor) *
      (Minutes(a) as real / 60.0 + if a.shift.overtimeEnabled then overtime * MaxReal(0.0, multiplier - 1.0) else 0.0)
  }

  /** What an assignment costs after a number of minutes the employee already has. */
  type Price = (Assignment, int) -> real

  function PriceOf(divisor: real): Price
    requires divisor >= 1.0
  {
    (a: Assignment, before: int) => Cost(a, before, divisor)
  }

  // ---------------------------------------------------------------------------
  // Sums over maps

  ghost function Sum<K(!new), V>(m: map<K, V>, f: V -> real): real {
    if m == map[] then 0.0 else
      var k :| k in m;
      f(m[k]) + Sum(m - {k}, f)
  }

  /** Any entry may be taken out first. */
  lemma {:induction false} SumPull<K(!new), V>(m: map<K, V>, f: V -> real, k: K)
    requires k in m
    ensures Sum(m, f) == f(m[k]) + Sum(m - {k}, f)
    decreases |m|
  {
    var p :| p in m && Sum(m, f) == f(m[p]) + Sum(m - {p}, f);
    if p != k {
      SumPull(m - {p}, f, k);
      SumPull(m - {k}, f, p);
      assert m - {p} - {k} == m - {k} - {p};
    }
  }

  lemma SumPut<K(!new), V>(m: map<K, V>, f: V -> real, k: K, v: V)
    ensures Sum(m[k := v], f) == Sum(m, f) - (if k in m then f(m[k]) else 0.0) + f(v)
  {
    SumPull(m[k := v], f, k);
    if k in m {
      SumPull(m, f, k);
      assert m[k := v] - {k} == m - {k};
    } else {
      assert m[k := v] - {k} == m;
    }
  }

  // ---------------------------------------------------------------------------
  // Reference sums over the list

  /** Minutes of one employee. */
  function UserMinutes(s: seq<Assignment>, u: User): int {
    if s == [] then 0
    else UserMinutes(s[..|s| - 1], u) + if s[|s| - 1].user == u then Minutes(s[|s| - 1]) else 0
  }

  /** Cost of the assignments selected by `pick`, each priced after the ones listed before it. */
  function ListCost(s: seq<Assignment>, price: Price, pick: Assignment -> bool): real
  {
    if s == [] then 0.0
    else
      var n := |s| - 1;
      ListCost(s[..n], price, pick) + if pick(s[n]) then price(s[n], UserMinutes(s[..n], s[n].user)) else 0.0
  }

  function ListMinutes(s: seq<Assignment>): int {
    if s == [] then 0 else ListMinutes(s[..|s| - 1]) + Minutes(s[|s| - 1])
  }

  lemma {:induction false} ListCostSplits(s: seq<Assignment>, price: Price)
    ensures ListCost(s, price, (a: Assignment) => true) ==
            ListCost(s, price, (a: Assignment) => a.published) + ListCost(s, price, (a: Assignment) => !a.published)
  {
    if s != [] {
      ListCostSplits(s[..|s| - 1], price);
    }
  }

  // ---------------------------------------------------------------------------
  // Rows and their composite key

  datatype Row = Row(date: string, department: Option<string>, location: Option<string>, minutes: int, projected: real,
                     published: real, draft: real)

  function OrEmpty(s: Option<string>): string { if s.None? then "" else s.value }

  function Key(date: string, department: Option<string>, location: Option<string>): string {
    date + ":" + OrEmpty(department) + ":" + OrEmpty(location)
  }

  function KeyOf(a: Assignment): string { Key(a.date, a.department, a.location) }

  /** Dates and location ids contain no colon; departments may. */
  ghost predicate CleanKeys(s: seq<Assignment>) {
    forall i :: 0 <= i < |s| ==> ':' !in s[i].date && ':' !in OrEmpty(s[i].location)
  }

  /** The colon of the shorter split falls inside the longer left part, or the longer right part. */
  lemma ColonFalls(a: string, b: string, c: string, d: string)
    requires a + ":" + b == c + ":" + d && |a| < |c|
    ensures ':' in c && ':' in b
  {
    var x := a + ":" + b;
    assert x[|a|] == ':' && x[|a|] == c[|a|];
    assert (c + ":" + d)[|c|] == ':';
    assert x[|c|] == b[|c| - |a| - 1];
  }

  lemma SameSplit(a: string, b: string, c: string, d: string)
    requires a + ":" + b == c + ":" + d && |a| == |c|
    ensures a == c && b == d
  {
    var x := a + ":" + b;
    assert a == x[..|a|] && c == x[..|c|];
    assert b == x[|a| + 1..] && d == x[|c| + 1..];
  }

  lemma FirstColon(a: string, b: string, c: string, d: string)
    requires a + ":" + b == c + ":" + d && ':' !in a && ':' !in c
    ensures a == c && b == d
  {
    if |a| < |c| {
      ColonFalls(a, b, c, d);
    } else if |c| < |a| {
      ColonFalls(c, d, a, b);
    } else {
      SameSplit(a, b, c, d);
    }
  }

  lemma LastColon(a: string, b: string, c: string, d: string)
    requires a + ":" + b == c + ":" + d && ':' !in b && ':' !in d
    ensures a == c && b == d
  {
    if |a| < |c| {
      ColonFalls(a, b, c, d);
    } else if |c| < |a| {
      ColonFalls(c, d, a, b);
    } else {
      SameSplit(a, b, c, d);
    }
  }

  /** Equal keys come from the same day, department and location, a missing one counting as empty. */
  lemma KeyIsInjective(date: string, department: Option<string>, location: Option<string>,
                       date': string, department': Option<string>, location': Option<string>)
    requires ':' !in date && ':' !in OrEmpty(location) && ':' !in date' && ':' !in OrEmpty(location')
    requires Key(date, department, location) == Key(date', department', location')
    ensures date == date' && OrEmpty(department) == OrEmpty(department') && OrEmpty(location) == OrEmpty(location')
  {
    var p := OrEmpty(department) + ":" + OrEmpty(location);
    var q := OrEmpty(department') + ":" + OrEmpty(location');
    assert Key(date, department, location) == date + ":" + p;
    assert Key(date', department', location') == date' + ":" + q;
    FirstColon(date, p, date', q);
    LastColon(OrEmpty(department), OrEmpty(location), OrEmpty(department'), OrEmpty(location'));
  }

  // ---------------------------------------------------------------------------
  // The loop

  datatype Totals = Totals(minutes: map<User, int>, rows: map<string, Row>, overtime: int, projected: real,
                           published: real, draft: real)

  function RowOf(rows: map<string, Row>, a: Assignment): Row {
    if KeyOf(a) in rows then rows[KeyOf(a)] else Row(a.date, a.department, a.location, 0, 0.0, 0.0, 0.0)
  }

  function Charged(row: Row, a: Assignment, cost: real): Row {
    row.(minutes := row.minutes + Minutes(a), projected := row.projected + cost,
         published := if a.published then row.published + cost else row.published,
         draft := if a.published then row.draft else row.draft + cost)
  }

  /** What a budget asks of a row or an assignment; an empty wish matches everything. */
  datatype Budget = Budget(department: string, location: string) {
    predicate Wants(dept: Option<string>, loc: Option<string>) {
      (location == "" || loc == Some(location)) && (department == "" || dept == Some(department))
    }
  }

  function Spend(b: Budget): Row -> real {
    (r: Row) => if b.Wants(r.department, r.location) then r.projected else 0.0
  }

  /** The assignments a budget is for. */
  function Asked(b: Budget): Assignment -> bool {
    (a: Assignment) =>
      (b.department == "" || a.department == Some(b.department)) && (b.location == "" || a.location == Some(b.location))
  }

  const PROJECTED := (r: Row) => r.projected
  const PUBLISHED := (r: Row) => r.published
  const DRAFT := (r: Row) => r.draft
  const MINUTES := (r: Row) => r.minutes as real
  const OVERTIME := (m: int) => Over(m) as real

  /** Minutes on record for every employee, zero for one not seen yet. */
  function Recorded(minutes: map<User, int>, u: User): int { if u in minutes then minutes[u] else 0 }

  /** Every row is filed under its own key, and its parts are as clean as the list's. */
  ghost predicate Filed(rows: map<string, Row>) {
    forall k :: k in rows ==>
      && k == Key(rows[k].date, rows[k].department, rows[k].location)
      && ':' !in rows[k].date && ':' !in OrEmpty(rows[k].location)
  }

  /** One turn of the loop. */
  function Charge(t: Totals, a: Assignment, price: Price): Totals
  {
    var before := Recorded(t.minutes, a.user);
    var cost := price(a, before);
    Totals(t.minutes[a.user := before + Minutes(a)],
           t.rows[KeyOf(a) := Charged(RowOf(t.rows, a), a, cost)],
           t.overtime + Increment(before, Minutes(a)),
           t.projected + cost,
           if a.published then t.published + cost else t.published,
           if a.published then t.draft else t.draft + cost)
  }

  // The parts of the loop invariant: `t` is what the list `s` adds up to.

  ghost predicate MinutesOk(t: Totals, s: seq<Assignment>) {
    && (forall u :: Recorded(t.minutes, u) == UserMinutes(s, u))
    && forall u :: u in t.minutes <==> exists i :: 0 <= i < |s| && s[i].user == u
  }

  ghost predicate OvertimeOk(t: Totals) { t.overtime as real == Sum(t.minutes, OVERTIME) }

  ghost predicate CostsOk(t: Totals, s: seq<Assignment>, price: Price)
  {
    && t.projected == ListCost(s, price, (a: Assignment) => true)
    && t.published == ListCost(s, price, (a: Assignment) => a.published)
    && t.draft == ListCost(s, price, (a: Assignment) => !a.published)
  }

  ghost predicate RowsOk(t: Totals, s: seq<Assignment>) {
    && t.projected == Sum(t.rows, PROJECTED) && t.published == Sum(t.rows, PUBLISHED)
    && t.draft == Sum(t.rows, DRAFT) && ListMinutes(s) as real == Sum(t.rows, MINUTES)
  }

  ghost predicate BudgetOk(t: Totals, s: seq<Assignment>, price: Price, b: Budget)
  {
    Sum(t.rows, Spend(b)) == ListCost(s, price, Asked(b))
  }

  lemma MinutesKept(t: Totals, s: seq<Assignment>, a: Assignment, price: Price)
    requires MinutesOk(t, s)
    ensures MinutesOk(Charge(t, a, price), s + [a])
  {
    assert (s + [a])[..|s|] == s;
    var after := Charge(t, a, price);
    forall u
      ensures u in after.minutes <==> exists i :: 0 <= i < |s + [a]| && (s + [a])[i].user == u
    {
      if i :| 0 <= i < |s| && s[i].user == u {
        assert (s + [a])[i].user == u;
      }
      assert (s + [a])[|s|] == a;
    }
  }

  /** The increments telescope: the running sum is always the excess of every employee's minutes. */
  lemma OvertimeKept(t: Totals, a: Assignment, price: Price)
    requires OvertimeOk(t)
    ensures OvertimeOk(Charge(t, a, price))
  {
    SumPut(t.minutes, OVERTIME, a.user, Recorded(t.minutes, a.user) + Minutes(a));
  }

  lemma CostsKept(t: Totals, s: seq<Assignment>, a: Assignment, price: Price)
    requires MinutesOk(t, s) && CostsOk(t, s, price)
    ensures CostsOk(Charge(t, a, price), s + [a], price)
  {
    assert (s + [a])[..|s|] == s;
  }

  lemma RowsKept(t: Totals, s: seq<Assignment>, a: Assignment, price: Price)
    requires RowsOk(t, s)
    ensures RowsOk(Charge(t, a, price), s + [a])
  {
    assert (s + [a])[..|s|] == s;
    var row := Charged(RowOf(t.rows, a), a, price(a, Recorded(t.minutes, a.user)));
    SumPut(t.rows, PROJECTED, KeyOf(a), row);
    SumPut(t.rows, PUBLISHED, KeyOf(a), row);
    SumPut(t.rows, DRAFT, KeyOf(a), row);
    SumPut(t.rows, MINUTES, KeyOf(a), row);
  }

  lemma FiledKept(t: Totals, a: Assignment, price: Price)
    requires Filed(t.rows) && ':' !in a.date && ':' !in OrEmpty(a.location)
    ensures Filed(Charge(t, a, price).rows)
  {
    var row := RowOf(t.rows, a);
    assert KeyOf(a) == Key(row.date, row.department, row.location);
  }

  /** A row and the assignment charged to it are wanted by the same budgets. */
  lemma RowStandsForAssignment(rows: map<string, Row>, a: Assignment, b: Budget)
    requires Filed(rows) && ':' !in a.date && ':' !in OrEmpty(a.location)
    ensures b.Wants(RowOf(rows, a).department, RowOf(rows, a).location) <==> b.Wants(a.department, a.location)
  {
    if KeyOf(a) in rows {
      var row := rows[KeyOf(a)];
      KeyIsInjective(row.date, row.department, row.location, a.date, a.department, a.location);
    }
  }

  lemma BudgetKept(t: Totals, s: seq<Assignment>, a: Assignment, price: Price, b: Budget)
    requires MinutesOk(t, s) && Filed(t.rows) && BudgetOk(t, s, price, b)
    requires ':' !in a.date && ':' !in OrEmpty(a.location)
    ensures BudgetOk(Charge(t, a, price), s + [a], price, b)
  {
    assert (s + [a])[..|s|] == s;
    var row := Charged(RowOf(t.rows, a), a, price(a, Recorded(t.minutes, a.user)));
    SumPut(t.rows, Spend(b), KeyOf(a), row);
    RowStandsForAssignment(t.rows, a, b);
  }

  const ZERO := Totals(map[], map[], 0, 0.0, 0.0, 0.0)

  function TotalsOf(s: seq<Assignment>, price: Price): Totals
  {
    if s == [] then ZERO else Charge(TotalsOf(s[..|s| - 1], price), s[|s| - 1], price)
  }

  lemma TotalsOfGrows(s: seq<Assignment>, price: Price, i: nat)
    requires i < |s|
    ensures TotalsOf(s[..i + 1], price) == Charge(TotalsOf(s[..i], price), s[i], price)
  {
    assert s[..i + 1][..i] == s[..i];
  }

  /** One turn of the loop, on the accumulators held in `t`. */
  method ChargeOne(t: Totals, a: Assignment, divisor: real) returns (after: Totals)
    requires divisor >= 1.0
    ensures after == Charge(t, a, PriceOf(divisor))
  {
    var cumulative := Recorded(t.minutes, a.user);
    var cost := Cost(a, cumulative, divisor);
    var overtime := t.overtime + Increment(cumulative, Minutes(a));
    var minutes := t.minutes[a.user := cumulative + Minutes(a)];
    var rows := t.rows[KeyOf(a) := Charged(RowOf(t.rows, a), a, cost)];
    var projected, published, draft := t.projected + cost, t.published, t.draft;
    if a.published {
      published := published + cost;
    } else {
      draft := draft + cost;
    }
    after := Totals(minutes, rows, overtime, projected, published, draft);
  }

  /** The loop of GET /cost. */
  method Accumulate(s: seq<Assignment>, divisor: real) returns (t: Totals)
    requires divisor >= 1.0
    ensures t == TotalsOf(s, PriceOf(divisor))
  {
    t := ZERO;
    for i := 0 to |s|
      invariant t == TotalsOf(s[..i], PriceOf(divisor))
    {
      TotalsOfGrows(s, PriceOf(divisor), i);
      t := ChargeOne(t, s[i], divisor);
    }
    assert s[..|s|] == s;
  }

  lemma {:induction false} MinutesAddUp(s: seq<Assignment>, price: Price)
    ensures MinutesOk(TotalsOf(s, price), s)
  {
    if s != [] {
      var n := |s| - 1;
      MinutesAddUp(s[..n], price);
      MinutesKept(TotalsOf(s[..n], price), s[..n], s[n], price);
      assert s[..n] + [s[n]] == s;
    }
  }

  lemma {:induction false} OvertimeAddsUp(s: seq<Assignment>, price: Price)
    ensures OvertimeOk(TotalsOf(s, price))
  {
    if s != [] {
      var n := |s| - 1;
      OvertimeAddsUp(s[..n], price);
      OvertimeKept(TotalsOf(s[..n], price), s[n], price);
    }
  }

  lemma {:induction false} CostsAddUp(s: seq<Assignment>, price: Price)
    ensures CostsOk(TotalsOf(s, price), s, price)
  {
    if s != [] {
      var n := |s| - 1;
      CostsAddUp(s[..n], price);
      MinutesAddUp(s[..n], price);
      CostsKept(TotalsOf(s[..n], price), s[..n], s[n], price);
      assert s[..n] + [s[n]] == s;
    }
  }

  /**
   For any list in any order: minutes are those of each employee, overtime increments telescope
   to the excess over 48 hours, and totals are the list's own sums.
   */
  lemma TotalsAddUp(s: seq<Assignment>, price: Price)
    ensures MinutesOk(TotalsOf(s, price), s) && OvertimeOk(TotalsOf(s, price))
    ensures CostsOk(TotalsOf(s, price), s, price)
    ensures TotalsOf(s, price).projected == TotalsOf(s, price).published + TotalsOf(s, price).draft
  {
    MinutesAddUp(s, price);
    OvertimeAddsUp(s, price);
    CostsAddUp(s, price);
    ListCostSplits(s, price);
  }

  /** The day/department/location rows add up to the same totals. */
  lemma {:induction false} RowsAddUp(s: seq<Assignment>, price: Price)
    ensures RowsOk(TotalsOf(s, price), s)
  {
    if s != [] {
      var n := |s| - 1;
      RowsAddUp(s[..n], price);
      RowsKept(TotalsOf(s[..n], price), s[..n], s[n], price);
      assert s[..n] + [s[n]] == s;
    }
  }

  lemma {:induction false} RowsAreFiled(s: seq<Assignment>, price: Price)
    requires CleanKeys(s)
    ensures Filed(TotalsOf(s, price).rows)
  {
    if s != [] {
      var n := |s| - 1;
      RowsAreFiled(s[..n], price);
      FiledKept(TotalsOf(s[..n], price), s[n], price);
    }
  }

  /**
   What a budget is compared with, read off the rows, is exactly the cost of the assignments
   of its department and location.
   */
  lemma {:induction false} BudgetSeesItsAssignments(s: seq<Assignment>, price: Price, b: Budget)
    requires CleanKeys(s)
    ensures BudgetOk(TotalsOf(s, price), s, price, b)
  {
    if s != [] {
      var n := |s| - 1;
      BudgetSeesItsAssignments(s[..n], price, b);
      RowsAreFiled(s[..n], price);
      MinutesAddUp(s[..n], price);
      BudgetKept(TotalsOf(s[..n], price), s[..n], s[n], price, b);
      assert s[..n] + [s[n]] == s;
    }
  }

  // ---------------------------------------------------------------------------
  // Each row on its own

  /** The assignments of a day, department and location, a missing one counting as empty. */
  function OfRow(k: string): Assignment -> bool {
    (a: Assignment) => a.date + ":" + OrEmpty(a.department) + ":" + OrEmpty(a.location) == k
  }

  function OfRowAs(k: string, published: bool): Assignment -> bool {
    (a: Assignment) => OfRow(k)(a) && a.published == published
  }

  function MinutesWhere(s: seq<Assignment>, pick: Assignment -> bool): int {
    if s == [] then 0
    else MinutesWhere(s[..|s| - 1], pick) + if pick(s[|s| - 1]) then ShiftMinutes(s[|s| - 1].shift) else 0
  }

  /** A row exists if and only if it has an assignment, and holds the sums over its assignments. */
  ghost predicate RowExact(rows: map<string, Row>, s: seq<Assignment>, price: Price, k: string) {
    && (k in rows <==> exists i :: 0 <= i < |s| && OfRow(k)(s[i]))
    && (k !in rows ==> MinutesWhere(s, OfRow(k)) == 0 && ListCost(s, price, OfRow(k)) == 0.0)
    && (k !in rows ==> ListCost(s, price, OfRowAs(k, true)) == 0.0 && ListCost(s, price, OfRowAs(k, false)) == 0.0)
    && (k in rows ==>
          && rows[k].minutes == MinutesWhere(s, OfRow(k)) && rows[k].projected == ListCost(s, price, OfRow(k))
          && rows[k].published == ListCost(s, price, OfRowAs(k, true))
          && rows[k].draft == ListCost(s, price, OfRowAs(k, false)))
  }

  lemma RowExactKept(t: Totals, s: seq<Assignment>, a: Assignment, price: Price, k: string)
    requires MinutesOk(t, s) && RowExact(t.rows, s, price, k)
    ensures RowExact(Charge(t, a, price).rows, s + [a], price, k)
  {
    var after := s + [a];
    assert after[..|s|] == s && after[|s|] == a;
    assert KeyOf(a) == k <==> OfRow(k)(a);
    if i :| 0 <= i < |s| && OfRow(k)(s[i]) {
      assert OfRow(k)(after[i]);
    }
    if i :| 0 <= i < |after| && OfRow(k)(after[i]) {
      assert i < |s| ==> OfRow(k)(s[i]);
    }
  }

  lemma {:induction false} RowsAreExact(s: seq<Assignment>, price: Price, k: string)
    ensures RowExact(TotalsOf(s, price).rows, s, price, k)
  {
    if s != [] {
      var n := |s| - 1;
      RowsAreExact(s[..n], price, k);
      MinutesAddUp(s[..n], price);
      RowExactKept(TotalsOf(s[..n], price), s[..n], s[n], price, k);
      assert s[..n] + [s[n]] == s;
    }
  }

  // ---------------------------------------------------------------------------
  // What an assignment costs

  /** The rate that counts is the first listed one in force on the day. */
  ghost predicate Counts(a: Assignment, r: PayRate) {
    exists i :: 0 <= i < |a.rates| && a.rates[i] == r && Spans(r, a.day)
                && forall j :: 0 <= j < i ==> !Spans(a.rates[j], a.day)
  }

  predicate Spans(r: PayRate, d: Day) {
    match r.to
    case None => r.from <= d
    case Some(last) => r.from <= d <= last
  }

  /**
   `hour` is what an hour pays: a daily rate pays eight of them, a monthly rate eight on each of
   `divisor` days, and the employee's hourly rate counts only if no rate is in force.
   */
  ghost predicate PaysPerHour(a: Assignment, divisor: real, hour: real) {
    || (exists r :: Counts(a, r) && r.amount == match r.basis
                                                case Hourly => hour
                                                case Daily => 8.0 * hour
                                                case Monthly => divisor * (8.0 * hour))
    || ((forall i :: 0 <= i < |a.rates| ==> !Spans(a.rates[i], a.day)) && a.hourlyRate == hour)
  }

  lemma RateIsPay(a: Assignment, divisor: real, hour: real)
    requires divisor >= 1.0
    ensures PaysPerHour(a, divisor, hour) <==> Rate(a, divisor) == hour
  {
    var found := EffectiveRate(a.rates, a.day);
    if found.Some? {
      assert Counts(a, found.value);
      forall r | Counts(a, r)
        ensures r == found.value
      {
        OneCounts(a, r, found.value);
      }
      Quotients(found.value.amount, divisor, hour);
    }
  }

  lemma OneCounts(a: Assignment, r: PayRate, q: PayRate)
    requires Counts(a, r) && Counts(a, q)
    ensures r == q
  {
  }

  lemma Quotients(amount: real, divisor: real, hour: real)
    requires divisor >= 1.0
    ensures amount / 8.0 == hour <==> amount == 8.0 * hour
    ensures amount / divisor / 8.0 == hour <==> amount == divisor * (8.0 * hour)
  {
    var day := amount / divisor;
    assert day * divisor == amount;
    if amount == divisor * (8.0 * hour) {
      assert divisor * (day - 8.0 * hour) == 0.0;
    }
  }

  /** The factor on overtime: 1.5 where none is set, and never less than one. */
  function Factor(s: Shift): real {
    if !s.overtimeEnabled then 1.0
    else if s.multiplier == 0.0 then 1.5
    else MaxReal(1.0, s.multiplier)
  }

  /** Minutes worked, and those beyond 48 hours once more at the factor less one. */
  function Weighted(before: int, minutes: int, factor: real): real {
    minutes as real + (factor - 1.0) * (Max(0, before + minutes - 2880) - Max(0, before - 2880)) as real
  }

  /** The price of an assignment, times 60, over plain numbers. */
  lemma PriceIs(rate: real, minutes: real, over: real, extra: real, cost: real)
    requires cost == rate * (minutes / 60.0 + over / 60.0 * extra)
    ensures 60.0 * cost == rate * (minutes + extra * over)
  {
    assert over / 60.0 * extra == extra * over / 60.0;
    assert minutes / 60.0 + extra * over / 60.0 == (minutes + extra * over) / 60.0;
  }

  lemma CostIs(a: Assignment, before: int, divisor: real, hour: real)
    requires divisor >= 1.0 && Rate(a, divisor) == hour
    ensures 60.0 * Cost(a, before, divisor) == hour * Weighted(before, ShiftMinutes(a.shift), Factor(a.shift))
  {
    PriceIs(hour, Minutes(a) as real, Increment(before, Minutes(a)) as real, Factor(a.shift) - 1.0,
            Cost(a, before, divisor));
  }

  /** What the loop adds for an assignment, times 60: the weighted minutes at the pay of an hour. */
  lemma PayOfAssignment(a: Assignment, before: int, divisor: real, hour: real)
    requires divisor >= 1.0 && PaysPerHour(a, divisor, hour)
    ensures 60.0 * PriceOf(divisor)(a, before) == hour * Weighted(before, ShiftMinutes(a.shift), Factor(a.shift))
  {
    assert Rate(a, divisor) == hour by {
      RateIsPay(a, divisor, hour);
    }
    CostIs(a, before, divisor, hour);
  }

  /** All of one employee, at one pay and one factor. */
  ghost predicate Uniform(s: seq<Assignment>, divisor: real, u: User, hour: real, factor: real) {
    forall i :: 0 <= i < |s| ==>
      s[i].user == u && PaysPerHour(s[i], divisor, hour) && Factor(s[i].shift) == factor
  }

  /** An assignment priced at its weighted minutes. */
  ghost predicate Priced(a: Assignment, price: Price, hour: real, factor: real) {
    forall before :: 60.0 * price(a, before) == hour * Weighted(before, ShiftMinutes(a.shift), factor)
  }

  lemma TurnAdds(s: seq<Assignment>, price: Price, u: User, i: nat)
    requires i < |s| && s[i].user == u
    ensures TotalsOf(s[..i + 1], price).projected
            == TotalsOf(s[..i], price).projected + price(s[i], UserMinutes(s[..i], u))
    ensures UserMinutes(s[..i + 1], u) == UserMinutes(s[..i], u) + ShiftMinutes(s[i].shift)
  {
    assert s[..i + 1][..i] == s[..i];
    MinutesAddUp(s[..i], price);
    assert Recorded(TotalsOf(s[..i], price).minutes, u) == UserMinutes(s[..i], u);
  }

  /** `paid` is what a week of `minutes` pays. */
  ghost predicate PaysWeek(paid: real, minutes: int, hour: real, factor: real) {
    60.0 * paid == hour * (minutes as real + (factor - 1.0) * Max(0, minutes - 2880) as real)
  }

  lemma PricedTurn(a: Assignment, price: Price, hour: real, factor: real, before: int, from: real, to: real)
    requires Priced(a, price, hour, factor) && to == from + price(a, before)
    requires PaysWeek(from, before, hour, factor)
    ensures PaysWeek(to, before + ShiftMinutes(a.shift), hour, factor)
  {
    PaysAdd(hour, factor, before, ShiftMinutes(a.shift), from, price(a, before));
  }

  /** The excess over 48 hours telescopes in the cost as well. */
  lemma {:induction false} PricedWeek(s: seq<Assignment>, price: Price, u: User, hour: real, factor: real, n: nat)
    requires n <= |s| && forall i :: 0 <= i < |s| ==> s[i].user == u && Priced(s[i], price, hour, factor)
    ensures PaysWeek(TotalsOf(s[..n], price).projected, UserMinutes(s[..n], u), hour, factor)
  {
    if n > 0 {
      PricedWeek(s, price, u, hour, factor, n - 1);
      TurnAdds(s, price, u, n - 1);
      PricedTurn(s[n - 1], price, hour, factor, UserMinutes(s[..n - 1], u),
                 TotalsOf(s[..n - 1], price).projected, TotalsOf(s[..n], price).projected);
    }
  }

  lemma PaysAdd(hour: real, factor: real, m: int, k: int, first: real, second: real)
    requires 60.0 * first == hour * (m as real + (factor - 1.0) * Max(0, m - 2880) as real)
    requires 60.0 * second == hour * Weighted(m, k, factor)
    ensures 60.0 * (first + second) == hour * ((m + k) as real + (factor - 1.0) * Max(0, m + k - 2880) as real)
  {
    var before, after := Max(0, m - 2880) as real, Max(0, m + k - 2880) as real;
    assert m as real + (factor - 1.0) * before + (k as real + (factor - 1.0) * (after - before))
        == (m + k) as real + (factor - 1.0) * after;
  }

  /** The week of one employee costs the minutes worked, and those beyond 48 hours at the factor. */
  lemma WeekPay(s: seq<Assignment>, divisor: real, u: User, hour: real, factor: real)
    requires divisor >= 1.0 && Uniform(s, divisor, u, hour, factor)
    ensures PaysWeek(TotalsOf(s, PriceOf(divisor)).projected, UserMinutes(s, u), hour, factor)
  {
    forall i | 0 <= i < |s|
      ensures s[i].user == u && Priced(s[i], PriceOf(divisor), hour, factor)
    {
      PricedByDivisor(s[i], divisor, hour);
    }
    PricedWeek(s, PriceOf(divisor), u, hour, factor, |s|);
    assert s[..|s|] == s;
  }

  lemma PricedByDivisor(a: Assignment, divisor: real, hour: real)
    requires divisor >= 1.0 && PaysPerHour(a, divisor, hour)
    ensures Priced(a, PriceOf(divisor), hour, Factor(a.shift))
  {
    forall before: int
      ensures 60.0 * PriceOf(divisor)(a, before) == hour * Weighted(before, ShiftMinutes(a.shift), Factor(a.shift))
    {
      PayOfAssignment(a, before, divisor, hour);
    }
  }

  /** A monthly rate of 26000 over 26 days pays 1000 for a shift from 09:00 to 17:00. */
  lemma MonthlyExample(user: User, published: bool)
    ensures var shift := Shift(540, 1020, [], true, 0.0);
            var rate := PayRate(0, None, Monthly, 26000.0);
            var a := Assignment(user, 0, "", shift, [rate], 7.0, None, None, published);
            TotalsOf([a], PriceOf(26.0)).projected == 1000.0
  {
    var rate := PayRate(0, None, Monthly, 26000.0);
    var a := Assignment(user, 0, "", Shift(540, 1020, [], true, 0.0), [rate], 7.0, None, None, published);
    assert a.rates[0] == rate;
    assert Counts(a, rate);
    assert [a][..0] == [];
    PayOfAssignment(a, 0, 26.0, 125.0);
    assert TotalsOf([a], PriceOf(26.0)) == Charge(ZERO, a, PriceOf(26.0));
  }

  // ---------------------------------------------------------------------------
  // What a shift lasts

  /** From start to end is the way around the clock, a full day if they are equal. */
  lemma ClockDistance(s: Shift, wall: int)
    requires 0 <= s.start < 1440 && 0 <= s.end < 1440
    requires 1 <= wall <= 1440 && (s.start + wall) % 1440 == s.end
    ensures ShiftMinutes(s) == Max(0, wall - Unpaid(s.breaks))
  {
  }

  /** Unpaid breaks add up in any order, and paid ones count for nothing. */
  lemma {:induction false} OneBreak(breaks: seq<Break>, k: nat)
    requires k < |breaks|
    ensures Unpaid([]) == 0
    ensures Unpaid(breaks) == Unpaid(breaks[..k] + breaks[k + 1..]) + if breaks[k].paid then 0 else breaks[k].minutes
  {
    var n := |breaks| - 1;
    if k == n {
      assert breaks[..k] + breaks[k + 1..] == breaks[..n];
    } else {
      OneBreak(breaks[..n], k);
      assert (breaks[..k] + breaks[k + 1..])[..n - 1] == breaks[..n][..k] + breaks[..n][k + 1..];
    }
  }

  // ---------------------------------------------------------------------------
  // Order does not matter for overtime

  lemma {:induction false} UserMinutesOfMultiset(s: seq<Assignment>, r: seq<Assignment>, u: User)
    requires multiset(s) == multiset(r) && |s| == |r|
    ensures UserMinutes(s, u) == UserMinutes(r, u)
    decreases |s|
  {
    if s != [] {
      var n := |s| - 1;
      var k := Locate(s, r, n);
      var rest := r[..k] + r[k + 1..];
      ElementsWithout(s, n);
      ElementsWithout(r, k);
      assert s[..n] + s[n + 1..] == s[..n];
      UserMinutesOfMultiset(s[..n], rest, u);
      UserMinutesWithout(r, k, u);
    }
  }

  lemma Locate(s: seq<Assignment>, r: seq<Assignment>, i: nat) returns (k: nat)
    requires multiset(s) == multiset(r) && i < |s|
    ensures k < |r| && r[k] == s[i]
  {
    assert s[i] in multiset(r);
    k :| k < |r| && r[k] == s[i];
  }

  lemma ElementsWithout(r: seq<Assignment>, k: nat)
    requires k < |r|
    ensures multiset(r[..k] + r[k + 1..]) == multiset(r) - multiset{r[k]}
  {
    assert r == r[..k] + [r[k]] + r[k + 1..];
  }

  lemma {:induction false} UserMinutesWithout(r: seq<Assignment>, k: nat, u: User)
    requires k < |r|
    ensures UserMinutes(r, u) == UserMinutes(r[..k] + r[k + 1..], u) + if r[k].user == u then Minutes(r[k]) else 0
  {
    var n := |r| - 1;
    if k == n {
      assert r[..k] + r[k + 1..] == r[..n];
    } else {
      UserMinutesWithout(r[..n], k, u);
      assert (r[..k] + r[k + 1..])[..n - 1] == r[..n][..k] + r[..n][k + 1..];
    }
  }

  /** Any two orders of the same assignments give every employee, and the week, the same overtime. */
  lemma OvertimeIgnoresOrder(s: seq<Assignment>, r: seq<Assignment>, t: Totals, v: Totals)
    requires multiset(s) == multiset(r)
    requires MinutesOk(t, s) && OvertimeOk(t) && MinutesOk(v, r) && OvertimeOk(v)
    ensures t.minutes == v.minutes && t.overtime == v.overtime
  {
    assert |multiset(s)| == |s| && |multiset(r)| == |r|;
    forall u
      ensures u in t.minutes <==> u in v.minutes
      ensures Recorded(t.minutes, u) == Recorded(v.minutes, u)
    {
      UserMinutesOfMultiset(s, r, u);
      SameUsers(s, r, u);
    }
    SameRecords(t.minutes, v.minutes);
  }

  lemma SameUsers(s: seq<Assignment>, r: seq<Assignment>, u: User)
    requires multiset(s) == multiset(r)
    ensures (exists i :: 0 <= i < |s| && s[i].user == u) <==> (exists j :: 0 <= j < |r| && r[j].user == u)
  {
    if i :| 0 <= i < |s| && s[i].user == u {
      var j := Locate(s, r, i);
    }
    if j :| 0 <= j < |r| && r[j].user == u {
      var i := Locate(r, s, j);
    }
  }

  lemma SameRecords(m: map<User, int>, k: map<User, int>)
    requires forall u :: (u in m <==> u in k) && Recorded(m, u) == Recorded(k, u)
    ensures m == k
  {
    assert m.Keys == k.Keys;
    forall u | u in m
      ensures m[u] == k[u]
    {
      assert Recorded(m, u) == Recorded(k, u);
    }
  }
}
