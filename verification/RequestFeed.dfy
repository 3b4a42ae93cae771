/**
 The merged "my requests" feed: up to eight keyset streams, one composite cursor, and
 sources that may fail on any page (src/routes/my-requests.ts).
 The data set is fixed while a cursor chain is followed.
 */
module RequestFeed {

  /** Position of a request type in the order used by the merge. */
  type Source = nat

  /** `at` is the submission instant; ids are compared by one order in the database and in the merge. */
  datatype Item = Item(at: int, source: Source, id: int)
  datatype Position = Position(at: int, id: int)
  type Cursor = map<Source, Position>

  /** Time descending, then type, then id descending. */
  predicate Before(a: Item, b: Item) {
    a.at > b.at || (a.at == b.at && (a.source < b.source || (a.source == b.source && a.id > b.id)))
  }

  // ---------------------------------------------------------------------------
  // Reference: sort everything, then cut

  ghost predicate IsFirst(m: Item, items: set<Item>) {
    m in items && forall x :: x in items && x != m ==> Before(m, x)
  }

  lemma {:induction false} HasFirst(items: set<Item>)
    requires items != {}
    ensures exists m :: IsFirst(m, items)
    decreases items
  {
    var a :| a in items;
    if items == {a} {
      assert IsFirst(a, items);
    } else {
      var rest := items - {a};
      HasFirst(rest);
      var m :| IsFirst(m, rest);
      assert items == rest + {a};
      assert IsFirst(if Before(a, m) then a else m, items);
    }
  }

  ghost function FirstOf(items: set<Item>): (m: Item)
    requires items != {}
    ensures IsFirst(m, items)
  {
    HasFirst(items);
    var m :| IsFirst(m, items);
    m
  }

  /** The first `n` items in the global order. */
  ghost function Take(items: set<Item>, n: nat): seq<Item>
    decreases n
  {
    if n == 0 || items == {} then [] else
      var m := FirstOf(items);
      [m] + Take(items - {m}, n - 1)
  }

  /** What `Take` leaves. */
  ghost function Rest(items: set<Item>, n: nat): set<Item>
    decreases n
  {
    if n == 0 || items == {} then items else Rest(items - {FirstOf(items)}, n - 1)
  }

  /** All items in the global order. */
  ghost function Sorted(items: set<Item>): seq<Item> {
    Take(items, |items|)
  }

  ghost predicate Ordered(s: seq<Item>) {
    forall i, j :: 0 <= i < j < |s| ==> Before(s[i], s[j])
  }

  /** Later submissions come first; at one instant by type, and within a type by falling id. */
  ghost predicate NewestFirst(s: seq<Item>) {
    forall i, j :: 0 <= i < j < |s| ==>
      && s[i].at >= s[j].at
      && (s[i].at == s[j].at ==> s[i].source <= s[j].source)
      && (s[i].at == s[j].at && s[i].source == s[j].source ==> s[i].id > s[j].id)
  }

  lemma OrderedIsNewestFirst(s: seq<Item>)
    ensures Ordered(s) <==> NewestFirst(s)
  {
  }

  function ItemsOf(s: seq<Item>): set<Item> {
    set x | x in s
  }

  ghost predicate AllBefore(a: seq<Item>, b: set<Item>) {
    forall x, y :: x in a && y in b ==> Before(x, y)
  }

  lemma {:induction false} TakeSize(items: set<Item>, n: nat)
    ensures |Take(items, n)| == if n <= |items| then n else |items|
    ensures |Rest(items, n)| == |items| - |Take(items, n)|
    decreases n
  {
    if n != 0 && items != {} {
      TakeSize(items - {FirstOf(items)}, n - 1);
    }
  }

  lemma {:induction false} TakeSplits(items: set<Item>, n: nat)
    ensures forall x :: x in items <==> x in Take(items, n) || x in Rest(items, n)
    ensures forall x :: !(x in Take(items, n) && x in Rest(items, n))
    decreases n
  {
    if n != 0 && items != {} {
      var m := FirstOf(items);
      TakeSplits(items - {m}, n - 1);
      assert forall x :: x in items <==> x == m || x in items - {m};
    }
  }

  lemma ConsOrdered(m: Item, t: seq<Item>)
    requires Ordered(t) && forall j :: 0 <= j < |t| ==> Before(m, t[j])
    ensures Ordered([m] + t)
  {
  }

  lemma {:induction false} TakeOrder(items: set<Item>, n: nat)
    ensures Ordered(Take(items, n)) && AllBefore(Take(items, n), Rest(items, n))
    decreases n
  {
    if n != 0 && items != {} {
      var m := FirstOf(items);
      var t := Take(items - {m}, n - 1);
      TakeOrder(items - {m}, n - 1);
      TakeSplits(items - {m}, n - 1);
      forall j | 0 <= j < |t|
        ensures Before(m, t[j])
      {
        assert t[j] in t;
        assert t[j] in items - {m};
      }
      ConsOrdered(m, t);
    }
  }

  /** `Take` cuts a set into an ordered list and a remainder that lies wholly after it. */
  lemma TakeCuts(items: set<Item>, n: nat)
    ensures |Take(items, n)| == if n <= |items| then n else |items|
    ensures |Rest(items, n)| == |items| - |Take(items, n)|
    ensures Ordered(Take(items, n)) && AllBefore(Take(items, n), Rest(items, n))
    ensures ItemsOf(Take(items, n)) <= items
    ensures Rest(items, n) == items - ItemsOf(Take(items, n))
  {
    TakeSize(items, n);
    TakeOrder(items, n);
    TakeSplits(items, n);
  }

  /** A strictly ordered list of a set is the list `Take` produces: sorting has one possible result. */
  lemma {:induction false} OrderedListIsTake(s: seq<Item>, items: set<Item>)
    requires Ordered(s) && ItemsOf(s) == items
    ensures s == Take(items, |s|) && |s| == |items|
    decreases |s|
  {
    if s == [] {
      assert items == {};
    } else {
      assert s[0] in items;
      var m := FirstOf(items);
      assert s[0] == m;
      var rest := s[1..];
      assert ItemsOf(rest) == items - {m} by {
        forall x | x in items - {m}
          ensures x in rest
        {
          var i :| 0 <= i < |s| && s[i] == x;
          assert rest[i - 1] == x;
        }
      }
      OrderedListIsTake(rest, items - {m});
      assert s == [m] + rest;
    }
  }

  /** Cutting in two places is cutting once: pages concatenate. */
  lemma {:induction false} TakeThenTake(items: set<Item>, n: nat, k: nat)
    requires n <= |items|
    ensures Take(items, n) + Take(Rest(items, n), k) == Take(items, n + k)
    decreases n
  {
    if n != 0 {
      var m := FirstOf(items);
      var rest := items - {m};
      TakeThenTake(rest, n - 1, k);
      var front, back := Take(rest, n - 1), Take(Rest(rest, n - 1), k);
      assert ([m] + front) + back == [m] + (front + back);
    }
  }

  // ---------------------------------------------------------------------------
  // What one source query returns

  /** The keyset condition: strictly after the stored position of the item's own source. */
  predicate After(cursor: Cursor, x: Item) {
    x.source in cursor ==>
      var p := cursor[x.source];
      x.at < p.at || (x.at == p.at && x.id < p.id)
  }

  function Pending(data: set<Item>, cursor: Cursor): set<Item> {
    set x | x in data && After(cursor, x)
  }

  function Stream(data: set<Item>, cursor: Cursor, source: Source): set<Item> {
    set x | x in data && After(cursor, x) && x.source == source
  }

  /** Rows of one source: ordered newest first, `limit + 1` of them at most. */
  ghost function Fetch(data: set<Item>, cursor: Cursor, source: Source, limit: nat): seq<Item> {
    Take(Stream(data, cursor, source), limit + 1)
  }

  function Available(data: set<Item>, cursor: Cursor, sources: set<Source>, failed: set<Source>): set<Item> {
    set x | x in data && After(cursor, x) && x.source in sources && x.source !in failed
  }

  /** `got` is enough of `all`: whatever is missing has at least `n` fetched items before it. */
  ghost predicate Covers(got: set<Item>, all: set<Item>, n: nat) {
    && got <= all
    && forall x :: x in all - got ==> |Earlier(got, x)| >= n
  }

  function Earlier(items: set<Item>, x: Item): set<Item> {
    set y | y in items && Before(y, x)
  }

  lemma SubsetSize(a: set<Item>, b: set<Item>)
    requires a <= b
    ensures |a| <= |b|
  {
    assert b == a + (b - a);
  }

  lemma CoverWithout(got: set<Item>, all: set<Item>, n: nat, m: Item)
    requires Covers(got, all, n) && n > 0
    ensures Covers(got - {m}, all - {m}, n - 1)
  {
    forall x | x in (all - {m}) - (got - {m})
      ensures |Earlier(got - {m}, x)| >= n - 1
    {
      assert Earlier(got, x) <= Earlier(got - {m}, x) + {m};
      SubsetSize(Earlier(got, x), Earlier(got - {m}, x) + {m});
    }
  }

  /** The first `n` items of a covering sample are the first `n` items of the whole. */
  lemma {:induction false} CoverGivesTake(got: set<Item>, all: set<Item>, n: nat)
    requires Covers(got, all, n)
    ensures Take(got, n) == Take(all, n)
    decreases n
  {
    if n != 0 && all != {} {
      var m := FirstOf(all);
      assert Earlier(got, m) == {};
      assert m in got;
      assert FirstOf(got) == m;
      CoverWithout(got, all, n, m);
      CoverGivesTake(got - {m}, all - {m}, n - 1);
    }
  }

  ghost function Fetched(data: set<Item>, cursor: Cursor, sources: set<Source>, failed: set<Source>,
                         limit: nat): set<Item> {
    set x | x in Available(data, cursor, sources, failed) && x in Fetch(data, cursor, x.source, limit)
  }

  /** A row beyond the fetched ones of its source comes after `limit + 1` fetched rows. */
  lemma BeyondFetch(data: set<Item>, cursor: Cursor, limit: nat, x: Item)
    requires x in Stream(data, cursor, x.source) && x !in Fetch(data, cursor, x.source, limit)
    ensures |ItemsOf(Fetch(data, cursor, x.source, limit))| == limit + 1
    ensures forall y :: y in Fetch(data, cursor, x.source, limit) ==>
              y in Stream(data, cursor, x.source) && Before(y, x)
  {
    var stream := Stream(data, cursor, x.source);
    var rows := Take(stream, limit + 1);
    TakeSize(stream, limit + 1);
    TakeSplits(stream, limit + 1);
    TakeOrder(stream, limit + 1);
    assert x in Rest(stream, limit + 1);
    OrderedListIsTake(rows, ItemsOf(rows));
  }

  lemma MissingHasEarlier(data: set<Item>, cursor: Cursor, sources: set<Source>, failed: set<Source>, limit: nat,
                          x: Item)
    requires x in Available(data, cursor, sources, failed) && x !in Fetch(data, cursor, x.source, limit)
    ensures |Earlier(Fetched(data, cursor, sources, failed, limit), x)| >= limit + 1
  {
    var rows := Fetch(data, cursor, x.source, limit);
    BeyondFetch(data, cursor, limit, x);
    forall y | y in ItemsOf(rows)
      ensures y in Earlier(Fetched(data, cursor, sources, failed, limit), x)
    {
    }
    SubsetSize(ItemsOf(rows), Earlier(Fetched(data, cursor, sources, failed, limit), x));
  }

  /** `limit + 1` rows per source are enough for a page of `limit` and for telling whether more remain. */
  lemma FetchedCovers(data: set<Item>, cursor: Cursor, sources: set<Source>, failed: set<Source>, limit: nat)
    ensures Covers(Fetched(data, cursor, sources, failed, limit), Available(data, cursor, sources, failed), limit + 1)
    ensures |Fetched(data, cursor, sources, failed, limit)| > limit <==>
            |Available(data, cursor, sources, failed)| > limit
  {
    var got := Fetched(data, cursor, sources, failed, limit);
    var all := Available(data, cursor, sources, failed);
    forall x | x in all - got
      ensures |Earlier(got, x)| >= limit + 1
    {
      MissingHasEarlier(data, cursor, sources, failed, limit, x);
    }
    CoverSize(got, all, limit);
  }

  lemma CoverSize(got: set<Item>, all: set<Item>, n: nat)
    requires Covers(got, all, n + 1)
    ensures |got| > n <==> |all| > n
  {
    SubsetSize(got, all);
    if exists x :: x in all && x !in got {
      var x :| x in all && x !in got;
      SubsetSize(Earlier(got, x), got);
    } else {
      assert got == all;
    }
  }

  // ---------------------------------------------------------------------------
  // One page

  datatype Page = Page(items: seq<Item>, hasMore: bool, next: Cursor) {
    /** The cursor is only sent when there is more and the page is not empty. */
    predicate SendsCursor() { hasMore && items != [] }
  }

  function Advance(cursor: Cursor, items: seq<Item>): Cursor {
    if items == [] then cursor
    else
      var x := items[|items| - 1];
      Advance(cursor, items[..|items| - 1])[x.source := Position(x.at, x.id)]
  }

  /** What a page should be: the first `limit` available items, cut from the sorted whole. */
  ghost predicate IsPage(data: set<Item>, cursor: Cursor, sources: set<Source>, failed: set<Source>, limit: nat,
                         page: Page) {
    var all := Available(data, cursor, sources, failed);
    && page.items == Take(all, limit)
    && page.next == Advance(cursor, page.items)
    && (page.hasMore <==> |all| > limit || failed * sources != {})
  }

  /** Positions after the page: exactly the page's items stop being pending. */
  lemma {:induction false} AdvanceConsumes(data: set<Item>, cursor: Cursor, sources: set<Source>, failed: set<Source>,
                                           items: seq<Item>)
    requires Ordered(items) && ItemsOf(items) <= Available(data, cursor, sources, failed)
    requires AllBefore(items, Available(data, cursor, sources, failed) - ItemsOf(items))
    ensures Pending(data, Advance(cursor, items)) == Pending(data, cursor) - ItemsOf(items)
  {
    forall x | x in data
      ensures After(Advance(cursor, items), x) <==> After(cursor, x) && x !in items
    {
      AdvanceAt(cursor, items, x.source);
      if exists i :: IsLastOf(items, x.source, i) {
        var i :| IsLastOf(items, x.source, i);
        assert items[i] in ItemsOf(items);
        assert items[i] in Available(data, cursor, sources, failed);
        if x in items {
          var j :| 0 <= j < |items| && items[j] == x;
          assert j <= i;
        } else if x in Available(data, cursor, sources, failed) {
          assert x in Available(data, cursor, sources, failed) - ItemsOf(items);
          assert Before(items[i], x);
        }
      } else if x in items {
        LastExists(items, x);
        assert false;
      }
    }
  }

  ghost predicate IsLastOf(items: seq<Item>, source: Source, i: int) {
    && 0 <= i < |items| && items[i].source == source
    && forall j :: i < j < |items| ==> items[j].source != source
  }

  lemma {:induction false} LastExists(items: seq<Item>, x: Item)
    requires x in items
    ensures exists i :: IsLastOf(items, x.source, i)
  {
    var n := |items| - 1;
    if items[n].source == x.source {
      assert IsLastOf(items, x.source, n);
    } else {
      LastExists(items[..n], x);
      var i :| IsLastOf(items[..n], x.source, i);
      assert IsLastOf(items, x.source, i);
    }
  }

  lemma {:induction false} AdvanceAt(cursor: Cursor, items: seq<Item>, source: Source)
    ensures forall i :: IsLastOf(items, source, i) ==>
              source in Advance(cursor, items) && Advance(cursor, items)[source] == Position(items[i].at, items[i].id)
    ensures (!exists i :: IsLastOf(items, source, i)) ==>
              (source in Advance(cursor, items) <==> source in cursor)
              && (source in cursor ==> Advance(cursor, items)[source] == cursor[source])
  {
    if items != [] {
      var n := |items| - 1;
      AdvanceAt(cursor, items[..n], source);
      if items[n].source == source {
        assert IsLastOf(items, source, n);
      } else {
        assert forall i :: IsLastOf(items, source, i) <==> IsLastOf(items[..n], source, i);
      }
    }
  }

  /** The effect of a page: what it shows is gone from what is pending, and nothing else is. */
  lemma PageConsumes(data: set<Item>, cursor: Cursor, sources: set<Source>, failed: set<Source>, limit: nat, page: Page)
    requires IsPage(data, cursor, sources, failed, limit, page)
    ensures Pending(data, page.next) == Pending(data, cursor) - ItemsOf(page.items)
    ensures ItemsOf(page.items) <= Available(data, cursor, sources, failed)
    ensures forall s :: s in failed ==>
              (s in page.next <==> s in cursor) && (s in cursor ==> page.next[s] == cursor[s])
  {
    TakeCuts(Available(data, cursor, sources, failed), limit);
    AdvanceConsumes(data, cursor, sources, failed, page.items);
    forall s | s in failed
      ensures (s in page.next <==> s in cursor) && (s in cursor ==> page.next[s] == cursor[s])
    {
      AdvanceAt(cursor, page.items, s);
      forall x | x in page.items
        ensures x.source != s
      {
        assert x in ItemsOf(page.items);
      }
    }
  }

  // ---------------------------------------------------------------------------
  // The handler: push rows, sort in place, cut, overwrite positions

  method Insert(sorted: seq<Item>, x: Item) returns (r: seq<Item>)
    requires Ordered(sorted) && x !in sorted
    ensures Ordered(r) && ItemsOf(r) == ItemsOf(sorted) + {x}
  {
    var i := 0;
    while i < |sorted| && Before(sorted[i], x)
      invariant 0 <= i <= |sorted|
      invariant forall j :: 0 <= j < i ==> Before(sorted[j], x)
    {
      i := i + 1;
    }
    r := sorted[..i] + [x] + sorted[i..];
    assert forall j :: i < j < |r| ==> r[j] == sorted[j - 1];
    forall j | i <= j < |sorted|
      ensures Before(x, sorted[j])
    {
      assert sorted[j] != x;
      assert sorted[i] != x;
    }
    assert ItemsOf(r) == ItemsOf(sorted) + {x} by {
      forall y | y in sorted
        ensures y in r
      {
        var j :| 0 <= j < |sorted| && sorted[j] == y;
        assert y == r[if j < i then j else j + 1];
      }
    }
  }

  /** In-place sort of the merged rows, which are pairwise different. */
  method SortMerged(merged: seq<Item>) returns (sorted: seq<Item>)
    requires forall i, j :: 0 <= i < j < |merged| ==> merged[i] != merged[j]
    ensures Ordered(sorted) && NewestFirst(sorted) && ItemsOf(sorted) == ItemsOf(merged)
  {
    sorted := [];
    for i := 0 to |merged|
      invariant Ordered(sorted) && ItemsOf(sorted) == ItemsOf(merged[..i])
    {
      assert merged[i] !in sorted by {
        assert merged[i] !in merged[..i];
        assert merged[i] !in ItemsOf(merged[..i]);
      }
      sorted := Insert(sorted, merged[i]);
      assert merged[..i + 1] == merged[..i] + [merged[i]];
    }
    assert merged[..|merged|] == merged;
  }

  datatype SourceResult = Fulfilled(rows: seq<Item>) | Rejected

  /** The answers of the source queries, in the order of `types`. */
  ghost predicate Answers(data: set<Item>, cursor: Cursor, types: seq<Source>, failed: set<Source>, limit: nat,
                          results: seq<SourceResult>) {
    && |results| == |types|
    && forall i :: 0 <= i < |types| ==>
         results[i] == if types[i] in failed then Rejected else Fulfilled(Fetch(data, cursor, types[i], limit))
  }

  ghost predicate Distinct<T>(s: seq<T>) {
    forall i, j :: 0 <= i < j < |s| ==> s[i] != s[j]
  }

  lemma JoinDistinct(a: seq<Item>, b: seq<Item>)
    requires Distinct(a) && Ordered(b) && forall x :: x in a ==> x !in b
    ensures Distinct(a + b)
  {
    forall i, j | 0 <= i < |a| && 0 <= j < |b|
      ensures a[i] != b[j]
    {
      assert a[i] in a && b[j] in b;
    }
  }

  lemma FetchIsOwn(data: set<Item>, cursor: Cursor, source: Source, limit: nat)
    ensures Ordered(Fetch(data, cursor, source, limit))
    ensures forall x :: x in Fetch(data, cursor, source, limit) ==> x in Stream(data, cursor, source)
  {
    TakeCuts(Stream(data, cursor, source), limit + 1);
    var rows := Fetch(data, cursor, source, limit);
    assert forall x :: x in rows ==> x in ItemsOf(rows);
  }

  function SourcesOf(types: seq<Source>): set<Source> {
    set t | t in types
  }

  ghost predicate CameFrom(data: set<Item>, cursor: Cursor, types: seq<Source>, failed: set<Source>, limit: nat,
                           upto: nat, x: Item)
    requires upto <= |types|
  {
    exists k :: 0 <= k < upto && types[k] !in failed && x in Fetch(data, cursor, types[k], limit)
  }

  lemma CameFromIsFetched(data: set<Item>, cursor: Cursor, types: seq<Source>, failed: set<Source>, limit: nat, x: Item)
    ensures CameFrom(data, cursor, types, failed, limit, |types|, x) <==>
            x in Fetched(data, cursor, SourcesOf(types), failed, limit)
  {
    if CameFrom(data, cursor, types, failed, limit, |types|, x) {
      var k :| 0 <= k < |types| && types[k] !in failed && x in Fetch(data, cursor, types[k], limit);
      FetchIsOwn(data, cursor, types[k], limit);
    }
  }

  lemma StreamsDisjoint(data: set<Item>, cursor: Cursor, types: seq<Source>, failed: set<Source>, limit: nat,
                        upto: nat, x: Item)
    requires upto < |types| && Distinct(types)
    requires CameFrom(data, cursor, types, failed, limit, upto, x)
    ensures x !in Fetch(data, cursor, types[upto], limit)
  {
    var k :| 0 <= k < upto && types[k] !in failed && x in Fetch(data, cursor, types[k], limit);
    FetchIsOwn(data, cursor, types[k], limit);
    FetchIsOwn(data, cursor, types[upto], limit);
  }

  /** Push the rows of every source that answered; count the ones that did not. */
  method Collect(ghost data: set<Item>, ghost cursor: Cursor, types: seq<Source>, ghost failed: set<Source>,
                 ghost limit: nat,
                 results: seq<SourceResult>) returns (merged: seq<Item>, unavailable: seq<Source>)
    requires Distinct(types) && Answers(data, cursor, types, failed, limit, results)
    ensures Distinct(merged)
    ensures ItemsOf(merged) == Fetched(data, cursor, SourcesOf(types), failed, limit)
    ensures Distinct(unavailable) && forall x :: x in unavailable <==> x in types && x in failed
  {
    unavailable := [];
    merged := [];
    for index := 0 to |results|
      invariant Distinct(unavailable) && forall x :: x in unavailable <==> x in types[..index] && x in failed
      invariant Distinct(merged)
      invariant forall x :: x in merged <==> CameFrom(data, cursor, types, failed, limit, index, x)
    {
      match results[index] {
        case Rejected =>
          assert types[index] !in types[..index];
          unavailable := unavailable + [types[index]];
        case Fulfilled(rows) =>
          FetchIsOwn(data, cursor, types[index], limit);
          forall x | x in merged
            ensures x !in rows
          {
            StreamsDisjoint(data, cursor, types, failed, limit, index, x);
          }
          JoinDistinct(merged, rows);
          merged := merged + rows;
      }
    }
    forall x
      ensures x in merged <==> x in Fetched(data, cursor, SourcesOf(types), failed, limit)
    {
      CameFromIsFetched(data, cursor, types, failed, limit, x);
    }
  }

  /** Overwrite the stored position of each item's source, in page order. */
  method Overwrite(cursor: Cursor, items: seq<Item>) returns (next: Cursor)
    ensures next == Advance(cursor, items)
  {
    next := cursor;
    for i := 0 to |items|
      invariant next == Advance(cursor, items[..i])
    {
      assert items[..i + 1][..i] == items[..i];
      next := next[items[i].source := Position(items[i].at, items[i].id)];
    }
    assert items[..|items|] == items;
  }

  lemma PageOfFetched(data: set<Item>, cursor: Cursor, sources: set<Source>, failed: set<Source>, limit: nat,
                      sorted: seq<Item>)
    requires Ordered(sorted) && ItemsOf(sorted) == Fetched(data, cursor, sources, failed, limit)
    ensures (if |sorted| <= limit then sorted else sorted[..limit])
            == Take(Available(data, cursor, sources, failed), limit)
    ensures |sorted| > limit <==> |Available(data, cursor, sources, failed)| > limit
  {
    var got := Fetched(data, cursor, sources, failed, limit);
    OrderedListIsTake(sorted, got);
    FetchedCovers(data, cursor, sources, failed, limit);
    CoverGivesTake(got, Available(data, cursor, sources, failed), limit);
    if |sorted| <= limit {
      TakeAll(got, limit);
    } else {
      TakePrefix(got, |sorted|, limit);
    }
  }

  lemma FailedSeen(types: seq<Source>, failed: set<Source>, unavailable: seq<Source>)
    requires forall x :: x in unavailable <==> x in types && x in failed
    ensures |unavailable| > 0 <==> failed * SourcesOf(types) != {}
  {
    assert forall x :: x in failed * SourcesOf(types) ==> x in unavailable;
    if |unavailable| > 0 {
      assert unavailable[0] in unavailable;
      assert unavailable[0] in failed * SourcesOf(types);
    }
  }

  /** The body of GET /me after its queries have settled. */
  method MergePage(ghost data: set<Item>, cursor: Cursor, types: seq<Source>, ghost failed: set<Source>, limit: nat,
                   results: seq<SourceResult>) returns (page: Page, unavailable: seq<Source>)
    requires limit >= 1 && Distinct(types)
    requires Answers(data, cursor, types, failed, limit, results)
    ensures IsPage(data, cursor, SourcesOf(types), failed, limit, page)
    ensures forall x :: x in unavailable <==> x in types && x in failed
  {
    var merged;
    merged, unavailable := Collect(data, cursor, types, failed, limit, results);
    var sorted := SortMerged(merged);
    PageOfFetched(data, cursor, SourcesOf(types), failed, limit, sorted);
    var items := if |sorted| <= limit then sorted else sorted[..limit];
    var next := Overwrite(cursor, items);
    page := Page(items, |sorted| > |items| || |unavailable| > 0, next);
    FailedSeen(types, failed, unavailable);
  }

  /**
   What makes a page: rows beyond the cursor of sources that answered, newest first, `limit` of them
   or all there are, and none left out that would come before one shown.
   */
  lemma PageShows(data: set<Item>, cursor: Cursor, sources: set<Source>, failed: set<Source>, limit: nat, page: Page)
    requires IsPage(data, cursor, sources, failed, limit, page)
    ensures NewestFirst(page.items)
    ensures forall x :: x in page.items ==> x in data && x.source in sources && x.source !in failed
    ensures forall x :: x in page.items && x.source in cursor ==>
              x.at < cursor[x.source].at || (x.at == cursor[x.source].at && x.id < cursor[x.source].id)
    ensures |page.items| <= limit
    ensures forall x :: x in Available(data, cursor, sources, failed) && x !in page.items ==>
              LeftOut(page.items, limit, x)
  {
    var all := Available(data, cursor, sources, failed);
    TakeCuts(all, limit);
    OrderedIsNewestFirst(page.items);
    forall x | x in page.items
      ensures x in all
    {
      assert x in ItemsOf(page.items);
    }
    forall x | x in all && x !in page.items
      ensures LeftOut(page.items, limit, x)
    {
      LeftOutLater(all, limit, x);
    }
  }

  /** The page is full, and the item comes after everything on it. */
  ghost predicate LeftOut(items: seq<Item>, limit: nat, x: Item) {
    |items| == limit && forall y :: y in items ==> NewestFirst([y, x])
  }

  lemma LeftOutLater(all: set<Item>, limit: nat, x: Item)
    requires x in all && x !in Take(all, limit)
    ensures LeftOut(Take(all, limit), limit, x)
  {
    TakeCuts(all, limit);
    assert x in Rest(all, limit);
    assert |Rest(all, limit)| > 0;
    forall y | y in Take(all, limit)
      ensures NewestFirst([y, x])
    {
      assert Before(y, x);
    }
  }

  lemma {:induction false} TakePrefix(items: set<Item>, n: nat, k: nat)
    requires k <= n <= |items|
    ensures |Take(items, n)| == n && Take(items, n)[..k] == Take(items, k)
    decreases n
  {
    TakeCuts(items, n);
    if k != 0 {
      var m := FirstOf(items);
      TakePrefix(items - {m}, n - 1, k - 1);
      assert ([m] + Take(items - {m}, n - 1))[..k] == [m] + Take(items - {m}, n - 1)[..k - 1];
    }
  }

  lemma {:induction false} TakeAll(items: set<Item>, n: nat)
    ensures n >= |items| ==> Take(items, n) == Take(items, |items|)
    decreases n
  {
    if n > 0 && items != {} && n >= |items| {
      TakeAll(items - {FirstOf(items)}, n - 1);
    }
  }

  // ---------------------------------------------------------------------------
  // Chains of pages

  ghost function PageAt(data: set<Item>, cursor: Cursor, sources: set<Source>, failed: set<Source>,
                        limit: nat): (page: Page)
    ensures IsPage(data, cursor, sources, failed, limit, page)
  {
    var all := Available(data, cursor, sources, failed);
    var items := Take(all, limit);
    Page(items, |all| > limit || failed * sources != {}, Advance(cursor, items))
  }

  ghost predicate FromSources(data: set<Item>, sources: set<Source>) {
    forall x :: x in data ==> x.source in sources
  }

  lemma AvailableIsPending(data: set<Item>, cursor: Cursor, sources: set<Source>)
    requires FromSources(data, sources)
    ensures Available(data, cursor, sources, {}) == Pending(data, cursor)
  {
  }

  /** Items seen by a client that keeps sending `next_cursor` back until none is sent. */
  ghost function Follow(data: set<Item>, cursor: Cursor, sources: set<Source>, limit: nat): seq<Item>
    requires limit >= 1 && FromSources(data, sources)
    decreases |Pending(data, cursor)|
  {
    var page := PageAt(data, cursor, sources, {}, limit);
    if page.SendsCursor() then
      PageShrinks(data, cursor, sources, limit, page);
      page.items + Follow(data, page.next, sources, limit)
    else page.items
  }

  lemma PageShrinks(data: set<Item>, cursor: Cursor, sources: set<Source>, limit: nat, page: Page)
    requires limit >= 1 && IsPage(data, cursor, sources, {}, limit, page) && page.items != []
    ensures |Pending(data, page.next)| < |Pending(data, cursor)|
  {
    PageConsumes(data, cursor, sources, {}, limit, page);
    assert page.items[0] in ItemsOf(page.items);
    assert Pending(data, page.next) <= Pending(data, cursor) - {page.items[0]};
    SubsetSize(Pending(data, page.next), Pending(data, cursor) - {page.items[0]});
  }

  /**
   Following the cursor to the end from any position yields exactly what was pending,
   each item once, in the global order.
   */
  lemma {:induction false} FollowIsSorted(data: set<Item>, cursor: Cursor, sources: set<Source>, limit: nat)
    requires limit >= 1 && FromSources(data, sources)
    ensures Follow(data, cursor, sources, limit) == Sorted(Pending(data, cursor))
    decreases |Pending(data, cursor)|
  {
    var page := PageAt(data, cursor, sources, {}, limit);
    var all := Pending(data, cursor);
    AvailableIsPending(data, cursor, sources);
    TakeSize(all, limit);
    if page.SendsCursor() {
      PageShrinks(data, cursor, sources, limit, page);
      FollowIsSorted(data, page.next, sources, limit);
      LeftIsRest(data, cursor, sources, limit, page);
      TakeThenTake(all, limit, |all| - limit);
    } else {
      TakeAll(all, limit);
    }
  }

  /** After a page with every source up, what is pending is what the cut left. */
  lemma LeftIsRest(data: set<Item>, cursor: Cursor, sources: set<Source>, limit: nat, page: Page)
    requires FromSources(data, sources) && IsPage(data, cursor, sources, {}, limit, page)
    ensures Pending(data, page.next) == Rest(Pending(data, cursor), limit)
  {
    AvailableIsPending(data, cursor, sources);
    PageConsumes(data, cursor, sources, {}, limit, page);
    TakeCuts(Pending(data, cursor), limit);
  }

  /** From an empty cursor: the whole data set, exactly once, in order. */
  lemma FollowShowsEverythingOnce(data: set<Item>, sources: set<Source>, limit: nat)
    requires limit >= 1 && FromSources(data, sources)
    ensures var shown := Follow(data, map[], sources, limit);
            && shown == Sorted(data) && NewestFirst(shown) && ItemsOf(shown) == data && |shown| == |data|
  {
    assert Pending(data, map[]) == data;
    FollowIsSorted(data, map[], sources, limit);
    TakeCuts(data, |data|);
    var rest := data - ItemsOf(Sorted(data));
    assert rest == {};
    assert ItemsOf(Sorted(data)) == data;
  }

  /** With all sources up, `has_more` says exactly whether anything remains after the page. */
  lemma HasMoreIsExact(data: set<Item>, cursor: Cursor, sources: set<Source>, limit: nat, page: Page)
    requires limit >= 1 && FromSources(data, sources) && IsPage(data, cursor, sources, {}, limit, page)
    ensures page.hasMore <==> Pending(data, page.next) != {}
    ensures page.hasMore <==> page.SendsCursor()
  {
    AvailableIsPending(data, cursor, sources);
    TakeCuts(Pending(data, cursor), limit);
    PageConsumes(data, cursor, sources, {}, limit, page);
    if Pending(data, page.next) == {} {
      assert |Pending(data, page.next)| == 0;
    }
  }

  /** Items shown along a chain where `failures[i]` is the set of sources down on page `i`. */
  ghost function Shown(data: set<Item>, cursor: Cursor, sources: set<Source>, limit: nat,
                       failures: seq<set<Source>>): seq<Item>
    decreases |failures|
  {
    if failures == [] then []
    else
      var page := PageAt(data, cursor, sources, failures[0], limit);
      page.items + Shown(data, page.next, sources, limit, failures[1..])
  }

  ghost function CursorAfter(data: set<Item>, cursor: Cursor, sources: set<Source>, limit: nat,
                             failures: seq<set<Source>>): Cursor
    decreases |failures|
  {
    if failures == [] then cursor
    else CursorAfter(data, PageAt(data, cursor, sources, failures[0], limit).next, sources, limit, failures[1..])
  }

  function Only(s: seq<Item>, source: Source): seq<Item> {
    if s == [] then []
    else (if s[0].source == source then [s[0]] else []) + Only(s[1..], source)
  }

  lemma {:induction false} OnlyConcat(a: seq<Item>, b: seq<Item>, source: Source)
    ensures Only(a + b, source) == Only(a, source) + Only(b, source)
  {
    if a == [] {
      assert a + b == b;
    } else {
      var head := if a[0].source == source then [a[0]] else [];
      assert (a + b)[1..] == a[1..] + b && (a + b)[0] == a[0];
      OnlyConcat(a[1..], b, source);
      assert head + (Only(a[1..], source) + Only(b, source)) == (head + Only(a[1..], source)) + Only(b, source);
    }
  }

  lemma {:induction false} OnlyItems(s: seq<Item>, source: Source)
    ensures forall x :: x in Only(s, source) <==> x in s && x.source == source
    ensures Ordered(s) ==> Ordered(Only(s, source))
  {
    if s != [] {
      OnlyItems(s[1..], source);
      if Ordered(s) {
        var rest := Only(s[1..], source);
        forall j | 0 <= j < |rest|
          ensures Before(s[0], rest[j])
        {
          assert rest[j] in s[1..];
        }
      }
    }
  }

  lemma AppendDistinct(a: seq<Item>, b: seq<Item>, left: set<Item>)
    requires Ordered(a) && Distinct(b) && ItemsOf(b) <= left && ItemsOf(a) !! left
    ensures Distinct(a + b) && ItemsOf(a + b) == ItemsOf(a) + ItemsOf(b)
  {
    forall i, j | 0 <= i < |a| && 0 <= j < |b|
      ensures a[i] != b[j]
    {
      assert a[i] in ItemsOf(a) && b[j] in ItemsOf(b);
    }
  }

  lemma PageSplits(data: set<Item>, cursor: Cursor, sources: set<Source>, failed: set<Source>, limit: nat, page: Page)
    requires IsPage(data, cursor, sources, failed, limit, page)
    ensures Ordered(page.items)
    ensures ItemsOf(page.items) !! Pending(data, page.next)
    ensures ItemsOf(page.items) + Pending(data, page.next) == Pending(data, cursor)
  {
    PageConsumes(data, cursor, sources, failed, limit, page);
    TakeOrder(Available(data, cursor, sources, failed), limit);
  }

  lemma AppendOrdered(a: seq<Item>, b: seq<Item>, left: set<Item>)
    requires Ordered(a) && Ordered(b) && ItemsOf(b) <= left && AllBefore(a, left)
    ensures Ordered(a + b)
  {
    forall i, j | 0 <= i < |a| && 0 <= j < |b|
      ensures Before(a[i], b[j])
    {
      assert b[j] in ItemsOf(b);
    }
  }

  /** A page lies before everything its own sources still have pending afterwards. */
  lemma PageBeforeLater(data: set<Item>, cursor: Cursor, sources: set<Source>, failed: set<Source>, limit: nat,
                        page: Page, source: Source)
    requires source in sources && IsPage(data, cursor, sources, failed, limit, page)
    ensures Ordered(Only(page.items, source))
    ensures ItemsOf(Only(page.items, source)) <= Stream(data, cursor, source)
    ensures AllBefore(Only(page.items, source), Stream(data, page.next, source))
    ensures Stream(data, page.next, source) <= Stream(data, cursor, source)
  {
    PageConsumes(data, cursor, sources, failed, limit, page);
    TakeCuts(Available(data, cursor, sources, failed), limit);
    OnlyItems(page.items, source);
    forall x | x in Only(page.items, source)
      ensures x in Available(data, cursor, sources, failed)
    {
      assert x in ItemsOf(page.items);
    }
    forall y | y in Stream(data, page.next, source)
      ensures y in Pending(data, cursor) && y !in page.items
    {
      assert y in Pending(data, page.next);
    }
  }

  /**
   Whatever fails on whatever page: the items shown and the items still pending split the
   starting pending set, so nothing is shown twice and nothing is skipped.
   */
  lemma {:induction false} FailuresLoseNothing(data: set<Item>, cursor: Cursor, sources: set<Source>, limit: nat,
                                               failures: seq<set<Source>>)
    ensures var shown := Shown(data, cursor, sources, limit, failures);
            var after := Pending(data, CursorAfter(data, cursor, sources, limit, failures));
            && Distinct(shown)
            && ItemsOf(shown) + after == Pending(data, cursor)
            && ItemsOf(shown) !! after
    decreases |failures|
  {
    if failures != [] {
      var page := PageAt(data, cursor, sources, failures[0], limit);
      PageSplits(data, cursor, sources, failures[0], limit, page);
      FailuresLoseNothing(data, page.next, sources, limit, failures[1..]);
      AppendDistinct(page.items, Shown(data, page.next, sources, limit, failures[1..]), Pending(data, page.next));
    } else {
      assert ItemsOf([]) == {};
    }
  }

  /**
   Each source is read in its own order whatever fails: what has been shown of it is
   ordered and lies wholly before what is still pending of it.
   */
  lemma {:induction false} EachSourceInOrder(data: set<Item>, cursor: Cursor, sources: set<Source>, limit: nat,
                                             failures: seq<set<Source>>, source: Source)
    requires source in sources
    ensures var mine := Only(Shown(data, cursor, sources, limit, failures), source);
            && Ordered(mine)
            && ItemsOf(mine) <= Stream(data, cursor, source)
            && AllBefore(mine, Stream(data, CursorAfter(data, cursor, sources, limit, failures), source))
    decreases |failures|
  {
    if failures != [] {
      var page := PageAt(data, cursor, sources, failures[0], limit);
      var rest := Shown(data, page.next, sources, limit, failures[1..]);
      PageBeforeLater(data, cursor, sources, failures[0], limit, page, source);
      EachSourceInOrder(data, page.next, sources, limit, failures[1..], source);
      OnlyConcat(page.items, rest, source);
      AppendOrdered(Only(page.items, source), Only(rest, source), Stream(data, page.next, source));
      var last := CursorAfter(data, cursor, sources, limit, failures);
      FailuresLoseNothing(data, page.next, sources, limit, failures[1..]);
      forall y | y in Stream(data, last, source)
        ensures y in Stream(data, page.next, source)
      {
        assert y in Pending(data, last);
        assert y in Pending(data, page.next);
      }
    }
  }

  /**
   The cursor is withheld although items are pending exactly when every source that
   answered is exhausted: then the client is told `has_more` but given no way to ask for it.
   */
  lemma CursorWithheldIff(data: set<Item>, cursor: Cursor, sources: set<Source>, failed: set<Source>, limit: nat,
                          page: Page)
    requires limit >= 1 && FromSources(data, sources) && IsPage(data, cursor, sources, failed, limit, page)
    ensures !page.SendsCursor() && Pending(data, page.next) != {} <==>
            Available(data, cursor, sources, failed) == {} && Pending(data, cursor) != {}
  {
    var all := Available(data, cursor, sources, failed);
    TakeCuts(all, limit);
    PageConsumes(data, cursor, sources, failed, limit, page);
    if all == {} {
      assert ItemsOf(page.items) == {};
      assert Pending(data, page.next) == Pending(data, cursor);
    } else if !page.SendsCursor() {
      SubsetSize({FirstOf(all)}, all);
      assert |all - ItemsOf(page.items)| == 0;
      assert failed * sources == {};
      assert all == Pending(data, cursor) by {
        forall x | x in Pending(data, cursor)
          ensures x.source !in failed
        {
          assert x.source !in failed * sources;
        }
      }
    }
  }

  /** One source down and the others empty: the request that remains cannot be paged to. */
  lemma CursorWithheldExample()
    ensures var data := {Item(5, 0, 1)};
            var page := PageAt(data, map[], {0, 1}, {0}, 25);
            page.hasMore && !page.SendsCursor() && Pending(data, page.next) == data
  {
    var data := {Item(5, 0, 1)};
    var page := PageAt(data, map[], {0, 1}, {0}, 25);
    assert Available(data, map[], {0, 1}, {0}) == {};
    assert 0 in {0} * {0, 1};
    PageConsumes(data, map[], {0, 1}, {0}, 25, page);
    assert ItemsOf([]) == {};
    assert Pending(data, map[]) == data;
  }
}
