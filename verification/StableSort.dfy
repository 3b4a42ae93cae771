/**
 The stable sort that the canonical form relies on, over an arbitrary total preorder, with
 the facts that make a sorted list a normal form.
 */
module StableSort {

  ghost predicate TotalPreorder<T(!new)>(le: (T, T) -> bool) {
    && (forall a, b :: le(a, b) || le(b, a))
    && (forall a, b, c :: le(a, b) && le(b, c) ==> le(a, c))
  }

  /** Puts `x` before the first element that is not smaller. */
  function Insert<T>(le: (T, T) -> bool, x: T, s: seq<T>): seq<T> {
    if s == [] || le(x, s[0]) then [x] + s else [s[0]] + Insert(le, x, s[1..])
  }

  function Sort<T>(le: (T, T) -> bool, s: seq<T>): seq<T> {
    if s == [] then [] else Insert(le, s[0], Sort(le, s[1..]))
  }

  ghost predicate Sorted<T>(le: (T, T) -> bool, s: seq<T>) {
    forall i, j :: 0 <= i < j < |s| ==> le(s[i], s[j])
  }

  /** No two different elements are tied. */
  ghost predicate TieFree<T>(le: (T, T) -> bool, s: seq<T>) {
    forall i, j :: 0 <= i < j < |s| && le(s[i], s[j]) && le(s[j], s[i]) ==> s[i] == s[j]
  }

  lemma {:induction false} InsertElements<T>(le: (T, T) -> bool, x: T, s: seq<T>)
    ensures multiset(Insert(le, x, s)) == multiset(s) + multiset{x}
  {
    if s != [] && !le(x, s[0]) {
      InsertElements(le, x, s[1..]);
      assert s == [s[0]] + s[1..];
    }
  }

  lemma {:induction false} SortElements<T>(le: (T, T) -> bool, s: seq<T>)
    ensures multiset(Sort(le, s)) == multiset(s)
    ensures |Sort(le, s)| == |s|
  {
    if s != [] {
      SortElements(le, s[1..]);
      InsertElements(le, s[0], Sort(le, s[1..]));
      assert s == [s[0]] + s[1..];
    }
    assert |multiset(Sort(le, s))| == |Sort(le, s)|;
  }

  lemma {:induction false} InsertSorts<T(!new)>(le: (T, T) -> bool, x: T, s: seq<T>)
    requires TotalPreorder(le) && Sorted(le, s)
    ensures Sorted(le, Insert(le, x, s))
  {
    if s != [] && !le(x, s[0]) {
      InsertSorts(le, x, s[1..]);
      var rest := Insert(le, x, s[1..]);
      InsertElements(le, x, s[1..]);
      forall j | 0 <= j < |rest|
        ensures le(s[0], rest[j])
      {
        assert rest[j] in multiset(rest);
        assert rest[j] == x || rest[j] in s[1..];
      }
    }
  }

  lemma {:induction false} SortSorts<T(!new)>(le: (T, T) -> bool, s: seq<T>)
    requires TotalPreorder(le)
    ensures Sorted(le, Sort(le, s))
  {
    if s != [] {
      SortSorts(le, s[1..]);
      InsertSorts(le, s[0], Sort(le, s[1..]));
    }
  }

  /** Sorting a sorted list changes nothing, ties included. */
  lemma {:induction false} SortFixesSorted<T>(le: (T, T) -> bool, s: seq<T>)
    requires Sorted(le, s)
    ensures Sort(le, s) == s
  {
    if s != [] {
      SortFixesSorted(le, s[1..]);
      assert s == [s[0]] + s[1..];
    }
  }

  lemma HeadIsLeast<T(!new)>(le: (T, T) -> bool, a: seq<T>, x: T)
    requires TotalPreorder(le) && Sorted(le, a) && x in a
    ensures le(a[0], x)
  {
    var i :| 0 <= i < |a| && a[i] == x;
    assert le(a[0], a[0]);
  }

  lemma SameHead<T(!new)>(le: (T, T) -> bool, a: seq<T>, b: seq<T>)
    requires TotalPreorder(le) && Sorted(le, a) && Sorted(le, b) && TieFree(le, a)
    requires multiset(a) == multiset(b) && a != [] && b != []
    ensures a[0] == b[0]
  {
    assert a[0] in multiset(a) && b[0] in multiset(b);
    HeadIsLeast(le, a, b[0]);
    HeadIsLeast(le, b, a[0]);
    var i :| 0 <= i < |a| && a[i] == b[0];
  }

  lemma TailKeeps<T>(le: (T, T) -> bool, a: seq<T>)
    requires a != []
    ensures Sorted(le, a) ==> Sorted(le, a[1..])
    ensures TieFree(le, a) ==> TieFree(le, a[1..])
  {
  }

  lemma TailElements<T>(a: seq<T>)
    requires a != []
    ensures multiset(a[1..]) == multiset(a) - multiset{a[0]}
  {
    assert a == [a[0]] + a[1..];
  }

  /** Without ties a multiset has one sorted list. */
  lemma {:induction false} SortedIsUnique<T(!new)>(le: (T, T) -> bool, a: seq<T>, b: seq<T>)
    requires TotalPreorder(le) && Sorted(le, a) && Sorted(le, b) && TieFree(le, a)
    requires multiset(a) == multiset(b) && |a| == |b|
    ensures a == b
  {
    if a != [] {
      SameHead(le, a, b);
      TailElements(a);
      TailElements(b);
      TailKeeps(le, a);
      TailKeeps(le, b);
      SortedIsUnique(le, a[1..], b[1..]);
      HeadAndTail(a, b);
    }
  }

  lemma HeadAndTail<T>(a: seq<T>, b: seq<T>)
    requires a != [] && b != [] && a[0] == b[0] && a[1..] == b[1..]
    ensures a == b
  {
    assert a == [a[0]] + a[1..] && b == [b[0]] + b[1..];
  }

  /** Two lists with the same elements and no ties sort to the same list. */
  lemma SortIsCanonical<T(!new)>(le: (T, T) -> bool, a: seq<T>, b: seq<T>)
    requires TotalPreorder(le) && TieFree(le, a) && multiset(a) == multiset(b)
    ensures Sort(le, a) == Sort(le, b)
  {
    SortElements(le, a);
    SortElements(le, b);
    SortSorts(le, a);
    SortSorts(le, b);
    TieFreeCarries(le, a, Sort(le, a));
    assert |multiset(a)| == |a| && |multiset(b)| == |b|;
    SortedIsUnique(le, Sort(le, a), Sort(le, b));
  }

  lemma TieFreeCarries<T>(le: (T, T) -> bool, a: seq<T>, b: seq<T>)
    requires TieFree(le, a) && multiset(a) == multiset(b)
    ensures TieFree(le, b)
  {
    forall i, j | 0 <= i < j < |b| && le(b[i], b[j]) && le(b[j], b[i])
      ensures b[i] == b[j]
    {
      assert b[i] in multiset(b) && b[j] in multiset(b);
      assert b[i] in a && b[j] in a;
      var p :| 0 <= p < |a| && a[p] == b[i];
      var q :| 0 <= q < |a| && a[q] == b[j];
    }
  }

  predicate Tied<T>(le: (T, T) -> bool, x: T, y: T) {
    le(x, y) && le(y, x)
  }

  /** The first element tied with `z`, as a list of at most one element. */
  function FirstTied<T>(le: (T, T) -> bool, z: T, s: seq<T>): seq<T> {
    if s == [] then [] else if Tied(le, z, s[0]) then [s[0]] else FirstTied(le, z, s[1..])
  }

  /** What `fine` ties, `coarse` ties too. */
  ghost predicate Refines<T(!new)>(fine: (T, T) -> bool, coarse: (T, T) -> bool) {
    forall a, b :: Tied(fine, a, b) ==> Tied(coarse, a, b)
  }

  lemma {:induction false} InsertFirstTied<T(!new)>(fine: (T, T) -> bool, coarse: (T, T) -> bool, x: T, s: seq<T>, z: T)
    requires TotalPreorder(fine) && Refines(fine, coarse)
    ensures FirstTied(fine, z, Insert(coarse, x, s)) == if Tied(fine, z, x) then [x] else FirstTied(fine, z, s)
  {
    if s != [] && !coarse(x, s[0]) {
      InsertFirstTied(fine, coarse, x, s[1..], z);
      assert !Tied(fine, x, s[0]);
      assert ([s[0]] + Insert(coarse, x, s[1..]))[1..] == Insert(coarse, x, s[1..]);
    } else {
      assert ([x] + s)[1..] == s;
    }
  }

  /** Stability: the first of any group of ties is still the first of its group, also under a coarser sort. */
  lemma {:induction false} SortKeepsFirstTied<T(!new)>(fine: (T, T) -> bool, coarse: (T, T) -> bool, s: seq<T>, z: T)
    requires TotalPreorder(fine) && Refines(fine, coarse)
    ensures FirstTied(fine, z, Sort(coarse, s)) == FirstTied(fine, z, s)
  {
    if s != [] {
      SortKeepsFirstTied(fine, coarse, s[1..], z);
      InsertFirstTied(fine, coarse, s[0], Sort(coarse, s[1..]), z);
    }
  }

  /** Some element of a list with ties differs from the first of its group. */
  lemma {:induction false} TieIsLate<T(!new)>(le: (T, T) -> bool, s: seq<T>) returns (j: nat)
    requires TotalPreorder(le) && !TieFree(le, s)
    ensures j < |s| && FirstTied(le, s[j], s) != [s[j]]
  {
    var i, k :| 0 <= i < k < |s| && Tied(le, s[i], s[k]) && s[i] != s[k];
    SameGroup(le, s[i], s[k], s);
    j := if FirstTied(le, s[i], s) == [s[i]] then k else i;
  }

  lemma {:induction false} SameGroup<T(!new)>(le: (T, T) -> bool, x: T, y: T, s: seq<T>)
    requires TotalPreorder(le) && Tied(le, x, y)
    ensures FirstTied(le, x, s) == FirstTied(le, y, s)
  {
    if s != [] {
      SameGroup(le, x, y, s[1..]);
    }
  }

  /** `s` with its element at `j` moved to the front. */
  function ToFront<T>(s: seq<T>, j: nat): (r: seq<T>)
    requires j < |s|
    ensures |r| == |s|
  {
    seq(|s|, k requires 0 <= k < |s| => s[if k == 0 then j else if k <= j then k - 1 else k])
  }

  lemma ToFrontElements<T>(s: seq<T>, j: nat)
    requires j < |s|
    ensures multiset(ToFront(s, j)) == multiset(s)
  {
    assert ToFront(s, j) == [s[j]] + s[..j] + s[j + 1..];
    assert s == s[..j] + [s[j]] + s[j + 1..];
  }

  /** A tie between different elements shows in the result: moving one of them changes the sorted list. */
  lemma TieBreaksCanonicality<T(!new)>(le: (T, T) -> bool, s: seq<T>, j: nat)
    requires TotalPreorder(le) && j < |s| && FirstTied(le, s[j], s) != [s[j]]
    ensures multiset(ToFront(s, j)) == multiset(s)
    ensures Sort(le, s) != Sort(le, ToFront(s, j))
    ensures forall coarse :: Refines(le, coarse) ==> Sort(le, s) != Sort(le, Sort(coarse, ToFront(s, j)))
  {
    var front := ToFront(s, j);
    ToFrontElements(s, j);
    SortKeepsFirstTied(le, le, s, s[j]);
    SortKeepsFirstTied(le, le, front, s[j]);
    assert le(s[j], s[j]);
    assert FirstTied(le, s[j], front) == [s[j]];
    forall coarse | Refines(le, coarse)
      ensures Sort(le, s) != Sort(le, Sort(coarse, front))
    {
      SortKeepsFirstTied(le, coarse, front, s[j]);
      SortKeepsFirstTied(le, le, Sort(coarse, front), s[j]);
    }
  }

  // ---------------------------------------------------------------------------
  // Sorting twice

  /** Compares by `p` and breaks ties by `q`. */
  function Lex<T>(p: (T, T) -> bool, q: (T, T) -> bool): (T, T) -> bool {
    (a: T, b: T) => p(a, b) && (p(b, a) ==> q(a, b))
  }

  lemma LexIsPreorder<T(!new)>(p: (T, T) -> bool, q: (T, T) -> bool)
    requires TotalPreorder(p) && TotalPreorder(q)
    ensures TotalPreorder(Lex(p, q)) && Refines(Lex(p, q), p)
  {
  }

  lemma {:induction false} InsertAgrees<T>(p: (T, T) -> bool, q: (T, T) -> bool, x: T, s: seq<T>)
    requires forall y :: y in s ==> p(x, y) == q(x, y)
    ensures Insert(p, x, s) == Insert(q, x, s)
  {
    if s != [] {
      assert s[0] in s;
      InsertAgrees(p, q, x, s[1..]);
    }
  }

  /** Elements that are not tied can be inserted in either order. */
  lemma {:induction false} InsertsCommute<T(!new)>(le: (T, T) -> bool, x: T, z: T, s: seq<T>)
    requires TotalPreorder(le) && !Tied(le, x, z)
    ensures Insert(le, x, Insert(le, z, s)) == Insert(le, z, Insert(le, x, s))
  {
    if s != [] {
      InsertsCommute(le, x, z, s[1..]);
      assert ([s[0]] + Insert(le, z, s[1..]))[1..] == Insert(le, z, s[1..]);
      assert ([s[0]] + Insert(le, x, s[1..]))[1..] == Insert(le, x, s[1..]);
    }
    assert ([x] + s)[1..] == s && ([z] + s)[1..] == s;
  }

  lemma InsertMembers<T>(le: (T, T) -> bool, x: T, s: seq<T>)
    ensures forall y :: y in Insert(le, x, s) <==> y == x || y in s
  {
    InsertElements(le, x, s);
    forall y
      ensures y in Insert(le, x, s) <==> y == x || y in s
    {
      assert y in Insert(le, x, s) <==> y in multiset(Insert(le, x, s));
    }
  }

  lemma SortMembers<T>(le: (T, T) -> bool, s: seq<T>)
    ensures forall y :: y in Sort(le, s) <==> y in s
  {
    SortElements(le, s);
    forall y
      ensures y in Sort(le, s) <==> y in s
    {
      assert y in Sort(le, s) <==> y in multiset(Sort(le, s));
    }
  }

  lemma {:induction false} InsertThenSort<T(!new)>(p: (T, T) -> bool, q: (T, T) -> bool, x: T, s: seq<T>)
    requires TotalPreorder(p) && TotalPreorder(q) && Sorted(q, s)
    ensures Sort(p, Insert(q, x, s)) == Insert(Lex(p, q), x, Sort(p, s))
  {
    SortMembers(p, s);
    if s == [] || q(x, s[0]) {
      assert ([x] + s)[1..] == s;
      InsertAgrees(p, Lex(p, q), x, Sort(p, s));
    } else {
      var y, rest := s[0], s[1..];
      var le := Lex(p, q);
      InsertThenSort(p, q, x, rest);
      assert ([y] + Insert(q, x, rest))[1..] == Insert(q, x, rest);
      SortMembers(p, rest);
      InsertMembers(le, x, Sort(p, rest));
      InsertAgrees(p, le, y, Insert(le, x, Sort(p, rest)));
      InsertAgrees(p, le, y, Sort(p, rest));
      LexIsPreorder(p, q);
      InsertsCommute(le, y, x, Sort(p, rest));
    }
  }

  /** Sorting by `q` and then, stably, by `p` is one sort by `p` with ties broken by `q`. */
  lemma {:induction false} SortTwice<T(!new)>(p: (T, T) -> bool, q: (T, T) -> bool, s: seq<T>)
    requires TotalPreorder(p) && TotalPreorder(q)
    ensures Sort(p, Sort(q, s)) == Sort(Lex(p, q), s)
  {
    if s != [] {
      SortTwice(p, q, s[1..]);
      SortSorts(q, s[1..]);
      InsertThenSort(p, q, s[0], Sort(q, s[1..]));
    }
  }
}
