/**
 The canonical form behind the request hash (src/middleware/idempotency.ts). Hashing is treated
 as injective, so the value that `JSON.stringify` writes stands for the hash. It writes every
 value as it is, except numbers beyond the range of doubles, which become `null`.
 Key comparison is `localeCompare`: any total preorder on strings, given here by a rank.
 */
module CanonicalRequest {
  import opened StableSort

  /** Entries of an object in the order in which JavaScript lists them. */
  datatype Json =
    | Null
    | Bool(b: bool)
    | Num(n: real)
    | Infinite(negative: bool)
    | Str(s: string)
    | Arr(items: seq<Json>)
    | Obj(entries: seq<Field>)
  datatype Field = Field(key: string, value: Json)

  type Collation = string -> real

  function ByKey(c: Collation): (Field, Field) -> bool {
    (a: Field, b: Field) => c(a.key) <= c(b.key)
  }

  // ---------------------------------------------------------------------------
  // Property order

  function Decimal(n: nat): (s: string)
    ensures |s| > 0 && forall i :: 0 <= i < |s| ==> '0' <= s[i] <= '9'
  {
    var digit := ['0' + (n % 10) as char];
    if n < 10 then digit else Decimal(n / 10) + digit
  }

  function Number(digits: string): nat
    requires forall i :: 0 <= i < |digits| ==> '0' <= digits[i] <= '9'
  {
    if digits == [] then 0
    else
      var n := |digits| - 1;
      10 * Number(digits[..n]) + (digits[n] as int - '0' as int)
  }

  lemma {:induction false} NumberOfDecimal(n: nat)
    ensures Number(Decimal(n)) == n
  {
    var s := Decimal(n);
    assert s[|s| - 1] as int - '0' as int == n % 10;
    if n >= 10 {
      NumberOfDecimal(n / 10);
      assert s[..|s| - 1] == Decimal(n / 10);
    }
  }

  /** Array indices are the numbers below this one. */
  const INDEX_LIMIT: nat := 0xFFFF_FFFF

  predicate IsDigits(k: string) { forall i :: 0 <= i < |k| ==> '0' <= k[i] <= '9' }

  predicate IsIndex(k: string) {
    IsDigits(k) && Number(k) < INDEX_LIMIT && Decimal(Number(k)) == k
  }

  function IndexRank(k: string): nat {
    if IsIndex(k) then Number(k) else INDEX_LIMIT
  }

  /**
   Properties are listed with array indices first, in ascending order; the others keep the order
   they were added in.
   */
  function ByIndex(): (Field, Field) -> bool {
    (a: Field, b: Field) => IndexRank(a.key) <= IndexRank(b.key)
  }

  /** How an object lists properties that were added to it in the given order (`Object.fromEntries`). */
  function FromEntries(entries: seq<Field>): seq<Field> {
    Sort(ByIndex(), entries)
  }

  /** Only keys that are not indices share a rank. */
  lemma SameRank(k: string, l: string)
    requires k != l && IndexRank(k) == IndexRank(l)
    ensures !IsIndex(k) && !IsIndex(l)
  {
  }

  lemma IndexRankOfDecimal(n: nat)
    requires n < INDEX_LIMIT
    ensures IndexRank(Decimal(n)) == n
  {
    NumberOfDecimal(n);
  }

  // ---------------------------------------------------------------------------
  // stableValue

  /**
   `stableValue` as it is then written out. Sorting looks at keys only, so canonicalizing the
   values first gives the same list.
   */
  function Stable(c: Collation, v: Json): Json {
    match v
    case Arr(items) => Arr(StableItems(c, items))
    case Obj(entries) => Obj(FromEntries(Sort(ByKey(c), StableFields(c, entries))))
    case Infinite(_) => Null
    case _ => v
  }

  function StableItems(c: Collation, items: seq<Json>): (r: seq<Json>)
    ensures |r| == |items|
  {
    if items == [] then [] else [Stable(c, items[0])] + StableItems(c, items[1..])
  }

  function StableFields(c: Collation, entries: seq<Field>): (r: seq<Field>)
    ensures |r| == |entries|
  {
    if entries == [] then []
    else [Field(entries[0].key, Stable(c, entries[0].value))] + StableFields(c, entries[1..])
  }

  // ---------------------------------------------------------------------------
  // Meaning: what a value, written out as JSON, is when the order of object keys does not count

  datatype Meaning =
    | MLeaf(leaf: Json)
    | MArr(items: seq<Meaning>)
    | MObj(fields: map<string, Meaning>)

  ghost function Mean(v: Json): Meaning {
    match v
    case Arr(items) => MArr(MeanItems(items))
    case Obj(entries) => MObj(MeanFields(entries))
    case Infinite(_) => MLeaf(Null)
    case _ => MLeaf(v)
  }

  ghost function MeanItems(items: seq<Json>): (r: seq<Meaning>)
    ensures |r| == |items|
  {
    if items == [] then [] else [Mean(items[0])] + MeanItems(items[1..])
  }

  ghost function MeanFields(entries: seq<Field>): map<string, Meaning> {
    if entries == [] then map[]
    else MeanFields(entries[1..])[entries[0].key := Mean(entries[0].value)]
  }

  ghost predicate DistinctKeys(entries: seq<Field>) {
    forall i, j :: 0 <= i < j < |entries| ==> entries[i].key != entries[j].key
  }

  /** A JavaScript object holds no key twice and lists array indices first; arrays have an index for every element. */
  ghost predicate WellFormed(v: Json) {
    match v
    case Arr(items) => |items| <= INDEX_LIMIT && forall i :: 0 <= i < |items| ==> WellFormed(items[i])
    case Obj(entries) =>
      && DistinctKeys(entries) && Sorted(ByIndex(), entries)
      && forall i :: 0 <= i < |entries| ==> WellFormed(entries[i].value)
    case _ => true
  }

  /** No two tied keys that are both not array indices. */
  ghost predicate Separates(c: Collation, entries: seq<Field>) {
    forall i, j :: 0 <= i < j < |entries| && !IsIndex(entries[i].key) && !IsIndex(entries[j].key) ==>
      c(entries[i].key) != c(entries[j].key)
  }

  /** The collation tells the keys of every object apart, at every depth, array indices excepted. */
  ghost predicate Distinguished(c: Collation, v: Json) {
    match v
    case Arr(items) => forall i :: 0 <= i < |items| ==> Distinguished(c, items[i])
    case Obj(entries) =>
      Separates(c, entries) && forall i :: 0 <= i < |entries| ==> Distinguished(c, entries[i].value)
    case _ => true
  }

  // ---------------------------------------------------------------------------
  // Element-wise readings of the recursive definitions

  lemma {:induction false} ItemsAt(c: Collation, items: seq<Json>)
    ensures forall i :: 0 <= i < |items| ==> StableItems(c, items)[i] == Stable(c, items[i])
    ensures forall i :: 0 <= i < |items| ==> MeanItems(items)[i] == Mean(items[i])
  {
    if items != [] {
      ItemsAt(c, items[1..]);
    }
  }

  lemma {:induction false} FieldsAt(c: Collation, entries: seq<Field>)
    ensures forall i :: 0 <= i < |entries| ==>
              StableFields(c, entries)[i] == Field(entries[i].key, Stable(c, entries[i].value))
  {
    if entries != [] {
      FieldsAt(c, entries[1..]);
    }
  }

  lemma {:induction false} MeanKeys(entries: seq<Field>, k: string)
    ensures k in MeanFields(entries) <==> exists i :: 0 <= i < |entries| && entries[i].key == k
  {
    if entries != [] {
      MeanKeys(entries[1..], k);
      if i :| 0 <= i < |entries| && entries[i].key == k {
        assert i == 0 || entries[1..][i - 1].key == k;
      }
    }
  }

  lemma {:induction false} MeanAt(entries: seq<Field>, i: nat)
    requires DistinctKeys(entries) && i < |entries|
    ensures entries[i].key in MeanFields(entries)
    ensures MeanFields(entries)[entries[i].key] == Mean(entries[i].value)
  {
    if i > 0 {
      MeanAt(entries[1..], i - 1);
    }
  }

  ghost predicate Has(entries: seq<Field>, k: string, m: Meaning) {
    exists i :: 0 <= i < |entries| && entries[i].key == k && Mean(entries[i].value) == m
  }

  ghost predicate Carries(a: seq<Field>, b: seq<Field>) {
    forall i :: 0 <= i < |a| ==> Has(b, a[i].key, Mean(a[i].value))
  }

  lemma CarriesAt(a: seq<Field>, b: seq<Field>, k: string)
    requires DistinctKeys(a) && DistinctKeys(b) && Carries(a, b) && k in MeanFields(a)
    ensures k in MeanFields(b) && MeanFields(b)[k] == MeanFields(a)[k]
  {
    MeanKeys(a, k);
    var i :| 0 <= i < |a| && a[i].key == k;
    MeanAt(a, i);
    assert Has(b, a[i].key, Mean(a[i].value));
    var j :| 0 <= j < |b| && b[j].key == k && Mean(b[j].value) == Mean(a[i].value);
    MeanAt(b, j);
  }

  /** Entries with the same pairs of key and meaning have the same meaning, in any order. */
  lemma SameFieldsSameMeaning(a: seq<Field>, b: seq<Field>)
    requires DistinctKeys(a) && DistinctKeys(b) && Carries(a, b) && Carries(b, a)
    ensures MeanFields(a) == MeanFields(b)
  {
    forall k
      ensures k in MeanFields(a) <==> k in MeanFields(b)
      ensures k in MeanFields(a) ==> MeanFields(a)[k] == MeanFields(b)[k]
    {
      if k in MeanFields(a) {
        CarriesAt(a, b, k);
      } else if k in MeanFields(b) {
        CarriesAt(b, a, k);
      }
    }
  }

  lemma SamePositions(a: seq<Field>, b: seq<Field>)
    requires |a| == |b|
    requires forall i :: 0 <= i < |a| ==> a[i].key == b[i].key && Mean(a[i].value) == Mean(b[i].value)
    ensures Carries(a, b)
  {
    forall i | 0 <= i < |a|
      ensures Has(b, a[i].key, Mean(a[i].value))
    {
      assert b[i].key == a[i].key;
    }
  }

  lemma InBoth<T>(a: seq<T>, b: seq<T>, i: nat) returns (j: nat)
    requires multiset(a) == multiset(b) && i < |a|
    ensures j < |b| && b[j] == a[i]
  {
    assert a[i] in multiset(a);
    assert a[i] in b;
    j :| j < |b| && b[j] == a[i];
  }

  lemma {:induction false} PermutedKeys(a: seq<Field>, b: seq<Field>)
    requires DistinctKeys(a) && multiset(a) == multiset(b)
    ensures DistinctKeys(b)
  {
    forall i, j | 0 <= i < j < |b|
      ensures b[i].key != b[j].key
    {
      var p := InBoth(b, a, i);
      var q := InBoth(b, a, j);
      if p == q {
        TwiceIsTwo(b, i, j);
        DistinctIsOnce(a, p);
        assert false;
      }
    }
  }

  lemma TwiceIsTwo<T>(s: seq<T>, i: nat, j: nat)
    requires i < j < |s| && s[i] == s[j]
    ensures multiset(s)[s[i]] >= 2
  {
    assert s == s[..i] + [s[i]] + s[i + 1..j] + [s[j]] + s[j + 1..];
  }

  lemma DistinctIsOnce(s: seq<Field>, p: nat)
    requires DistinctKeys(s) && p < |s|
    ensures multiset(s)[s[p]] == 1
  {
    assert s == s[..p] + [s[p]] + s[p + 1..];
    assert s[p] !in s[..p] && s[p] !in s[p + 1..];
    assert multiset(s[..p])[s[p]] == 0 && multiset(s[p + 1..])[s[p]] == 0;
  }

  lemma PermutedCarries(a: seq<Field>, b: seq<Field>)
    requires multiset(a) == multiset(b)
    ensures Carries(a, b)
  {
    forall i | 0 <= i < |a|
      ensures Has(b, a[i].key, Mean(a[i].value))
    {
      var j := InBoth(a, b, i);
    }
  }

  lemma PermutedMeaning(a: seq<Field>, b: seq<Field>)
    requires DistinctKeys(a) && multiset(a) == multiset(b)
    ensures DistinctKeys(b) && MeanFields(a) == MeanFields(b)
  {
    PermutedKeys(a, b);
    PermutedCarries(a, b);
    PermutedCarries(b, a);
    SameFieldsSameMeaning(a, b);
  }

  /** The order of a canonical object: indices first and by number, then the other keys by collation. */
  function Order(c: Collation): (Field, Field) -> bool {
    Lex(ByIndex(), ByKey(c))
  }

  lemma OrderIsPreorder(c: Collation)
    ensures TotalPreorder(ByIndex()) && TotalPreorder(Order(c)) && Refines(Order(c), ByIndex())
  {
    assert TotalPreorder(ByIndex()) && TotalPreorder(ByKey(c));
    LexIsPreorder(ByIndex(), ByKey(c));
  }

  /** Sorting by `localeCompare` and listing the result again is one sort. */
  lemma StableObject(c: Collation, entries: seq<Field>)
    ensures Stable(c, Obj(entries)) == Obj(Sort(Order(c), StableFields(c, entries)))
  {
    assert TotalPreorder(ByIndex()) && TotalPreorder(ByKey(c));
    SortTwice(ByIndex(), ByKey(c), StableFields(c, entries));
  }

  lemma SortedByOrder(c: Collation, s: seq<Field>)
    ensures Sorted(Order(c), Sort(Order(c), s)) && Sorted(ByIndex(), Sort(Order(c), s))
  {
    OrderIsPreorder(c);
    SortSorts(Order(c), s);
  }

  // ---------------------------------------------------------------------------
  // Canonicalization preserves meaning and is idempotent

  /** Reordering keys is the only thing canonicalization does. */
  lemma {:induction false} StableKeepsMeaning(c: Collation, v: Json)
    requires WellFormed(v)
    ensures Mean(Stable(c, v)) == Mean(v) && WellFormed(Stable(c, v))
  {
    match v
    case Arr(items) =>
      forall i | 0 <= i < |items|
        ensures Mean(Stable(c, items[i])) == Mean(items[i]) && WellFormed(Stable(c, items[i]))
      {
        StableKeepsMeaning(c, items[i]);
      }
      ItemsAt(c, items);
      ItemsAt(c, StableItems(c, items));
      assert MeanItems(StableItems(c, items)) == MeanItems(items);
    case Obj(entries) =>
      forall i | 0 <= i < |entries|
        ensures Mean(Stable(c, entries[i].value)) == Mean(entries[i].value) && WellFormed(Stable(c, entries[i].value))
      {
        StableKeepsMeaning(c, entries[i].value);
      }
      FieldsAt(c, entries);
      StableFieldsMeaning(c, entries);
      var fields := StableFields(c, entries);
      var sorted := Sort(Order(c), fields);
      StableObject(c, entries);
      SortElements(Order(c), fields);
      SortedByOrder(c, fields);
      PermutedMeaning(fields, sorted);
      forall j | 0 <= j < |sorted|
        ensures WellFormed(sorted[j].value)
      {
        var i := InBoth(sorted, fields, j);
      }
    case _ =>
  }

  lemma StableFieldsMeaning(c: Collation, entries: seq<Field>)
    requires DistinctKeys(entries)
    requires forall i :: 0 <= i < |entries| ==> Mean(Stable(c, entries[i].value)) == Mean(entries[i].value)
    ensures DistinctKeys(StableFields(c, entries))
    ensures MeanFields(StableFields(c, entries)) == MeanFields(entries)
  {
    FieldsAt(c, entries);
    var fields := StableFields(c, entries);
    assert forall i :: 0 <= i < |fields| ==>
             fields[i].key == entries[i].key && Mean(fields[i].value) == Mean(entries[i].value);
    SamePositions(entries, fields);
    SamePositions(fields, entries);
    SameFieldsSameMeaning(entries, fields);
  }

  /** Canonicalizing twice changes nothing, whatever the collation ties. */
  lemma {:induction false} StableIsIdempotent(c: Collation, v: Json)
    ensures Stable(c, Stable(c, v)) == Stable(c, v)
  {
    match v
    case Arr(items) =>
      forall i | 0 <= i < |items|
        ensures Stable(c, Stable(c, items[i])) == Stable(c, items[i])
      {
        StableIsIdempotent(c, items[i]);
      }
      ItemsAt(c, items);
      ItemsAt(c, StableItems(c, items));
      assert StableItems(c, StableItems(c, items)) == StableItems(c, items);
    case Obj(entries) =>
      forall i | 0 <= i < |entries|
        ensures Stable(c, Stable(c, entries[i].value)) == Stable(c, entries[i].value)
      {
        StableIsIdempotent(c, entries[i].value);
      }
      FieldsAt(c, entries);
      var fields := StableFields(c, entries);
      var sorted := Sort(Order(c), fields);
      StableObject(c, entries);
      StableObject(c, sorted);
      SortElements(Order(c), fields);
      FieldsAt(c, sorted);
      forall j | 0 <= j < |sorted|
        ensures StableFields(c, sorted)[j] == sorted[j]
      {
        var i := InBoth(sorted, fields, j);
      }
      assert StableFields(c, sorted) == sorted;
      SortedByOrder(c, fields);
      SortFixesSorted(Order(c), sorted);
    case _ =>
  }

  // ---------------------------------------------------------------------------
  // Completeness: equal meanings have one canonical form, exactly without ties

  lemma {:induction false} EqualMeaningsCanonicalize(c: Collation, v: Json, w: Json)
    requires WellFormed(v) && WellFormed(w) && Distinguished(c, v) && Mean(v) == Mean(w)
    ensures Stable(c, v) == Stable(c, w)
    decreases v
  {
    match v
    case Arr(items) =>
      ItemsAt(c, items);
      ItemsAt(c, w.items);
      forall i | 0 <= i < |items|
        ensures Stable(c, items[i]) == Stable(c, w.items[i])
      {
        assert MeanItems(items)[i] == MeanItems(w.items)[i];
        EqualMeaningsCanonicalize(c, items[i], w.items[i]);
      }
      assert StableItems(c, items) == StableItems(c, w.items);
    case Obj(entries) =>
      forall i, j | 0 <= i < |entries| && 0 <= j < |w.entries| && entries[i].key == w.entries[j].key
        ensures Stable(c, entries[i].value) == Stable(c, w.entries[j].value)
      {
        MeanAt(entries, i);
        MeanAt(w.entries, j);
        EqualMeaningsCanonicalize(c, entries[i].value, w.entries[j].value);
      }
      SameCanonicalFields(c, entries, w.entries);
      StableObject(c, entries);
      StableObject(c, w.entries);
    case _ =>
  }

  lemma SameCanonicalFields(c: Collation, a: seq<Field>, b: seq<Field>)
    requires DistinctKeys(a) && DistinctKeys(b) && Separates(c, a) && MeanFields(a) == MeanFields(b)
    requires forall i, j :: 0 <= i < |a| && 0 <= j < |b| && a[i].key == b[j].key ==>
               Stable(c, a[i].value) == Stable(c, b[j].value)
    ensures Sort(Order(c), StableFields(c, a)) == Sort(Order(c), StableFields(c, b))
  {
    var x, y := StableFields(c, a), StableFields(c, b);
    FieldsAt(c, a);
    FieldsAt(c, b);
    forall i | 0 <= i < |x|
      ensures x[i] in y
    {
      MeanKeys(a, a[i].key);
      MeanKeys(b, a[i].key);
      var j :| 0 <= j < |b| && b[j].key == a[i].key;
      assert y[j] == x[i];
    }
    forall j | 0 <= j < |y|
      ensures y[j] in x
    {
      MeanKeys(b, b[j].key);
      MeanKeys(a, b[j].key);
      var i :| 0 <= i < |a| && a[i].key == b[j].key;
      assert x[i] == y[j];
    }
    SameElements(x, y);
    OrderIsPreorder(c);
    SeparatedIsTieFree(c, a);
    SortIsCanonical(Order(c), x, y);
  }

  lemma SeparatedIsTieFree(c: Collation, a: seq<Field>)
    requires DistinctKeys(a) && Separates(c, a)
    ensures TieFree(Order(c), StableFields(c, a))
  {
    FieldsAt(c, a);
    forall i, j | 0 <= i < j < |a|
      ensures !Tied(Order(c), StableFields(c, a)[i], StableFields(c, a)[j])
    {
      if IndexRank(a[i].key) == IndexRank(a[j].key) {
        SameRank(a[i].key, a[j].key);
      }
    }
  }

  lemma SameElements(a: seq<Field>, b: seq<Field>)
    requires DistinctKeys(a) && DistinctKeys(b)
    requires (forall i :: 0 <= i < |a| ==> a[i] in b) && (forall j :: 0 <= j < |b| ==> b[j] in a)
    ensures multiset(a) == multiset(b)
  {
    forall f: Field
      ensures multiset(a)[f] == multiset(b)[f]
    {
      if f in a {
        var i :| 0 <= i < |a| && a[i] == f;
        var j :| 0 <= j < |b| && b[j] == f;
        DistinctIsOnce(a, i);
        DistinctIsOnce(b, j);
      }
    }
  }

  ghost predicate Leaks(c: Collation, v: Json, w: Json) {
    WellFormed(w) && Mean(w) == Mean(v) && Stable(c, w) != Stable(c, v)
  }

  lemma ItemLeaks(c: Collation, items: seq<Json>, i: nat, wi: Json)
    requires WellFormed(Arr(items)) && i < |items| && Leaks(c, items[i], wi)
    ensures Leaks(c, Arr(items), Arr(items[i := wi]))
  {
    var changed := items[i := wi];
    ItemsAt(c, items);
    ItemsAt(c, changed);
    assert MeanItems(changed) == MeanItems(items);
    assert StableItems(c, changed)[i] != StableItems(c, items)[i];
  }

  lemma FieldLeaks(c: Collation, entries: seq<Field>, i: nat, wi: Json)
    requires WellFormed(Obj(entries)) && i < |entries| && Leaks(c, entries[i].value, wi)
    ensures Leaks(c, Obj(entries), Obj(entries[i := Field(entries[i].key, wi)]))
  {
    var changed := entries[i := Field(entries[i].key, wi)];
    ChangedFieldMeaning(entries, changed);
    ChangedFieldShows(c, entries, changed, i);
    StableObject(c, entries);
    StableObject(c, changed);
  }

  lemma ChangedFieldMeaning(entries: seq<Field>, changed: seq<Field>)
    requires WellFormed(Obj(entries)) && |changed| == |entries|
    requires forall k :: 0 <= k < |entries| ==>
               && changed[k].key == entries[k].key && WellFormed(changed[k].value)
               && Mean(changed[k].value) == Mean(entries[k].value)
    ensures WellFormed(Obj(changed)) && Mean(Obj(changed)) == Mean(Obj(entries))
  {
    SamePositions(entries, changed);
    SamePositions(changed, entries);
    SameFieldsSameMeaning(entries, changed);
  }

  /**
   Tied keys anywhere inside a value, none of them an array index: some reordering of it has
   another canonical form.
   */
  lemma {:induction false} TiedKeysLeak(c: Collation, v: Json) returns (w: Json)
    requires WellFormed(v) && !Distinguished(c, v)
    ensures Leaks(c, v, w)
    ensures v.Obj? ==> w.Obj?
    decreases v
  {
    match v
    case Arr(items) =>
      var i :| 0 <= i < |items| && !Distinguished(c, items[i]);
      var wi := TiedKeysLeak(c, items[i]);
      ItemLeaks(c, items, i, wi);
      w := Arr(items[i := wi]);
    case Obj(entries) =>
      if Separates(c, entries) {
        var i :| 0 <= i < |entries| && !Distinguished(c, entries[i].value);
        var wi := TiedKeysLeak(c, entries[i].value);
        FieldLeaks(c, entries, i, wi);
        w := Obj(entries[i := Field(entries[i].key, wi)]);
      } else {
        w := TopLevelTieLeaks(c, entries);
      }
  }

  lemma ChangedFieldShows(c: Collation, a: seq<Field>, b: seq<Field>, i: nat)
    requires DistinctKeys(a) && DistinctKeys(b) && i < |a| == |b| && a[i].key == b[i].key
    requires Stable(c, a[i].value) != Stable(c, b[i].value)
    ensures Sort(Order(c), StableFields(c, a)) != Sort(Order(c), StableFields(c, b))
  {
    var x, y := StableFields(c, a), StableFields(c, b);
    forall j | 0 <= j < |y|
      ensures y[j] != x[i]
    {
      FieldAt(c, a, i);
      FieldAt(c, b, j);
    }
    SortTellsApart(Order(c), x, y, i);
  }

  lemma SortTellsApart(le: (Field, Field) -> bool, x: seq<Field>, y: seq<Field>, i: nat)
    requires i < |x| && forall j :: 0 <= j < |y| ==> y[j] != x[i]
    ensures Sort(le, x) != Sort(le, y)
  {
    SortMembers(le, x);
    SortMembers(le, y);
    assert x[i] in x && x[i] !in y;
  }

  lemma TopLevelTie(c: Collation, entries: seq<Field>) returns (j: nat)
    requires DistinctKeys(entries) && !Separates(c, entries)
    ensures j < |entries|
    ensures var fields := StableFields(c, entries);
            FirstTied(Order(c), fields[j], fields) != [fields[j]]
  {
    var fields := StableFields(c, entries);
    FieldsAt(c, entries);
    OrderIsPreorder(c);
    var p, q :| 0 <= p < q < |entries| && !IsIndex(entries[p].key) && !IsIndex(entries[q].key)
      && c(entries[p].key) == c(entries[q].key);
    assert fields[p] != fields[q];
    assert Tied(Order(c), fields[p], fields[q]);
    j := TieIsLate(Order(c), fields);
  }

  lemma FieldAt(c: Collation, entries: seq<Field>, k: nat)
    requires k < |entries|
    ensures StableFields(c, entries)[k] == Field(entries[k].key, Stable(c, entries[k].value))
  {
    FieldsAt(c, entries);
  }

  lemma MovedAt(c: Collation, entries: seq<Field>, j: nat, k: nat)
    requires j < |entries| && k < |entries|
    ensures StableFields(c, ToFront(entries, j))[k] == ToFront(StableFields(c, entries), j)[k]
  {
    FieldAt(c, ToFront(entries, j), k);
    FieldAt(c, entries, if k == 0 then j else if k <= j then k - 1 else k);
  }

  lemma MoveCommutes(c: Collation, entries: seq<Field>, j: nat)
    requires j < |entries|
    ensures StableFields(c, ToFront(entries, j)) == ToFront(StableFields(c, entries), j)
  {
    forall k | 0 <= k < |entries|
      ensures StableFields(c, ToFront(entries, j))[k] == ToFront(StableFields(c, entries), j)[k]
    {
      MovedAt(c, entries, j, k);
    }
  }

  lemma {:induction false} InsertCommutes(c: Collation, f: Field, s: seq<Field>)
    ensures StableFields(c, Insert(ByIndex(), f, s))
         == Insert(ByIndex(), Field(f.key, Stable(c, f.value)), StableFields(c, s))
  {
    if s != [] && !ByIndex()(f, s[0]) {
      InsertCommutes(c, f, s[1..]);
      assert ([s[0]] + Insert(ByIndex(), f, s[1..]))[1..] == Insert(ByIndex(), f, s[1..]);
    } else {
      assert ([f] + s)[1..] == s;
    }
  }

  /** Listing an object and canonicalizing its values do not interfere. */
  lemma {:induction false} ListingCommutes(c: Collation, s: seq<Field>)
    ensures StableFields(c, FromEntries(s)) == FromEntries(StableFields(c, s))
  {
    if s != [] {
      ListingCommutes(c, s[1..]);
      InsertCommutes(c, s[0], FromEntries(s[1..]));
    }
  }

  lemma TopLevelTieLeaks(c: Collation, entries: seq<Field>) returns (w: Json)
    requires WellFormed(Obj(entries)) && !Separates(c, entries)
    ensures Leaks(c, Obj(entries), w) && w.Obj?
  {
    var j := TopLevelTie(c, entries);
    OrderIsPreorder(c);
    TieBreaksCanonicality(Order(c), StableFields(c, entries), j);
    MoveCommutes(c, entries, j);
    ListingCommutes(c, ToFront(entries, j));
    var moved := FromEntries(ToFront(entries, j));
    StableObject(c, entries);
    StableObject(c, moved);
    ToFrontElements(entries, j);
    ReorderedObject(entries, ToFront(entries, j));
    w := Obj(moved);
  }

  /** Adding the properties of an object in another order gives an object with the same meaning. */
  lemma ReorderedObject(entries: seq<Field>, added: seq<Field>)
    requires WellFormed(Obj(entries)) && multiset(added) == multiset(entries)
    ensures WellFormed(Obj(FromEntries(added))) && Mean(Obj(FromEntries(added))) == Mean(Obj(entries))
  {
    var listed := FromEntries(added);
    SortElements(ByIndex(), added);
    SortSorts(ByIndex(), added);
    PermutedMeaning(entries, listed);
    forall k | 0 <= k < |listed|
      ensures WellFormed(listed[k].value)
    {
      var i := InBoth(listed, entries, k);
    }
  }

  /**
   The canonical form of a value ignores key order exactly when the collation ties no two keys
   of one object that are both not array indices: it is then a complete normal form of the meaning.
   */
  lemma CanonicalIff(c: Collation, v: Json)
    requires WellFormed(v)
    ensures Distinguished(c, v) <==>
            forall w :: WellFormed(w) ==> (Stable(c, v) == Stable(c, w) <==> Mean(v) == Mean(w))
  {
    if Distinguished(c, v) {
      forall w | WellFormed(w)
        ensures Stable(c, v) == Stable(c, w) <==> Mean(v) == Mean(w)
      {
        StableKeepsMeaning(c, v);
        StableKeepsMeaning(c, w);
        if Mean(v) == Mean(w) {
          EqualMeaningsCanonicalize(c, v, w);
        }
      }
    } else {
      var w := TiedKeysLeak(c, v);
      assert WellFormed(w) && Mean(v) == Mean(w) && Stable(c, v) != Stable(c, w);
    }
  }

  // ---------------------------------------------------------------------------
  // The request

  datatype Param = Param(key: string, value: string)
  datatype File = NoFile | File(name: string, mimeType: string, size: nat, sha256: string)
  datatype Request = Request(verb: string, path: string, query: seq<Param>, body: Json, file: File)

  const DROPPED := {"offline", "idempotency_key"}

  function ByParam(c: Collation): (Param, Param) -> bool {
    (a: Param, b: Param) => c(a.key) < c(b.key) || (c(a.key) == c(b.key) && c(a.value) <= c(b.value))
  }

  lemma ByParamIsPreorder(c: Collation)
    ensures TotalPreorder(ByParam(c))
  {
  }

  function Kept(entries: seq<Field>): seq<Field> {
    if entries == [] then []
    else (if entries[0].key in DROPPED then [] else [entries[0]]) + Kept(entries[1..])
  }

  /** `Object.entries` of an array: its elements under their decimal indices. */
  function Indexed(items: seq<Json>): (r: seq<Field>)
    ensures |r| == |items|
    ensures forall i :: 0 <= i < |items| ==> r[i] == Field(Decimal(i), items[i])
  {
    if items == [] then []
    else
      var n := |items| - 1;
      Indexed(items[..n]) + [Field(Decimal(n), items[n])]
  }

  /** The hashed body: objects lose two fields, and an array body becomes an object. */
  function Payload(body: Json): Json {
    match body
    case Obj(entries) => Obj(FromEntries(Kept(entries)))
    case Arr(items) => Obj(FromEntries(Kept(Indexed(items))))
    case _ => body
  }

  datatype Canonical = Canonical(verb: string, path: string, query: seq<Param>, body: Json, file: File)

  /** The value that is serialized and hashed. */
  function Hashed(c: Collation, r: Request): Canonical {
    Canonical(r.verb, r.path, Sort(ByParam(c), r.query), Stable(c, Payload(r.body)), r.file)
  }

  /** What a body means to the hash: object fields by name, array elements by decimal index. */
  ghost function BodyMeaning(body: Json): Meaning {
    match body
    case Obj(entries) => MObj(MeanFields(entries) - DROPPED)
    case Arr(items) => MObj(MeanFields(Indexed(items)) - DROPPED)
    case _ => Mean(body)
  }

  ghost predicate SameRequest(a: Request, b: Request) {
    && a.verb == b.verb && a.path == b.path && a.file == b.file
    && multiset(a.query) == multiset(b.query)
    && BodyMeaning(a.body) == BodyMeaning(b.body)
  }

  ghost predicate Clear(c: Collation, r: Request) {
    TieFree(ByParam(c), r.query) && Distinguished(c, Payload(r.body))
  }

  lemma {:induction false} KeptElements(entries: seq<Field>)
    ensures forall f :: f in Kept(entries) <==> f in entries && f.key !in DROPPED
  {
    if entries != [] {
      KeptElements(entries[1..]);
      assert entries == [entries[0]] + entries[1..];
    }
  }

  lemma {:induction false} KeptDistinct(entries: seq<Field>)
    requires DistinctKeys(entries)
    ensures DistinctKeys(Kept(entries))
  {
    if entries != [] {
      KeptDistinct(entries[1..]);
      KeptElements(entries[1..]);
      var rest := Kept(entries[1..]);
      forall j | 0 <= j < |rest|
        ensures rest[j].key != entries[0].key
      {
        assert rest[j] in rest;
        assert rest[j] in entries[1..];
      }
    }
  }

  lemma {:induction false} NothingKept(entries: seq<Field>)
    requires forall f :: f in entries ==> f.key !in DROPPED
    ensures Kept(entries) == entries
  {
    if entries != [] {
      assert entries[0] in entries;
      NothingKept(entries[1..]);
    }
  }

  lemma {:induction false} KeptMeaning(entries: seq<Field>)
    requires DistinctKeys(entries)
    ensures MeanFields(Kept(entries)) == MeanFields(entries) - DROPPED
  {
    if entries != [] {
      KeptMeaning(entries[1..]);
      var f := entries[0];
      var rest := Kept(entries[1..]);
      if f.key in DROPPED {
        assert Kept(entries) == rest;
      } else {
        assert Kept(entries) == [f] + rest;
        assert Kept(entries)[1..] == rest;
      }
    }
  }

  lemma IndexedDistinct(items: seq<Json>)
    ensures DistinctKeys(Indexed(items))
  {
    forall i, j | 0 <= i < j < |items|
      ensures Decimal(i) != Decimal(j)
    {
      NumberOfDecimal(i);
      NumberOfDecimal(j);
    }
  }

  /** An array lists its elements like the object with its indices as keys. */
  lemma IndexedWellFormed(items: seq<Json>)
    requires WellFormed(Arr(items))
    ensures WellFormed(Obj(Indexed(items)))
  {
    IndexedDistinct(items);
    forall i, j | 0 <= i < j < |items|
      ensures ByIndex()(Indexed(items)[i], Indexed(items)[j])
    {
      IndexRankOfDecimal(i);
      IndexRankOfDecimal(j);
    }
  }

  lemma KeptWellFormed(entries: seq<Field>)
    requires WellFormed(Obj(entries))
    ensures var p := Obj(FromEntries(Kept(entries)));
            && WellFormed(p) && Mean(p) == MObj(MeanFields(entries) - DROPPED)
            && forall f :: f in p.entries <==> f in entries && f.key !in DROPPED
  {
    var kept := Kept(entries);
    KeptElements(entries);
    KeptDistinct(entries);
    KeptMeaning(entries);
    var listed := FromEntries(kept);
    SortElements(ByIndex(), kept);
    SortMembers(ByIndex(), kept);
    SortSorts(ByIndex(), kept);
    PermutedMeaning(kept, listed);
    forall i | 0 <= i < |listed|
      ensures WellFormed(listed[i].value)
    {
      assert listed[i] in listed;
      var j :| 0 <= j < |entries| && entries[j] == listed[i];
    }
  }

  lemma PayloadWellFormed(body: Json)
    requires WellFormed(body)
    ensures WellFormed(Payload(body)) && Mean(Payload(body)) == BodyMeaning(body)
    ensures Payload(body).Obj? ==> forall f :: f in Payload(body).entries ==> f.key !in DROPPED
  {
    match body
    case Obj(entries) => KeptWellFormed(entries);
    case Arr(items) =>
      IndexedWellFormed(items);
      KeptWellFormed(Indexed(items));
    case _ =>
  }

  /**
   Two requests get the same hash exactly when they agree up to key order at every depth,
   the order of query parameters, and the two dropped fields.
   */
  lemma SameHashIff(c: Collation, a: Request, b: Request)
    requires WellFormed(a.body) && WellFormed(b.body) && Clear(c, a)
    ensures Hashed(c, a) == Hashed(c, b) <==> SameRequest(a, b)
  {
    PayloadWellFormed(a.body);
    PayloadWellFormed(b.body);
    CanonicalIff(c, Payload(a.body));
    SortElements(ByParam(c), a.query);
    SortElements(ByParam(c), b.query);
    ByParamIsPreorder(c);
    if multiset(a.query) == multiset(b.query) {
      SortIsCanonical(ByParam(c), a.query, b.query);
    }
  }

  /** Two requests hashed alike always mean the same, ties or not. */
  lemma SameHashIsSound(c: Collation, a: Request, b: Request)
    requires WellFormed(a.body) && WellFormed(b.body) && Hashed(c, a) == Hashed(c, b)
    ensures SameRequest(a, b)
  {
    PayloadWellFormed(a.body);
    PayloadWellFormed(b.body);
    StableKeepsMeaning(c, Payload(a.body));
    StableKeepsMeaning(c, Payload(b.body));
    SortElements(ByParam(c), a.query);
    SortElements(ByParam(c), b.query);
  }

  lemma QueryTieSplits(c: Collation, a: Request) returns (b: Request)
    requires !TieFree(ByParam(c), a.query)
    ensures b.body == a.body && SameRequest(a, b) && Hashed(c, a) != Hashed(c, b)
  {
    ByParamIsPreorder(c);
    var j := TieIsLate(ByParam(c), a.query);
    TieBreaksCanonicality(ByParam(c), a.query, j);
    b := a.(query := ToFront(a.query, j));
  }

  lemma BodyTieSplits(c: Collation, a: Request) returns (b: Request)
    requires WellFormed(a.body) && !Distinguished(c, Payload(a.body))
    ensures WellFormed(b.body) && SameRequest(a, b) && Hashed(c, a) != Hashed(c, b)
  {
    PayloadWellFormed(a.body);
    var w := TiedKeysLeak(c, Payload(a.body));
    NothingToDrop(Payload(a.body), w);
    PayloadWellFormed(w);
    b := a.(body := w);
  }

  /** If the collation ties something in the request, an equal request exists with another hash. */
  lemma TiesSplitRequests(c: Collation, a: Request) returns (b: Request)
    requires WellFormed(a.body) && !Clear(c, a)
    ensures WellFormed(b.body) && SameRequest(a, b) && Hashed(c, a) != Hashed(c, b)
  {
    if TieFree(ByParam(c), a.query) {
      b := BodyTieSplits(c, a);
    } else {
      b := QueryTieSplits(c, a);
    }
  }

  lemma NothingToDrop(p: Json, w: Json)
    requires WellFormed(w) && w.Obj? && Mean(w) == Mean(p)
    requires p.Obj? && forall f :: f in p.entries ==> f.key !in DROPPED
    ensures Payload(w) == w
  {
    forall f | f in w.entries
      ensures f.key !in DROPPED
    {
      var i :| 0 <= i < |w.entries| && w.entries[i] == f;
      MeanKeys(w.entries, f.key);
      MeanKeys(p.entries, f.key);
      var j :| 0 <= j < |p.entries| && p.entries[j].key == f.key;
      assert p.entries[j] in p.entries;
    }
    NothingKept(w.entries);
    SortFixesSorted(ByIndex(), w.entries);
  }

  /** The hash identifies equal requests exactly when nothing in the request is tied. */
  lemma HashIsExactIff(c: Collation, a: Request)
    requires WellFormed(a.body)
    ensures Clear(c, a) <==>
            forall b: Request :: WellFormed(b.body) ==> (Hashed(c, a) == Hashed(c, b) <==> SameRequest(a, b))
  {
    if Clear(c, a) {
      forall b: Request | WellFormed(b.body)
        ensures Hashed(c, a) == Hashed(c, b) <==> SameRequest(a, b)
      {
        SameHashIff(c, a, b);
      }
    } else {
      var b := TiesSplitRequests(c, a);
      assert WellFormed(b.body) && SameRequest(a, b) && Hashed(c, a) != Hashed(c, b);
    }
  }

  /** An array body is hashed as the object with its indices as keys. */
  lemma ArrayBodyCollides(c: Collation, r: Request, items: seq<Json>)
    requires WellFormed(Arr(items))
    ensures WellFormed(Obj(Indexed(items)))
    ensures Hashed(c, r.(body := Arr(items))) == Hashed(c, r.(body := Obj(Indexed(items))))
    ensures Arr(items) != Obj(Indexed(items))
  {
    IndexedWellFormed(items);
  }

  // ---------------------------------------------------------------------------
  // What the parts of the definition stand for

  /** Agreement on every field but the two that are dropped. */
  ghost predicate AgreeButDropped(x: map<string, Meaning>, y: map<string, Meaning>) {
    forall k :: k != "offline" && k != "idempotency_key" ==>
      (k in x <==> k in y) && (k in x && k in y ==> x[k] == y[k])
  }

  /** Two object bodies are the same to the hash exactly if they agree on all other fields. */
  lemma SameBodyIff(a: seq<Field>, b: seq<Field>)
    ensures BodyMeaning(Obj(a)) == BodyMeaning(Obj(b)) <==> AgreeButDropped(MeanFields(a), MeanFields(b))
  {
    DropTwo(MeanFields(a), MeanFields(b));
  }

  lemma DropTwo(x: map<string, Meaning>, y: map<string, Meaning>)
    ensures x - DROPPED == y - DROPPED <==> AgreeButDropped(x, y)
  {
    assert forall k :: k in DROPPED <==> k == "offline" || k == "idempotency_key";
    if x - DROPPED == y - DROPPED {
      forall k | k != "offline" && k != "idempotency_key"
        ensures (k in x <==> k in y) && (k in x && k in y ==> x[k] == y[k])
      {
        assert (k in x <==> k in x - DROPPED) && (k in y <==> k in y - DROPPED);
        assert k in x ==> (x - DROPPED)[k] == x[k];
      }
    }
    if AgreeButDropped(x, y) {
      assert (x - DROPPED).Keys == (y - DROPPED).Keys;
      assert x - DROPPED == y - DROPPED;
    }
  }

  predicate TiedParams(c: Collation, a: Param, b: Param) { c(a.key) == c(b.key) && c(a.value) == c(b.value) }

  /** Query parameters are tied exactly if both their keys and their values are. */
  lemma QueryTieFreeIff(c: Collation, query: seq<Param>)
    ensures TieFree(ByParam(c), query) <==>
            forall i, j :: 0 <= i < j < |query| && TiedParams(c, query[i], query[j]) ==> query[i] == query[j]
  {
  }

  /** Array indices are the decimal numbers up to 4294967294. */
  lemma IndexIff(k: string)
    ensures IsIndex(k) <==> exists n: nat :: n < 4_294_967_295 && k == Decimal(n)
  {
    if n: nat :| n < 4_294_967_295 && k == Decimal(n) {
      NumberOfDecimal(n);
    }
  }

  lemma DecimalDigits(n: nat, d: nat)
    requires d < 10
    ensures Decimal(d) == ["0123456789"[d]]
    ensures n > 0 ==> Decimal(10 * n + d) == Decimal(n) + ["0123456789"[d]]
  {
  }

  /** How a canonical object lists its fields, and a canonical query its parameters. */
  lemma CanonicalOrder(c: Collation, entries: seq<Field>, query: seq<Param>, i: nat, j: nat)
    ensures var fields := Stable(c, Obj(entries)).entries;
            i < j < |fields| ==>
              if IsIndex(fields[j].key) then IsIndex(fields[i].key) && Number(fields[i].key) <= Number(fields[j].key)
              else IsIndex(fields[i].key) || c(fields[i].key) <= c(fields[j].key)
    ensures var params := Sort(ByParam(c), query);
            i < j < |params| ==>
              && c(params[i].key) <= c(params[j].key)
              && (c(params[i].key) == c(params[j].key) ==> c(params[i].value) <= c(params[j].value))
  {
    StableObject(c, entries);
    SortedByOrder(c, StableFields(c, entries));
    ByParamIsPreorder(c);
    SortSorts(ByParam(c), query);
  }

  // ---------------------------------------------------------------------------
  // Numbers beyond the range of doubles

  predicate Finite(v: Json) {
    match v
    case Infinite(_) => false
    case Arr(items) => forall i :: 0 <= i < |items| ==> Finite(items[i])
    case Obj(entries) => forall i :: 0 <= i < |entries| ==> Finite(entries[i].value)
    case _ => true
  }

  /** Holds a `null`, or a number that is written as one. */
  predicate Hollow(v: Json) {
    match v
    case Null => true
    case Infinite(_) => true
    case Arr(items) => exists i :: 0 <= i < |items| && Hollow(items[i])
    case Obj(entries) => exists i :: 0 <= i < |entries| && Hollow(entries[i].value)
    case _ => false
  }

  /** Written out, a value is finite, and has a `null` wherever it was hollow. */
  lemma {:induction false} StableHollow(c: Collation, v: Json)
    ensures Finite(Stable(c, v)) && (Hollow(Stable(c, v)) <==> Hollow(v))
  {
    match v
    case Arr(items) =>
      forall i | 0 <= i < |items|
        ensures Finite(Stable(c, items[i])) && (Hollow(Stable(c, items[i])) <==> Hollow(items[i]))
      {
        StableHollow(c, items[i]);
      }
      ItemsAt(c, items);
    case Obj(entries) =>
      forall i | 0 <= i < |entries|
        ensures Finite(Stable(c, entries[i].value))
                && (Hollow(Stable(c, entries[i].value)) <==> Hollow(entries[i].value))
      {
        StableHollow(c, entries[i].value);
      }
      var fields := StableFields(c, entries);
      FieldsAt(c, entries);
      StableObject(c, entries);
      SortElements(Order(c), fields);
      HollowCarries(fields, Sort(Order(c), fields));
      HollowCarries(Sort(Order(c), fields), fields);
    case _ =>
  }

  lemma HollowCarries(a: seq<Field>, b: seq<Field>)
    requires multiset(a) == multiset(b)
    ensures Hollow(Obj(a)) ==> Hollow(Obj(b))
    ensures Finite(Obj(b)) ==> Finite(Obj(a))
  {
    if i :| 0 <= i < |a| && Hollow(a[i].value) {
      var j := InBoth(a, b, i);
      assert Hollow(b[j].value);
    }
    forall i | 0 <= i < |a| && Finite(Obj(b))
      ensures Finite(a[i].value)
    {
      var j := InBoth(a, b, i);
    }
  }

  lemma {:induction false} NotHollowIsFinite(v: Json)
    requires !Hollow(v)
    ensures Finite(v)
  {
    match v
    case Arr(items) =>
      forall i | 0 <= i < |items|
        ensures Finite(items[i])
      {
        NotHollowIsFinite(items[i]);
      }
    case Obj(entries) =>
      forall i | 0 <= i < |entries|
        ensures Finite(entries[i].value)
      {
        NotHollowIsFinite(entries[i].value);
      }
    case _ =>
  }

  /** `w` is written like `v` but is not finite. */
  ghost predicate Overflows(c: Collation, v: Json, w: Json) {
    WellFormed(w) && !Finite(w) && Stable(c, w) == Stable(c, v)
  }

  lemma ItemOverflows(c: Collation, items: seq<Json>, i: nat, wi: Json)
    requires WellFormed(Arr(items)) && i < |items| && Overflows(c, items[i], wi)
    ensures Overflows(c, Arr(items), Arr(items[i := wi]))
  {
    var changed := items[i := wi];
    ItemsAt(c, items);
    ItemsAt(c, changed);
    assert StableItems(c, changed) == StableItems(c, items);
    assert !Finite(changed[i]);
  }

  lemma FieldOverflows(c: Collation, entries: seq<Field>, i: nat, wi: Json)
    requires WellFormed(Obj(entries)) && i < |entries| && Overflows(c, entries[i].value, wi)
    ensures Overflows(c, Obj(entries), Obj(entries[i := Field(entries[i].key, wi)]))
  {
    var changed := entries[i := Field(entries[i].key, wi)];
    FieldsAt(c, entries);
    FieldsAt(c, changed);
    assert StableFields(c, changed) == StableFields(c, entries);
    assert !Finite(changed[i].value);
  }

  /** A finite value with a `null` in it is written like one with an infinite number in its place. */
  lemma {:induction false} Overflow(c: Collation, v: Json) returns (w: Json)
    requires WellFormed(v) && Finite(v) && Hollow(v)
    ensures Overflows(c, v, w)
    ensures v.Obj? ==> w.Obj?
    ensures w.Arr? ==> v.Arr?
  {
    match v
    case Null => w := Infinite(false);
    case Arr(items) =>
      var i :| 0 <= i < |items| && Hollow(items[i]);
      var wi := Overflow(c, items[i]);
      ItemOverflows(c, items, i, wi);
      w := Arr(items[i := wi]);
    case Obj(entries) =>
      var i :| 0 <= i < |entries| && Hollow(entries[i].value);
      var wi := Overflow(c, entries[i].value);
      FieldOverflows(c, entries, i, wi);
      w := Obj(entries[i := Field(entries[i].key, wi)]);
  }

  /** What a value is written as can be sent itself, and is written the same. */
  lemma HiddenTwin(c: Collation, v: Json) returns (w: Json)
    requires WellFormed(v) && Hollow(v)
    ensures WellFormed(w) && Stable(c, w) == Stable(c, v) && Finite(w) != Finite(v)
    ensures v.Obj? ==> w.Obj?
    ensures w.Arr? ==> v.Arr?
  {
    if Finite(v) {
      w := Overflow(c, v);
    } else {
      StableKeepsMeaning(c, v);
      StableIsIdempotent(c, v);
      StableHollow(c, v);
      w := Stable(c, v);
    }
  }

  /**
   A request shares its hash with one that has an infinite number where the other has `null`
   exactly when its body, without the dropped fields, holds a `null` or such a number.
   */
  lemma OverflowCollidesIff(c: Collation, a: Request)
    requires WellFormed(a.body)
    ensures (exists b: Request :: WellFormed(b.body) && Hashed(c, b) == Hashed(c, a)
                                  && Finite(Payload(b.body)) != Finite(Payload(a.body)))
            <==> Hollow(Payload(a.body))
  {
    var payload := Payload(a.body);
    PayloadWellFormed(a.body);
    if Hollow(payload) {
      var w := HiddenTwin(c, payload);
      if w.Obj? {
        StableKeepsMeaning(c, w);
        StableKeepsMeaning(c, payload);
        NothingToDrop(payload, w);
      }
      var b := a.(body := w);
      assert WellFormed(b.body) && Hashed(c, b) == Hashed(c, a) && Finite(Payload(b.body)) != Finite(payload);
    }
    forall b: Request | WellFormed(b.body) && Hashed(c, b) == Hashed(c, a) && !Hollow(payload)
      ensures Finite(Payload(b.body)) == Finite(payload)
    {
      StableHollow(c, payload);
      StableHollow(c, Payload(b.body));
      NotHollowIsFinite(payload);
      NotHollowIsFinite(Payload(b.body));
    }
  }

  lemma OneField(c: Collation, f: Field)
    requires f.key !in DROPPED
    ensures Stable(c, Payload(Obj([f]))) == Obj([Field(f.key, Stable(c, f.value))])
  {
    NothingKept([f]);
    SortFixesSorted(ByIndex(), [f]);
    FieldsAt(c, [f]);
    var fields := StableFields(c, [f]);
    assert fields == [Field(f.key, Stable(c, f.value))];
    SortFixesSorted(ByKey(c), fields);
    SortFixesSorted(ByIndex(), fields);
  }

  /** `{"a":1e400}` and `{"a":null}` have one hash. */
  lemma OverflowExample(c: Collation, r: Request)
    ensures var a, b := r.(body := Obj([Field("a", Infinite(false))])), r.(body := Obj([Field("a", Null)]));
            WellFormed(a.body) && WellFormed(b.body) && Hashed(c, a) == Hashed(c, b)
  {
    OneField(c, Field("a", Infinite(false)));
    OneField(c, Field("a", Null));
  }

  // ---------------------------------------------------------------------------
  // A tie

  const COMPOSED := Field("caf\U{e9}", Num(1.0))

  const DECOMPOSED := Field("cafe\U{301}", Num(2.0))

  /**
   Two spellings of one word, which `localeCompare` ties because they are canonically
   equivalent (ECMA-262, `String.prototype.localeCompare`): the two orders hash differently.
   */
  lemma AccentExample(c: Collation, r: Request)
    requires c(COMPOSED.key) == c(DECOMPOSED.key)
    ensures var a, b := r.(body := Obj([COMPOSED, DECOMPOSED])), r.(body := Obj([DECOMPOSED, COMPOSED]));
            WellFormed(a.body) && WellFormed(b.body) && SameRequest(a, b) && Hashed(c, a) != Hashed(c, b)
  {
    assert !IsDigits(COMPOSED.key) && !IsDigits(DECOMPOSED.key) by {
      assert COMPOSED.key[0] == 'c' && DECOMPOSED.key[0] == 'c';
    }
    TiedPair(c, COMPOSED, DECOMPOSED);
    TiedPair(c, DECOMPOSED, COMPOSED);
    var both := multiset{COMPOSED, DECOMPOSED};
    assert multiset([COMPOSED, DECOMPOSED]) == both && multiset([DECOMPOSED, COMPOSED]) == both;
    PermutedMeaning([COMPOSED, DECOMPOSED], [DECOMPOSED, COMPOSED]);
  }

  /** A body of two tied fields is hashed as it stands. */
  lemma TiedPair(c: Collation, f: Field, g: Field)
    requires f.key != g.key && c(f.key) == c(g.key) && !IsDigits(f.key) && !IsDigits(g.key)
    requires f.key !in DROPPED && g.key !in DROPPED && f.value.Num? && g.value.Num?
    ensures WellFormed(Obj([f, g])) && Stable(c, Payload(Obj([f, g]))) == Obj([f, g])
  {
    NothingKept([f, g]);
    SortFixesSorted(ByIndex(), [f, g]);
    FieldsAt(c, [f, g]);
    assert StableFields(c, [f, g]) == [f, g];
    SortFixesSorted(ByKey(c), [f, g]);
  }
}
