/** What a specification's query does to a sequence of entities once the store runs it:
    the `Where` clauses keep the entities that satisfy all of them, and the order key
    sorts them as `ORDER BY` does (nulls first ascending, strings ordinally). The store
    leaves the order of equal keys unspecified; the model keeps them in source order. */
module QueryEvaluation {
  import opened Wrappers
  import opened Clr
  import opened Entities
  import opened FilterExpressions
  import opened Specifications

  // ---------------------------------------------------------------------------
  // Where

  /** The entities of `source` that satisfy the query, in their order, each as often as
      it occurs in the source. */
  function Where(source: seq<WeatherForecast>, q: Query): (r: seq<WeatherForecast>)
    ensures |r| <= |source|
    ensures forall x :: x in r <==> x in source && Satisfies(x, q)
    ensures multiset(r) <= multiset(source)
    ensures forall x :: multiset(r)[x] == if Satisfies(x, q) then multiset(source)[x] else 0
  {
    if source == [] then []
    else
      var rest := Where(source[1..], q);
      assert source == [source[0]] + source[1..];
      if Satisfies(source[0], q) then [source[0]] + rest else rest
  }

  /** A query without clauses keeps every entity. */
  lemma {:induction false} WhereWithoutCriteria(source: seq<WeatherForecast>, q: Query)
    requires q.criteria == []
    ensures Where(source, q) == source
  {
    if source != [] {
      WhereWithoutCriteria(source[1..], q);
    }
  }

  // ---------------------------------------------------------------------------
  // Ordering

  /** The value a row is sorted by: a number (dates by their day number), a string, or null. */
  datatype SortKey = NullKey | IntKey(n: int) | TextKey(s: string)

  function KeyOf(x: WeatherForecast, m: Member): SortKey
  {
    match GetValue(Record(x), m)
    case Number(n) => IntKey(n)
    case Calendar(d) => IntKey(DayNumber(d))
    case Text(s) => TextKey(s)
    case _ => NullKey
  }

  /** Ordinal string order: character by character, a prefix first. A character here is a
      Unicode scalar value, so a string with characters outside the Basic Multilingual Plane
      can order differently from the UTF-16 code units .NET compares. */
  predicate TextLeq(a: string, b: string)
  {
    a == [] || (b != [] && (a[0] < b[0] || (a[0] == b[0] && TextLeq(a[1..], b[1..]))))
  }

  /** Null sorts before every value; the keys of one column are all numbers or all strings. */
  predicate KeyLeq(a: SortKey, b: SortKey)
  {
    match (a, b)
    case (NullKey, _) => true
    case (IntKey(x), IntKey(y)) => x <= y
    case (IntKey(_), TextKey(_)) => true
    case (TextKey(x), TextKey(y)) => TextLeq(x, y)
    case _ => false
  }

  lemma {:induction false} TextLeqTotal(a: string, b: string)
    ensures TextLeq(a, b) || TextLeq(b, a)
  {
    if a != [] && b != [] && a[0] == b[0] {
      TextLeqTotal(a[1..], b[1..]);
    }
  }

  lemma {:induction false} TextLeqTransitive(a: string, b: string, c: string)
    requires TextLeq(a, b) && TextLeq(b, c)
    ensures TextLeq(a, c)
  {
    if a != [] && b != [] && c != [] && a[0] == b[0] && b[0] == c[0] {
      TextLeqTransitive(a[1..], b[1..], c[1..]);
    }
  }

  /** Whether `x` may come before `y` under the order key. */
  predicate Precedes(x: WeatherForecast, y: WeatherForecast, key: OrderKey)
  {
    if key.descending then KeyLeq(KeyOf(y, key.member), KeyOf(x, key.member))
    else KeyLeq(KeyOf(x, key.member), KeyOf(y, key.member))
  }

  lemma PrecedesTotal(x: WeatherForecast, y: WeatherForecast, key: OrderKey)
    ensures Precedes(x, y, key) || Precedes(y, x, key)
  {
    var a, b := KeyOf(x, key.member), KeyOf(y, key.member);
    if a.TextKey? && b.TextKey? {
      TextLeqTotal(a.s, b.s);
    }
  }

  lemma PrecedesTransitive(x: WeatherForecast, y: WeatherForecast, z: WeatherForecast, key: OrderKey)
    requires Precedes(x, y, key) && Precedes(y, z, key)
    ensures Precedes(x, z, key)
  {
    var a, b, c := KeyOf(x, key.member), KeyOf(y, key.member), KeyOf(z, key.member);
    if a.TextKey? && b.TextKey? && c.TextKey? {
      if key.descending {
        TextLeqTransitive(c.s, b.s, a.s);
      } else {
        TextLeqTransitive(a.s, b.s, c.s);
      }
    }
  }

  predicate Sorted(s: seq<WeatherForecast>, key: OrderKey)
  {
    forall i, j :: 0 <= i < j < |s| ==> Precedes(s[i], s[j], key)
  }

  /** `x` placed before the first element it precedes. */
  function Insert(x: WeatherForecast, s: seq<WeatherForecast>, key: OrderKey): (r: seq<WeatherForecast>)
    ensures multiset(r) == multiset(s) + multiset{x}
  {
    if s == [] || Precedes(x, s[0], key) then [x] + s
    else
      assert s == [s[0]] + s[1..];
      [s[0]] + Insert(x, s[1..], key)
  }

  /** Insertion sort: each element inserted, last first, into the sorted rest. Among equal
      keys the earlier element stays first. */
  function SortBy(s: seq<WeatherForecast>, key: OrderKey): (r: seq<WeatherForecast>)
    ensures multiset(r) == multiset(s)
  {
    if s == [] then []
    else
      assert s == [s[0]] + s[1..];
      Insert(s[0], SortBy(s[1..], key), key)
  }

  /** A row that precedes every row of a sorted sequence can be put in front of it. */
  lemma ConsSorted(y: WeatherForecast, t: seq<WeatherForecast>, key: OrderKey)
    requires Sorted(t, key)
    requires forall j :: 0 <= j < |t| ==> Precedes(y, t[j], key)
    ensures Sorted([y] + t, key)
  {
    var r := [y] + t;
    forall i, j | 0 <= i < j < |r|
      ensures Precedes(r[i], r[j], key)
    {
      assert r[j] == t[j - 1];
      if i > 0 {
        assert r[i] == t[i - 1];
      }
    }
  }

  /** A row that precedes `x` and every row of `s` precedes every row of `Insert(x, s)`. */
  lemma PrecedesInsert(y: WeatherForecast, x: WeatherForecast, s: seq<WeatherForecast>, key: OrderKey)
    requires Precedes(y, x, key)
    requires forall k :: 0 <= k < |s| ==> Precedes(y, s[k], key)
    ensures forall j :: 0 <= j < |Insert(x, s, key)| ==> Precedes(y, Insert(x, s, key)[j], key)
  {
    var r := Insert(x, s, key);
    forall j | 0 <= j < |r|
      ensures Precedes(y, r[j], key)
    {
      assert r[j] in multiset(r);
      if r[j] != x {
        assert r[j] in multiset(s);
        var k :| 0 <= k < |s| && s[k] == r[j];
      }
    }
  }

  lemma {:induction false} InsertSorted(x: WeatherForecast, s: seq<WeatherForecast>, key: OrderKey)
    requires Sorted(s, key)
    ensures Sorted(Insert(x, s, key), key)
  {
    if s == [] {
    } else if Precedes(x, s[0], key) {
      forall k | 0 <= k < |s|
        ensures Precedes(x, s[k], key)
      {
        if k > 0 {
          PrecedesTransitive(x, s[0], s[k], key);
        }
      }
      ConsSorted(x, s, key);
    } else {
      PrecedesTotal(x, s[0], key);
      var rest := s[1..];
      assert Sorted(rest, key);
      InsertSorted(x, rest, key);
      forall k | 0 <= k < |rest|
        ensures Precedes(s[0], rest[k], key)
      {
        assert rest[k] == s[k + 1];
      }
      PrecedesInsert(s[0], x, rest, key);
      ConsSorted(s[0], Insert(x, rest, key), key);
    }
  }

  lemma {:induction false} SortBySorted(s: seq<WeatherForecast>, key: OrderKey)
    ensures Sorted(SortBy(s, key), key)
  {
    if s != [] {
      SortBySorted(s[1..], key);
      InsertSorted(s[0], SortBy(s[1..], key), key);
    }
  }

  /** `OrderBy` / `OrderByDescending` when the query has a key; the order the rows were
      stored in otherwise. */
  function OrderBy(s: seq<WeatherForecast>, order: Option<OrderKey>): seq<WeatherForecast>
  {
    if order.None? then s else SortBy(s, order.value)
  }

  /** The evaluator's `ApplySpecification`: the clauses, then the order. */
  function ApplySpecification(q: Query, source: seq<WeatherForecast>): seq<WeatherForecast>
  {
    OrderBy(Where(source, q), q.order)
  }

  /** A query without clauses only sorts. */
  lemma ApplyOrderOnly(q: Query, source: seq<WeatherForecast>)
    requires q.criteria == [] && q.order.Some?
    ensures ApplySpecification(q, source) == SortBy(source, q.order.value)
  {
    WhereWithoutCriteria(source, q);
  }

  /** The evaluated query holds exactly the satisfying entities, each as often as in the
      source, sorted by the order key when there is one. */
  lemma ApplySpecificationResult(q: Query, source: seq<WeatherForecast>)
    ensures multiset(ApplySpecification(q, source)) == multiset(Where(source, q))
    ensures forall x :: multiset(ApplySpecification(q, source))[x] ==
                          if Satisfies(x, q) then multiset(source)[x] else 0
    ensures |ApplySpecification(q, source)| == |Where(source, q)|
    ensures forall x :: x in ApplySpecification(q, source) <==> x in source && Satisfies(x, q)
    ensures q.order.Some? ==> Sorted(ApplySpecification(q, source), q.order.value)
  {
    var r := ApplySpecification(q, source);
    assert |r| == |multiset(r)|;
    forall x
      ensures x in r <==> x in source && Satisfies(x, q)
    {
      assert x in r <==> x in multiset(r);
      assert x in Where(source, q) <==> x in multiset(Where(source, q));
    }
    if q.order.Some? {
      SortBySorted(Where(source, q), q.order.value);
    }
  }
}
