/** Worked searches, proved end to end: the request compiled by the search
    specification, then evaluated over a few rows and paged. */
module SearchScenarios {
  import opened Wrappers
  import opened Clr
  import opened Entities
  import opened Models
  import opened Exceptions
  import opened PropertyPaths
  import opened FilterExpressions
  import opened Specifications
  import opened QueryEvaluation
  import opened PagedLists
  import opened Repository
  import opened WeatherForecastSearch

  function Search(filters: seq<(string, Filter)>, operator: LogicalOperator, sortBy: Option<string>, direction: SortDirection)
    : PaginationRequest
  {
    PaginationRequest(1, 10, Some(filters), operator, sortBy, direction)
  }

  function ValueFilter(op: FilterOperator, value: string): Filter
  {
    Filter(op, Some(value), None, None)
  }

  function RangeFilter(from: string, to: string): Filter
  {
    Filter(Between, None, Some(from), Some(to))
  }

  // ---------------------------------------------------------------------------
  // The pieces every scenario uses

  /** A key without a '.' whose (mapped) name is a plain property resolves to that property. */
  lemma SimpleKeyChain(key: string, name: string, m: Member)
    requires MapProperty(SearchMappings, key) == name && '.' !in name
    requires GetProperty(WeatherForecastType, name) == Some(m) && !IsIndexer(m)
    ensures ChainOf(key, SearchMappings) == Success([m])
  {
    SplitWithoutSeparator(name, '.');
    assert FilterSegments(key, SearchMappings) == [name];
    assert [name][1..] == [];
    AccessChainStep(WeatherForecastType, [name], m);
    assert AccessChain(PropertyType(m), []) == Success([]);
    assert [m] + [] == [m];
  }

  lemma LookupTemperatureC()
    ensures GetProperty(WeatherForecastType, "TemperatureC") == Some(TemperatureC)
  {
    var props := Properties(WeatherForecastType);
    var name := "TemperatureC";
    assert |Lower(Name(Id))| == 2 && |Lower(Name(Date))| == 4 && |Lower(name)| == 12;
    assert FindProperty(props, name) == FindProperty(props[1..], name);
    assert FindProperty(props[1..], name) == FindProperty(props[1..][1..], name);
    assert props[1..][1..][0] == TemperatureC;
  }

  lemma LookupSummary(name: string)
    requires Lower(name) == "summary"
    ensures GetProperty(WeatherForecastType, name) == Some(Summary)
  {
    var props := Properties(WeatherForecastType);
    assert |Lower(Name(Id))| == 2 && |Lower(Name(Date))| == 4 && |Lower(name)| == 7;
    assert |Lower(Name(TemperatureC))| == 12 && |Lower(Name(TemperatureF))| == 12;
    assert FindProperty(props, name) == FindProperty(props[1..], name);
    assert FindProperty(props[1..], name) == FindProperty(props[2..], name);
    assert FindProperty(props[2..], name) == FindProperty(props[3..], name);
    assert FindProperty(props[3..], name) == FindProperty(props[4..], name);
    assert Lower(Name(Summary)) == Lower(name);
    assert props[4..][0] == Summary;
  }

  /** Any spelling of `temp` is the alias of `TemperatureC`. */
  lemma TempAlias(key: string)
    requires Lower(key) == "temp"
    ensures MapProperty(SearchMappings, key) == "TemperatureC"
  {
  }

  lemma TempResolves(key: string)
    requires Lower(key) == "temp"
    ensures ChainOf(key, SearchMappings) == Success([TemperatureC])
  {
    TempAlias(key);
    LookupTemperatureC();
    SimpleKeyChain(key, "TemperatureC", TemperatureC);
  }

  lemma SummaryResolves(key: string)
    requires Lower(key) == "summary"
    ensures ChainOf(key, SearchMappings) == Success([Summary])
  {
    assert Lower(key) !in SearchMappings by { assert |Lower(key)| == 7; }
    LookupSummary(key);
    assert '.' !in key by {
      forall i | 0 <= i < |key|
        ensures key[i] != '.'
      {
        assert Lower(key)[i] == FoldChar(key[i]);
      }
    }
    SimpleKeyChain(key, key, Summary);
  }

  /** A value filter whose literal coerces compiles to the operator's body. */
  lemma CompileValue(chain: seq<Member>, op: FilterOperator, text: string, v: Value)
    requires |chain| >= 1 && op != Between && Coerce(ChainType(chain), text) == Success(v)
    ensures CompileOn(chain, ValueFilter(op, text)) == Body(op, chain, ChainType(chain), v)
  {
  }

  /** A range filter on an `int` property whose literals coerce compiles to the two
      inclusive comparisons. */
  lemma CompileRange(chain: seq<Member>, from: string, to: string, u: Value, v: Value)
    requires |chain| >= 1 && ChainType(chain) == Int32Type
    requires Coerce(Int32Type, from) == Success(u) && Coerce(Int32Type, to) == Success(v)
    ensures CompileOn(chain, RangeFilter(from, to)) ==
            Success(AndAlso(Compare(chain, GreaterThanOrEqual, u), Compare(chain, LessThanOrEqual, v)))
  {
  }

  lemma CompileOne<F>(item: F, compile: F -> Result<Expr, Error>, e: Expr)
    requires compile(item) == Success(e)
    ensures CompileEach([item], compile) == Compiled([e], None)
  {
    assert [item][1..] == [];
  }

  lemma CompileTwo<F>(a: F, b: F, compile: F -> Result<Expr, Error>, d: Expr, e: Expr)
    requires compile(a) == Success(d) && compile(b) == Success(e)
    ensures CompileEach([a, b], compile) == Compiled([d, e], None)
  {
    assert [a, b][1..] == [b];
    CompileOne(b, compile, e);
  }

  lemma OneFilterCompiles(key: string, filter: Filter, e: Expr)
    requires BuildFilter(key, filter, SearchMappings) == Success(e)
    ensures BuildEach([(key, filter)], SearchMappings) == Compiled([e], None)
  {
    CompileOne((key, filter), (f: (string, Filter)) => BuildFilter(f.0, f.1, SearchMappings), e);
  }

  /** Reading a one-member path is reading that member. */
  lemma ReadOne(x: WeatherForecast, m: Member)
    ensures Read(x, [m]) == GetValue(Record(x), m)
  {
    assert [m][0] == m && [m][1..] == [];
    assert ReadFrom(GetValue(Record(x), m), []) == GetValue(Record(x), m);
  }

  /** One clause: an entity satisfies the query when it satisfies the clause. */
  lemma SatisfiesOne(x: WeatherForecast, e: Expr, order: Option<OrderKey>)
    ensures Satisfies(x, Query([e], order)) <==> Eval(e, x)
  {
    assert [e][0] == e;
  }

  /** A row put in front of a display is a longer display. */
  lemma Cons<T>(x: T, y: T, z: T, w: T)
    ensures [x] + [] == [x] && [x] + [y] == [x, y] && [x] + [y, z] == [x, y, z] && [x] + [y, z, w] == [x, y, z, w]
  {
  }

  /** `Where` on a row followed by more rows. */
  lemma WhereCons(a: WeatherForecast, s: seq<WeatherForecast>, q: Query)
    ensures Where([a] + s, q) == Kept(a, q) + Where(s, q)
  {
    var t := [a] + s;
    assert t != [] && t[0] == a && t[1..] == s;
  }

  function Kept(x: WeatherForecast, q: Query): seq<WeatherForecast>
  {
    if Satisfies(x, q) then [x] else []
  }

  lemma WhereOfOne(a: WeatherForecast, q: Query)
    ensures Where([a], q) == Kept(a, q)
  {
    WhereCons(a, [], q);
    Cons(a, a, a, a);
  }

  lemma WhereOfTwo(a: WeatherForecast, b: WeatherForecast, q: Query)
    ensures Where([a, b], q) == Kept(a, q) + Kept(b, q)
  {
    WhereCons(a, [b], q);
    Cons(a, b, b, b);
    WhereOfOne(b, q);
  }

  lemma WhereOfThree(a: WeatherForecast, b: WeatherForecast, c: WeatherForecast, q: Query)
    ensures Where([a, b, c], q) == Kept(a, q) + Kept(b, q) + Kept(c, q)
  {
    WhereCons(a, [b, c], q);
    Cons(a, b, c, c);
    WhereOfTwo(b, c, q);
    Associative(Kept(a, q), Kept(b, q), Kept(c, q));
  }

  /** `Where` over four rows, one row at a time. */
  lemma WhereOfFour(a: WeatherForecast, b: WeatherForecast, c: WeatherForecast, d: WeatherForecast, q: Query)
    ensures Where([a, b, c, d], q) == Kept(a, q) + Kept(b, q) + Kept(c, q) + Kept(d, q)
  {
    WhereCons(a, [b, c, d], q);
    Cons(a, b, c, d);
    WhereOfThree(b, c, d, q);
    Associative(Kept(a, q), Kept(b, q) + Kept(c, q), Kept(d, q));
    Associative(Kept(a, q), Kept(b, q), Kept(c, q));
  }

  lemma Associative<T>(a: seq<T>, b: seq<T>, c: seq<T>)
    ensures a + (b + c) == a + b + c
  {
  }

  /** A search with one filter, under `And` and without a sort, is that filter's clause. */
  lemma SingleAndFilter(key: string, filter: Filter, e: Expr)
    requires BuildFilter(key, filter, SearchMappings) == Success(e)
    ensures SearchQuery(Search([(key, filter)], And, None, Asc)) == Success(Query([e], None))
  {
    var request := Search([(key, filter)], And, None, Asc);
    OneFilterCompiles(key, filter, e);
    assert FilterClauses(request, SearchMappings) == Success([e]);
    assert SortClause(request, SearchMappings) == Success(None);
    SearchQueryParts(request);
  }

  // ---------------------------------------------------------------------------
  // Scenarios

  /** A filter on `temp` compares the Celsius temperature. */
  lemma TempComparison(x: WeatherForecast, c: Comparison, n: int)
    ensures Eval(Compare([TemperatureC], c, Number(n)), x) <==> Compares(c, Number(x.temperatureC), Number(n))
  {
    ReadOne(x, TemperatureC);
  }

  /** Any filter on any spelling of `temp` compiles on the chain `TemperatureC`. */
  lemma TempFilterOnChain(key: string, filter: Filter)
    requires Lower(key) == "temp"
    ensures BuildFilter(key, filter, SearchMappings) == CompileOn([TemperatureC], filter)
  {
    TempResolves(key);
    BuildFilterOnChain(key, filter, SearchMappings);
  }

  /** Any filter on any spelling of `summary` compiles on the chain `Summary`. */
  lemma SummaryFilterOnChain(key: string, filter: Filter)
    requires Lower(key) == "summary"
    ensures BuildFilter(key, filter, SearchMappings) == CompileOn([Summary], filter)
  {
    SummaryResolves(key);
    BuildFilterOnChain(key, filter, SearchMappings);
  }

  /** A formatted `int` literal on `TemperatureC` compiles to the operator's body. */
  lemma TempValueBody(op: FilterOperator, n: int)
    requires MinInt32 <= n <= MaxInt32 && op != Between
    ensures CompileOn([TemperatureC], ValueFilter(op, FormatInteger(n))) == Body(op, [TemperatureC], Int32Type, Number(n))
  {
    CoerceFormatted(n);
    CompileValue([TemperatureC], op, FormatInteger(n), Number(n));
  }

  /** A formatted `int` literal on any spelling of `temp` compiles to the operator's body on
      `TemperatureC`. */
  lemma TempValueFilter(key: string, op: FilterOperator, n: int)
    requires Lower(key) == "temp" && MinInt32 <= n <= MaxInt32 && op != Between
    ensures BuildFilter(key, ValueFilter(op, FormatInteger(n)), SearchMappings) ==
            Body(op, [TemperatureC], Int32Type, Number(n))
  {
    TempFilterOnChain(key, ValueFilter(op, FormatInteger(n)));
    TempValueBody(op, n);
  }

  /** Any literal on any spelling of `summary` compiles to the operator's body on `Summary`,
      kept as text. */
  lemma SummaryValueFilter(key: string, op: FilterOperator, text: string)
    requires Lower(key) == "summary" && op != Between
    ensures BuildFilter(key, ValueFilter(op, text), SearchMappings) == Body(op, [Summary], StringType, Text(text))
  {
    SummaryFilterOnChain(key, ValueFilter(op, text));
    SummaryIsText(text);
    CompileValue([Summary], op, text, Text(text));
  }

  /** A literal for `Summary` is kept as text. */
  lemma SummaryIsText(text: string)
    ensures ChainType([Summary]) == StringType && Coerce(StringType, text) == Success(Text(text))
  {
    assert [Summary][0] == Summary;
  }

  function WarmQuery(n: int): Query
  {
    Query([Compare([TemperatureC], GreaterThan, Number(n))], None)
  }

  /** `temp > n` compiles to the comparison `x.TemperatureC > n`. */
  lemma WarmFilter(key: string, n: int)
    requires Lower(key) == "temp" && MinInt32 <= n <= MaxInt32
    ensures BuildFilter(key, ValueFilter(Gt, FormatInteger(n)), SearchMappings) ==
            Success(Compare([TemperatureC], GreaterThan, Number(n)))
  {
    TempValueFilter(key, Gt, n);
    GreaterThanBody(n);
  }

  lemma GreaterThanBody(n: int)
    ensures Body(Gt, [TemperatureC], Int32Type, Number(n)) == Success(Compare([TemperatureC], GreaterThan, Number(n)))
  {
  }

  /** `temp > n`, under `And` and whatever the key's case, compiles to one comparison on
      `TemperatureC`. */
  lemma GreaterThanCompiles(key: string, n: int)
    requires Lower(key) == "temp" && MinInt32 <= n <= MaxInt32
    ensures SearchQuery(Search([(key, ValueFilter(Gt, FormatInteger(n)))], And, None, Asc)) == Success(WarmQuery(n))
  {
    WarmFilter(key, n);
    SingleAndFilter(key, ValueFilter(Gt, FormatInteger(n)), Compare([TemperatureC], GreaterThan, Number(n)));
  }

  lemma Warm(x: WeatherForecast, n: int)
    ensures Satisfies(x, WarmQuery(n)) <==> x.temperatureC > n
  {
    SatisfiesOne(x, WarmQuery(n).criteria[0], None);
    TempComparison(x, GreaterThan, n);
  }

  /** ... and, over rows at or below `n` and rows above it, keeps those above, in order. */
  lemma GreaterThanKeepsWarmDays(a: WeatherForecast, b: WeatherForecast, c: WeatherForecast, d: WeatherForecast, n: int)
    requires a.temperatureC <= n && b.temperatureC <= n && c.temperatureC > n && d.temperatureC > n
    ensures Where([a, b, c, d], WarmQuery(n)) == [c, d]
  {
    var q := WarmQuery(n);
    Warm(a, n); Warm(b, n); Warm(c, n); Warm(d, n);
    WhereOfFour(a, b, c, d, q);
  }

  function RangeQuery(from: int, to: int): Query
  {
    Query([AndAlso(Compare([TemperatureC], GreaterThanOrEqual, Number(from)),
                   Compare([TemperatureC], LessThanOrEqual, Number(to)))], None)
  }

  lemma TempRangeFilter(key: string, from: int, to: int)
    requires Lower(key) == "temp" && MinInt32 <= from <= MaxInt32 && MinInt32 <= to <= MaxInt32
    ensures BuildFilter(key, RangeFilter(FormatInteger(from), FormatInteger(to)), SearchMappings) ==
            Success(RangeQuery(from, to).criteria[0])
  {
    TempFilterOnChain(key, RangeFilter(FormatInteger(from), FormatInteger(to)));
    TempRangeBody(from, to);
  }

  lemma TempRangeBody(from: int, to: int)
    requires MinInt32 <= from <= MaxInt32 && MinInt32 <= to <= MaxInt32
    ensures CompileOn([TemperatureC], RangeFilter(FormatInteger(from), FormatInteger(to))) ==
            Success(RangeQuery(from, to).criteria[0])
  {
    CoerceFormatted(from);
    CoerceFormatted(to);
    CompileRange([TemperatureC], FormatInteger(from), FormatInteger(to), Number(from), Number(to));
  }

  /** `temp` between two numbers compiles to the two inclusive comparisons. */
  lemma BetweenCompiles(key: string, from: int, to: int)
    requires Lower(key) == "temp" && MinInt32 <= from <= MaxInt32 && MinInt32 <= to <= MaxInt32
    ensures var filter := RangeFilter(FormatInteger(from), FormatInteger(to));
            SearchQuery(Search([(key, filter)], And, None, Asc)) == Success(RangeQuery(from, to))
  {
    TempRangeFilter(key, from, to);
    SingleAndFilter(key, RangeFilter(FormatInteger(from), FormatInteger(to)), RangeQuery(from, to).criteria[0]);
  }

  lemma InRange(x: WeatherForecast, from: int, to: int)
    ensures Satisfies(x, RangeQuery(from, to)) <==> from <= x.temperatureC <= to
  {
    var q := RangeQuery(from, to);
    SatisfiesOne(x, q.criteria[0], None);
    TempComparison(x, GreaterThanOrEqual, from);
    TempComparison(x, LessThanOrEqual, to);
  }

  /** Both ends of a range are included: of rows at `from - 1`, `from`, `to` and `to + 1`,
      the middle two are kept. */
  lemma BetweenIncludesBothEnds(a: WeatherForecast, b: WeatherForecast, c: WeatherForecast, d: WeatherForecast, from: int, to: int)
    requires from <= to
    requires a.temperatureC == from - 1 && b.temperatureC == from && c.temperatureC == to && d.temperatureC == to + 1
    ensures Where([a, b, c, d], RangeQuery(from, to)) == [b, c]
  {
    InRange(a, from, to); InRange(b, from, to); InRange(c, from, to); InRange(d, from, to);
    WhereOfFour(a, b, c, d, RangeQuery(from, to));
  }

  function EitherQuery(text: string, n: int): Query
  {
    Query([OrChain([Compare([Summary], Equal, Text(text)), Compare([TemperatureC], GreaterThan, Number(n))])], None)
  }

  /** A search with two filters under `Or` and without a sort is the disjunction of their
      clauses. */
  lemma TwoOrFilters(k1: string, f1: Filter, e1: Expr, k2: string, f2: Filter, e2: Expr)
    requires BuildFilter(k1, f1, SearchMappings) == Success(e1) && BuildFilter(k2, f2, SearchMappings) == Success(e2)
    ensures SearchQuery(Search([(k1, f1), (k2, f2)], Or, None, Asc)) == Success(Query([OrChain([e1, e2])], None))
  {
    var filters := [(k1, f1), (k2, f2)];
    var request := Search(filters, Or, None, Asc);
    CompileTwo(filters[0], filters[1], (f: (string, Filter)) => BuildFilter(f.0, f.1, SearchMappings), e1, e2);
    assert FilterClauses(request, SearchMappings) == Success([OrChain([e1, e2])]);
    assert SortClause(request, SearchMappings) == Success(None);
    SearchQueryParts(request);
  }

  /** `summary == text` compiles to the comparison `x.Summary == text`. */
  lemma SameSummaryFilter(key: string, text: string)
    requires Lower(key) == "summary"
    ensures BuildFilter(key, ValueFilter(Eq, text), SearchMappings) == Success(Compare([Summary], Equal, Text(text)))
  {
    SummaryValueFilter(key, Eq, text);
  }

  /** `summary == text` or `temp > n` under `Or` compiles to the disjunction of the two
      comparisons... */
  lemma OrCompiles(summaryKey: string, tempKey: string, text: string, n: int)
    requires Lower(summaryKey) == "summary" && Lower(tempKey) == "temp" && MinInt32 <= n <= MaxInt32
    ensures var filters := [(summaryKey, ValueFilter(Eq, text)), (tempKey, ValueFilter(Gt, FormatInteger(n)))];
            SearchQuery(Search(filters, Or, None, Asc)) == Success(EitherQuery(text, n))
  {
    SameSummaryFilter(summaryKey, text);
    WarmFilter(tempKey, n);
    TwoOrFilters(summaryKey, ValueFilter(Eq, text), Compare([Summary], Equal, Text(text)),
                 tempKey, ValueFilter(Gt, FormatInteger(n)), Compare([TemperatureC], GreaterThan, Number(n)));
  }

  /** ... which keeps a forecast when either holds. */
  lemma OrKeepsEitherMatch(text: string, n: int, x: WeatherForecast)
    ensures Satisfies(x, EitherQuery(text, n)) <==> x.summary == Some(text) || x.temperatureC > n
  {
    var q := EitherQuery(text, n);
    var same := Compare([Summary], Equal, Text(text));
    var warm := Compare([TemperatureC], GreaterThan, Number(n));
    OrChainMeaning([same, warm], x);
    SatisfiesOne(x, q.criteria[0], None);
    ReadOne(x, Summary);
    TempComparison(x, GreaterThan, n);
  }

  /** Any spelling of `temp`, descending, is the descending key on `TemperatureC`. */
  lemma SortKeyForTemp(key: string)
    requires Lower(key) == "temp"
    ensures SortKeyFor(key, Desc, SearchMappings) == Success(OrderKey(TemperatureC, true))
  {
    TempAlias(key);
    LookupTemperatureC();
    SplitWithoutSeparator("TemperatureC", '.');
    assert Resolve("TemperatureC") == Some(TemperatureC);
    assert OrderByMember(["TemperatureC"]) == Success(TemperatureC);
  }

  /** A spelling of `temp` is not blank. */
  lemma TempNotBlank(key: string)
    requires Lower(key) == "temp"
    ensures !IsNullOrWhiteSpace(Some(key))
  {
    assert Lower(key)[0] == FoldChar(key[0]) == 't';
    assert !IsWhiteSpace(key[0]);
  }

  /** Sorting by `temp`, in any case, descending, sorts on `TemperatureC` from the top. */
  lemma SortByAliasCompiles(key: string)
    requires Lower(key) == "temp"
    ensures SearchQuery(PaginationRequest(1, 10, None, And, Some(key), Desc)) ==
            Success(Query([], Some(OrderKey(TemperatureC, true))))
  {
    var request := PaginationRequest(1, 10, None, And, Some(key), Desc);
    SortKeyForTemp(key);
    TempNotBlank(key);
    assert SortClause(request, SearchMappings) == Success(Some(OrderKey(TemperatureC, true)));
    assert FilterClauses(request, SearchMappings) == Success([]);
    SearchQueryParts(request);
  }

  lemma TempKey(x: WeatherForecast)
    ensures KeyOf(x, TemperatureC) == IntKey(x.temperatureC)
  {
  }

  function Descending(): OrderKey
  {
    OrderKey(TemperatureC, true)
  }

  lemma SortByCons(x: WeatherForecast, s: seq<WeatherForecast>, key: OrderKey)
    ensures SortBy([x] + s, key) == Insert(x, SortBy(s, key), key)
  {
    assert ([x] + s)[0] == x && ([x] + s)[1..] == s;
  }

  /** Sorted descending, a row cooler than the first goes after it. */
  lemma InsertPast(x: WeatherForecast, y: WeatherForecast, s: seq<WeatherForecast>)
    requires x.temperatureC < y.temperatureC
    ensures Insert(x, [y] + s, Descending()) == [y] + Insert(x, s, Descending())
  {
    TempKey(x);
    TempKey(y);
    assert ([y] + s)[0] == y && ([y] + s)[1..] == s;
  }

  lemma InsertEmpty(x: WeatherForecast, key: OrderKey)
    ensures Insert(x, [], key) == [x] && SortBy([], key) == []
  {
  }

  lemma SortOfTwo(c: WeatherForecast, d: WeatherForecast)
    requires c.temperatureC < d.temperatureC
    ensures SortBy([c, d], Descending()) == [d, c]
  {
    Cons(c, d, d, d);
    Cons(d, c, c, c);
    InsertEmpty(d, Descending());
    InsertEmpty(c, Descending());
    SortByCons(d, [], Descending());
    SortByCons(c, [d], Descending());
    InsertPast(c, d, []);
  }

  lemma SortOfThree(b: WeatherForecast, c: WeatherForecast, d: WeatherForecast)
    requires b.temperatureC < c.temperatureC < d.temperatureC
    ensures SortBy([b, c, d], Descending()) == [d, c, b]
  {
    SortOfTwo(c, d);
    Cons(b, c, d, d);
    SortByCons(b, [c, d], Descending());
    Cons(c, b, b, b);
    InsertEmpty(b, Descending());
    InsertPast(b, c, []);
    Cons(d, c, b, b);
    InsertPast(b, d, [c]);
  }

  lemma SortOfFour(a: WeatherForecast, b: WeatherForecast, c: WeatherForecast, d: WeatherForecast)
    requires a.temperatureC < b.temperatureC < c.temperatureC < d.temperatureC
    ensures SortBy([a, b, c, d], Descending()) == [d, c, b, a]
  {
    SortOfThree(b, c, d);
    Cons(a, b, c, d);
    SortByCons(a, [b, c, d], Descending());
    Cons(b, a, a, a);
    InsertEmpty(a, Descending());
    InsertPast(a, b, []);
    Cons(c, b, a, a);
    InsertPast(a, c, [b]);
    Cons(d, c, b, a);
    InsertPast(a, d, [c, b]);
  }

  /** Rows with rising temperatures come back, sorted descending, in the reverse order. */
  lemma SortDescending(a: WeatherForecast, b: WeatherForecast, c: WeatherForecast, d: WeatherForecast)
    requires a.temperatureC < b.temperatureC < c.temperatureC < d.temperatureC
    ensures ApplySpecification(Query([], Some(Descending())), [a, b, c, d]) == [d, c, b, a]
  {
    ApplyOrderOnly(Query([], Some(Descending())), [a, b, c, d]);
    SortOfFour(a, b, c, d);
  }

  /** A key that names no property, has no '.' and is not an alias is rejected while the
      filter is compiled, with `ArgumentException`. */
  lemma UnknownFieldIsRejected(key: string, filter: Filter)
    requires forall m :: m in Properties(WeatherForecastType) ==> !EqualsIgnoreCase(Name(m), key)
    requires Lower(key) !in SearchMappings && '.' !in key
    ensures var request := Search([(key, filter)], And, None, Asc);
            SearchQuery(request) == Failure(PropertyNotDefined(WeatherForecastType, key)) &&
            ExceptionOf(SearchQuery(request).error) == ArgumentException
  {
    SplitWithoutSeparator(key, '.');
    assert FilterSegments(key, SearchMappings) == [key];
    FindPropertyResult(Properties(WeatherForecastType), key);
    assert GetProperty(WeatherForecastType, key) == None;
    var error := PropertyNotDefined(WeatherForecastType, key);
    assert ChainOf(key, SearchMappings) == Failure(error);
    var filters := [(key, filter)];
    assert filters[0] == (key, filter);
    assert BuildEach(filters, SearchMappings) == Compiled([], Some(error));
  }

  /** Page 2 of size 2 over five matching rows holds rows 3 and 4, of three pages, with a
      page before and a page after it. */
  lemma SecondPageOfFive(spec: PaginatedSpecification, source: seq<WeatherForecast>)
    requires spec.pageNumber == 2 && spec.pageSize == 2
    requires |Where(source, spec.query)| == 5
    ensures ListPaged(spec, source).Success?
    ensures var page := ListPaged(spec, source).value;
            var rows := ApplySpecification(spec.query, source);
            page.items == rows[2..4] && page.totalCount == 5 && page.totalPages == 3 &&
            page.HasPreviousPage() && page.HasNextPage()
  {
    var rows := ApplySpecification(spec.query, source);
    ApplySpecificationResult(spec.query, source);
    WindowSlice(rows, 2, 2);
    TotalPagesFormula(5, 2);
  }
}
