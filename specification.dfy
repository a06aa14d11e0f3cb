/** `PaginatedSpecification<T>` at `T = WeatherForecast`: the page it asks for and the
    query it accumulates (`Where` clauses, an order key and, for the projecting
    specification, a selector), with the protected operations that build them. */
module Specifications {
  import opened Wrappers
  import opened Clr
  import opened Entities
  import opened Models
  import opened Exceptions
  import opened PropertyPaths
  import opened FilterExpressions

  /** The single `OrderBy` / `OrderByDescending` key. */
  datatype OrderKey = OrderKey(member: Member, descending: bool)

  /** What the specification's `Query` builder holds: the `Where` clauses in the order they
      were added, and the order key. */
  datatype Query = Query(criteria: seq<Expr>, order: Option<OrderKey>)

  /** An entity passes a query when it satisfies every `Where` clause. */
  predicate Satisfies(x: WeatherForecast, q: Query)
  {
    forall i :: 0 <= i < |q.criteria| ==> Eval(q.criteria[i], x)
  }

  /** `ApplySorting(sortBy, direction, propertyMappings)`: the alias substituted, the path
      checked with `IsEntityProperty`, then the key built by `CreateOrderByExpression`;
      `Desc` sorts descending and every other direction ascending. */
  function SortKeyFor(sortBy: string, direction: SortDirection, mappings: PropertyMappings): Result<OrderKey, Error>
  {
    var path := MapProperty(mappings, sortBy);
    if Resolve(path).None? then Failure(OrderByNotSupported(path))
    else
      var m :- OrderByMember(Split(path, '.'));
      Success(OrderKey(m, direction == Desc))
  }

  /** A sort path that does not resolve is "not supported"; a one-segment path that
      resolves sorts by its property; a nested path that resolves fails while the key is
      built; and only `Desc` sorts descending. */
  lemma SortKeyForOutcome(sortBy: string, direction: SortDirection, mappings: PropertyMappings)
    ensures var path := MapProperty(mappings, sortBy);
            Resolve(path).None? ==> SortKeyFor(sortBy, direction, mappings) == Failure(OrderByNotSupported(path))
    ensures var path := MapProperty(mappings, sortBy);
            Resolve(path).Some? && |Split(path, '.')| == 1 ==>
              SortKeyFor(sortBy, direction, mappings) == Success(OrderKey(Resolve(path).value, direction == Desc))
    ensures var path := MapProperty(mappings, sortBy);
            Resolve(path).Some? && |Split(path, '.')| > 1 ==>
              SortKeyFor(sortBy, direction, mappings).Failure? &&
              ExceptionOf(SortKeyFor(sortBy, direction, mappings).error) == ArgumentException
    ensures SortKeyFor(sortBy, direction, mappings).Success? ==>
              (SortKeyFor(sortBy, direction, mappings).value.descending <==> direction == Desc)
  {
    var path := MapProperty(mappings, sortBy);
    if Resolve(path).Some? {
      if |Split(path, '.')| == 1 {
        OrderByMemberOfSimplePath(path);
      } else {
        NestedOrderByPathFails(path);
      }
    }
  }

  class PaginatedSpecification {
    const pageNumber: Int32
    const pageSize: Int32
    var query: Query
    var selector: Option<WeatherForecast -> WeatherForecastResponse>

    /** The primary constructor: the page is stored as given, unchecked. */
    constructor (pageNumber: Int32, pageSize: Int32)
      ensures this.pageNumber == pageNumber && this.pageSize == pageSize
      ensures query == Query([], None) && selector.None?
    {
      this.pageNumber := pageNumber;
      this.pageSize := pageSize;
      query := Query([], None);
      selector := None;
    }

    /** `GetPropertyExpression`: the path split on '.', each segment looked up ignoring case
        on the type reached so far; null as soon as one is missing. */
    static method GetPropertyExpression(propertyName: string) returns (property: Option<Member>)
      ensures property == Resolve(propertyName)
    {
      var properties := Split(propertyName, '.');
      var t := WeatherForecastType;
      property := None;
      var i := 0;
      while i < |properties|
        invariant 0 <= i <= |properties|
        invariant i < |properties| ==> ResolveFrom(WeatherForecastType, properties) == ResolveFrom(t, properties[i..])
        invariant i == |properties| ==> ResolveFrom(WeatherForecastType, properties) == property
      {
        property := GetProperty(t, properties[i]);
        if property.None? {
          return None;
        }
        t := PropertyType(property.value);
        assert properties[i..][1..] == properties[i + 1..];
        i := i + 1;
      }
      return property;
    }

    /** `IsEntityProperty`: the path resolves on the entity. */
    static method IsEntityProperty(propertyName: string) returns (b: bool)
      ensures b <==> Resolve(propertyName).Some?
    {
      var property := GetPropertyExpression(propertyName);
      b := property.Some?;
    }

    /** `BuildFilterExpression`: the alias substituted, the member-access chain built one
        segment at a time, then the operands checked, the literal coerced and the operator
        dispatched. */
    static method BuildFilterExpression(filterBy: string, filter: Filter, mappings: PropertyMappings)
      returns (r: Result<Expr, Error>)
      ensures r == BuildFilter(filterBy, filter, mappings)
    {
      var path := MapProperty(mappings, filterBy);
      var segments := Split(path, '.');
      var chain: seq<Member> := [];
      var t := WeatherForecastType;
      assert segments[0..] == segments;
      assert Prepend([], AccessChain(t, segments)) == AccessChain(t, segments) by {
        var whole := AccessChain(t, segments);
        if whole.Success? {
          assert [] + whole.value == whole.value;
        }
      }
      for i := 0 to |segments|
        invariant |chain| == i
        invariant i > 0 ==> t == ChainType(chain)
        invariant AccessChain(WeatherForecastType, segments) == Prepend(chain, AccessChain(t, segments[i..]))
      {
        var property := GetProperty(t, segments[i]);
        if property.None? {
          return Failure(PropertyNotDefined(t, segments[i]));
        }
        if IsIndexer(property.value) {
          return Failure(IndexerNeedsArguments(property.value));
        }
        AccessChainStep(t, segments[i..], property.value);
        PrependTwice(chain, [property.value], AccessChain(PropertyType(property.value), segments[i..][1..]));
        assert segments[i..][1..] == segments[i + 1..];
        chain := chain + [property.value];
        t := PropertyType(property.value);
      }
      assert chain + [] == chain;
      if filter.operator != Between {
        if filter.value.None? {
          return Failure(ValueRequired);
        }
        var constant := Coerce(t, filter.value.value);
        if constant.Failure? {
          return Failure(constant.error);
        }
        r := Body(filter.operator, chain, t, constant.value);
      } else {
        if filter.valueFrom.None? || filter.valueTo.None? {
          return Failure(RangeValuesRequired);
        }
        if t != Int32Type {
          return Failure(FilterOperatorNotSupported(Between));
        }
        var from := Coerce(t, filter.valueFrom.value);
        if from.Failure? {
          return Failure(from.error);
        }
        var to := Coerce(t, filter.valueTo.value);
        if to.Failure? {
          return Failure(to.error);
        }
        r := Success(AndAlso(Compare(chain, GreaterThanOrEqual, from.value), Compare(chain, LessThanOrEqual, to.value)));
      }
    }

    /** `CombineFilterExpressionsWithOr`: folds `OrElse` from `false`; the result holds
        exactly when one of the predicates does. */
    static method CombineFilterExpressionsWithOr(filterExpressions: seq<Expr>) returns (combined: Expr)
      ensures combined == OrChain(filterExpressions)
      ensures forall x :: Eval(combined, x) <==> exists i :: 0 <= i < |filterExpressions| && Eval(filterExpressions[i], x)
    {
      combined := Constant(false);
      for i := 0 to |filterExpressions|
        invariant combined == OrChain(filterExpressions[..i])
      {
        assert filterExpressions[..i + 1][..i] == filterExpressions[..i];
        combined := OrElse(combined, filterExpressions[i]);
      }
      assert filterExpressions[..|filterExpressions|] == filterExpressions;
      forall x: WeatherForecast
        ensures Eval(combined, x) <==> exists i :: 0 <= i < |filterExpressions| && Eval(filterExpressions[i], x)
      {
        OrChainMeaning(filterExpressions, x);
      }
    }

    /** `CreateOrderByExpression`, as written: each segment is looked up on the entity type. */
    static method CreateOrderByExpression(propertyPath: string) returns (key: Result<Member, Error>)
      ensures key == OrderByMember(Split(propertyPath, '.'))
    {
      var segments := Split(propertyPath, '.');
      var property: Option<Member> := None;
      for i := 0 to |segments|
        invariant i < |segments| ==> OrderByMember(segments) == OrderByMember(segments[i..])
        invariant i == |segments| ==> property.Some? && OrderByMember(segments) == Success(property.value)
      {
        property := GetProperty(WeatherForecastType, segments[i]);
        if property.None? {
          return Failure(PropertyNotDefined(WeatherForecastType, segments[i]));
        }
        assert segments[i..][1..] == segments[i + 1..];
      }
      return Success(property.value);
    }

    /** `ApplyAndFilters`: one `Where` per filter, in order. A filter that fails to compile
        throws, leaving the clauses of the filters before it in place. */
    method ApplyAndFilters(filters: seq<(string, Filter)>, mappings: PropertyMappings) returns (outcome: Outcome<Error>)
      modifies this
      ensures var c := BuildEach(filters, mappings);
              query == old(query).(criteria := old(query.criteria) + c.exprs) &&
              outcome == (if c.failure.None? then Pass else Fail(c.failure.value))
      ensures selector == old(selector)
    {
      ghost var done: seq<Expr> := [];
      for i := 0 to |filters|
        invariant BuildEach(filters[..i], mappings) == Compiled(done, None)
        invariant query == old(query).(criteria := old(query.criteria) + done)
        invariant selector == old(selector)
      {
        var filterExpression := BuildFilterExpression(filters[i].0, filters[i].1, mappings);
        BuildEachSnoc(filters, mappings, i, done, filterExpression);
        if filterExpression.Failure? {
          return Fail(filterExpression.error);
        }
        query := query.(criteria := query.criteria + [filterExpression.value]);
        done := done + [filterExpression.value];
      }
      assert filters[..|filters|] == filters;
      return Pass;
    }

    /** `ApplyOrFilters`: every filter compiled, then one `Where` with their disjunction. A
        filter that fails to compile throws before any clause is added. */
    method ApplyOrFilters(filters: seq<(string, Filter)>, mappings: PropertyMappings) returns (outcome: Outcome<Error>)
      modifies this
      ensures var c := BuildEach(filters, mappings);
              if c.failure.None? then
                outcome == Pass && query == old(query).(criteria := old(query.criteria) + [OrChain(c.exprs)])
              else
                outcome == Fail(c.failure.value) && query == old(query)
      ensures selector == old(selector)
    {
      var filterExpressions: seq<Expr> := [];
      for i := 0 to |filters|
        invariant BuildEach(filters[..i], mappings) == Compiled(filterExpressions, None)
        invariant query == old(query) && selector == old(selector)
      {
        var filterExpression := BuildFilterExpression(filters[i].0, filters[i].1, mappings);
        BuildEachSnoc(filters, mappings, i, filterExpressions, filterExpression);
        if filterExpression.Failure? {
          return Fail(filterExpression.error);
        }
        filterExpressions := filterExpressions + [filterExpression.value];
      }
      assert filters[..|filters|] == filters;
      var combinedFilterExpression := CombineFilterExpressionsWithOr(filterExpressions);
      query := query.(criteria := query.criteria + [combinedFilterExpression]);
      return Pass;
    }

    /** `ApplySorting`: sets the order key, or throws and leaves the query as it was. */
    method ApplySorting(sortBy: string, direction: SortDirection, mappings: PropertyMappings) returns (outcome: Outcome<Error>)
      modifies this
      ensures SortKeyFor(sortBy, direction, mappings).Success? ==>
                outcome == Pass && query == old(query).(order := Some(SortKeyFor(sortBy, direction, mappings).value))
      ensures SortKeyFor(sortBy, direction, mappings).Failure? ==>
                outcome == Fail(SortKeyFor(sortBy, direction, mappings).error) && query == old(query)
      ensures selector == old(selector)
    {
      var path := MapProperty(mappings, sortBy);
      var isEntityProperty := IsEntityProperty(path);
      if isEntityProperty {
        var key := CreateOrderByExpression(path);
        if key.Failure? {
          return Fail(key.error);
        }
        if direction == Desc {
          query := query.(order := Some(OrderKey(key.value, true)));
        } else {
          query := query.(order := Some(OrderKey(key.value, false)));
        }
        return Pass;
      } else {
        return Fail(OrderByNotSupported(path));
      }
    }

    /** `Query.Select(selector)`: the projection the evaluator applies last. */
    method Select(f: WeatherForecast -> WeatherForecastResponse)
      modifies this
      ensures selector == Some(f) && query == old(query)
    {
      selector := Some(f);
    }
  }
}
