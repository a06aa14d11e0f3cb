/** `WeatherForecastSearchSpecification` and `WeatherForecastSearchProjectionSpecification`:
    a `PaginationRequest` turned into a paginated specification. Both constructors pass the
    page through, compile the filters (conjunction for `And`, one disjunction otherwise),
    add the sort when `SortBy` is not blank, all through the alias `temp` -> `TemperatureC`;
    the projection one then selects the response shape. */
module WeatherForecastSearch {
  import opened Wrappers
  import opened Clr
  import opened Entities
  import opened Models
  import opened Exceptions
  import opened PropertyPaths
  import opened FilterExpressions
  import opened Specifications
  import opened QueryEvaluation
  import opened PagedLists
  import opened Repository

  /** The alias dictionary, built with `StringComparer.OrdinalIgnoreCase`. */
  const SearchMappings: PropertyMappings := map["temp" := "TemperatureC"]

  /** The `Where` clauses a request adds: none without filters, one per filter for `And`,
      a single disjunction for any other logical operator; or the first compile error. */
  function FilterClauses(request: PaginationRequest, mappings: PropertyMappings): Result<seq<Expr>, Error>
  {
    if request.filters.None? || |request.filters.value| == 0 then Success([])
    else
      var compiled := BuildEach(request.filters.value, mappings);
      if compiled.failure.Some? then Failure(compiled.failure.value)
      else if request.operator == And then Success(compiled.exprs)
      else Success([OrChain(compiled.exprs)])
  }

  /** The order key a request sets: none for a null or blank `SortBy`. */
  function SortClause(request: PaginationRequest, mappings: PropertyMappings): Result<Option<OrderKey>, Error>
  {
    if IsNullOrWhiteSpace(request.sortBy) then Success(None)
    else
      var key :- SortKeyFor(request.sortBy.value, request.direction, mappings);
      Success(Some(key))
  }

  /** The query both constructors build, or the exception they throw. */
  function SearchQuery(request: PaginationRequest): Result<Query, Error>
  {
    var criteria :- FilterClauses(request, SearchMappings);
    var order :- SortClause(request, SearchMappings);
    Success(Query(criteria, order))
  }

  /** The query is the filter clauses and the sort clause; the first error wins. */
  lemma SearchQueryParts(request: PaginationRequest)
    ensures SearchQuery(request).Success? <==>
              FilterClauses(request, SearchMappings).Success? && SortClause(request, SearchMappings).Success?
    ensures SearchQuery(request).Success? ==>
              SearchQuery(request).value ==
              Query(FilterClauses(request, SearchMappings).value, SortClause(request, SearchMappings).value)
  {
  }

  /** The constructor body the two specifications share: filters, then the sort. */
  method ApplyRequest(spec: PaginatedSpecification, request: PaginationRequest) returns (outcome: Outcome<Error>)
    requires spec.query == Query([], None)
    modifies spec
    ensures SearchQuery(request).Success? ==> outcome == Pass && spec.query == SearchQuery(request).value
    ensures SearchQuery(request).Failure? ==> outcome == Fail(SearchQuery(request).error)
    ensures spec.selector == old(spec.selector)
  {
    if request.filters.Some? && |request.filters.value| > 0 {
      if request.operator == And {
        outcome := spec.ApplyAndFilters(request.filters.value, SearchMappings);
      } else {
        outcome := spec.ApplyOrFilters(request.filters.value, SearchMappings);
      }
      if outcome.Fail? {
        return;
      }
    }
    assert [] + FilterClauses(request, SearchMappings).value == FilterClauses(request, SearchMappings).value;
    if !IsNullOrWhiteSpace(request.sortBy) {
      outcome := spec.ApplySorting(request.sortBy.value, request.direction, SearchMappings);
      if outcome.Fail? {
        return;
      }
    }
    outcome := Pass;
  }

  /** `new WeatherForecastSearchSpecification(request)`. */
  method NewSearchSpecification(request: PaginationRequest) returns (r: Result<PaginatedSpecification, Error>)
    ensures r.Success? ==>
              fresh(r.value) && SearchQuery(request) == Success(r.value.query) &&
              r.value.pageNumber == request.page && r.value.pageSize == request.size && r.value.selector.None?
    ensures r.Failure? ==> SearchQuery(request) == Failure(r.error)
  {
    var spec := new PaginatedSpecification(request.page, request.size);
    var outcome := ApplyRequest(spec, request);
    if outcome.Fail? {
      return Failure(outcome.error);
    }
    return Success(spec);
  }

  /** `new WeatherForecastSearchProjectionSpecification(request)`. */
  method NewSearchProjectionSpecification(request: PaginationRequest) returns (r: Result<PaginatedSpecification, Error>)
    ensures r.Success? ==>
              fresh(r.value) && SearchQuery(request) == Success(r.value.query) &&
              r.value.pageNumber == request.page && r.value.pageSize == request.size &&
              r.value.selector == Some(ToResponse)
    ensures r.Failure? ==> SearchQuery(request) == Failure(r.error)
  {
    var spec := new PaginatedSpecification(request.page, request.size);
    var outcome := ApplyRequest(spec, request);
    if outcome.Fail? {
      return Failure(outcome.error);
    }
    spec.Select(ToResponse);
    return Success(spec);
  }

  // ---------------------------------------------------------------------------
  // What a search keeps

  /** Without filters no clause is added and every entity is kept. */
  lemma SearchWithoutFilters(request: PaginationRequest, source: seq<WeatherForecast>)
    requires request.filters.None? || request.filters.value == []
    requires SearchQuery(request).Success?
    ensures SearchQuery(request).value.criteria == []
    ensures Where(source, SearchQuery(request).value) == source
  {
    WhereWithoutCriteria(source, SearchQuery(request).value);
  }

  /** With `And`, an entity is kept exactly when every filter, compiled on its own, holds. */
  lemma AndSearchIsConjunction(request: PaginationRequest, x: WeatherForecast)
    requires request.filters.Some? && request.operator == And
    requires SearchQuery(request).Success?
    ensures var filters := request.filters.value;
            forall i :: 0 <= i < |filters| ==> BuildFilter(filters[i].0, filters[i].1, SearchMappings).Success?
    ensures var filters := request.filters.value;
            Satisfies(x, SearchQuery(request).value) <==>
            forall i :: 0 <= i < |filters| ==> Eval(BuildFilter(filters[i].0, filters[i].1, SearchMappings).value, x)
  {
    var filters := request.filters.value;
    CompileEachResult(filters, (f: (string, Filter)) => BuildFilter(f.0, f.1, SearchMappings));
  }

  /** The disjunction of compiled filters holds exactly when one of the filters does. */
  lemma DisjunctionOfFilters(filters: seq<(string, Filter)>, mappings: PropertyMappings, x: WeatherForecast)
    requires BuildEach(filters, mappings).failure.None?
    ensures forall i :: 0 <= i < |filters| ==> BuildFilter(filters[i].0, filters[i].1, mappings).Success?
    ensures Eval(OrChain(BuildEach(filters, mappings).exprs), x) <==>
            exists i :: 0 <= i < |filters| && Eval(BuildFilter(filters[i].0, filters[i].1, mappings).value, x)
  {
    var compiled := BuildEach(filters, mappings);
    CompileEachResult(filters, (f: (string, Filter)) => BuildFilter(f.0, f.1, mappings));
    assert forall i :: 0 <= i < |filters| ==> BuildFilter(filters[i].0, filters[i].1, mappings).value == compiled.exprs[i];
    OrChainMeaning(compiled.exprs, x);
  }

  /** With any other logical operator, an entity is kept exactly when some filter holds;
      with filters present and none holding, it is dropped. */
  lemma OtherSearchIsDisjunction(request: PaginationRequest, x: WeatherForecast)
    requires request.filters.Some? && |request.filters.value| > 0 && request.operator != And
    requires SearchQuery(request).Success?
    ensures var filters := request.filters.value;
            forall i :: 0 <= i < |filters| ==> BuildFilter(filters[i].0, filters[i].1, SearchMappings).Success?
    ensures var filters := request.filters.value;
            Satisfies(x, SearchQuery(request).value) <==>
            exists i :: 0 <= i < |filters| && Eval(BuildFilter(filters[i].0, filters[i].1, SearchMappings).value, x)
  {
    var filters := request.filters.value;
    SearchQueryParts(request);
    var compiled := BuildEach(filters, SearchMappings);
    var q := SearchQuery(request).value;
    assert q.criteria == FilterClauses(request, SearchMappings).value == [OrChain(compiled.exprs)];
    assert Satisfies(x, q) <==> Eval(q.criteria[0], x);
    DisjunctionOfFilters(filters, SearchMappings, x);
  }

  /** The order key is set exactly when `SortBy` is neither null nor blank. */
  lemma SortAppliedIffSortByGiven(request: PaginationRequest)
    requires SearchQuery(request).Success?
    ensures SearchQuery(request).value.order.Some? <==> !IsNullOrWhiteSpace(request.sortBy)
    ensures SearchQuery(request).value.order.Some? ==>
              (SearchQuery(request).value.order.value.descending <==> request.direction == Desc)
  {
    if !IsNullOrWhiteSpace(request.sortBy) {
      SortKeyForOutcome(request.sortBy.value, request.direction, SearchMappings);
    }
  }

  // ---------------------------------------------------------------------------
  // The alias

  /** `temp` maps to `TemperatureC` in any case. */
  lemma AliasIgnoresCase()
    ensures MapProperty(SearchMappings, "temp") == "TemperatureC"
    ensures MapProperty(SearchMappings, "Temp") == "TemperatureC"
    ensures MapProperty(SearchMappings, "TEMP") == "TemperatureC"
  {
    assert Lower("Temp") == "temp";
    assert Lower("TEMP") == "temp";
  }

  /** The alias's target is not itself an alias. */
  lemma SearchMappingsTargetsAreNotKeys()
    ensures forall k :: k in SearchMappings ==> Lower(SearchMappings[k]) !in SearchMappings
  {
    assert |Lower("TemperatureC")| == 12;
  }

  /** A blank name is no alias, and the alias's target is not blank. */
  lemma MapPropertyKeepsBlankness(s: string)
    ensures IsNullOrWhiteSpace(Some(MapProperty(SearchMappings, s))) <==> IsNullOrWhiteSpace(Some(s))
  {
    if Lower(s) in SearchMappings {
      assert |s| == 4 && FoldChar(s[0]) == Lower(s)[0] == 't';
      assert !IsWhiteSpace(s[0]);
      assert !IsWhiteSpace(MapProperty(SearchMappings, s)[0]);
    }
  }

  lemma MapPropertyIdempotent(s: string)
    ensures MapProperty(SearchMappings, MapProperty(SearchMappings, s)) == MapProperty(SearchMappings, s)
  {
    SearchMappingsTargetsAreNotKeys();
  }

  /** A request with every alias already replaced by its path. */
  function Canonical(request: PaginationRequest): PaginationRequest
  {
    request.(
      filters :=
        if request.filters.None? then None
        else Some(seq(|request.filters.value|, i requires 0 <= i < |request.filters.value| =>
               (MapProperty(SearchMappings, request.filters.value[i].0), request.filters.value[i].1))),
      sortBy := if request.sortBy.None? then None else Some(MapProperty(SearchMappings, request.sortBy.value)))
  }

  lemma FilterClausesOfCanonical(request: PaginationRequest)
    ensures FilterClauses(Canonical(request), SearchMappings) == FilterClauses(request, SearchMappings)
  {
    var canonical := Canonical(request);
    SearchMappingsTargetsAreNotKeys();
    if request.filters.Some? {
      var filters := request.filters.value;
      var mapped := canonical.filters.value;
      forall i | 0 <= i < |filters|
        ensures BuildFilter(mapped[i].0, mapped[i].1, SearchMappings) == BuildFilter(filters[i].0, filters[i].1, SearchMappings)
      {
        BuildFilterThroughAlias(filters[i].0, filters[i].1, SearchMappings);
      }
      CompileEachCongruent(
        mapped, (f: (string, Filter)) => BuildFilter(f.0, f.1, SearchMappings),
        filters, (f: (string, Filter)) => BuildFilter(f.0, f.1, SearchMappings));
    }
  }

  lemma SortKeyForThroughAlias(s: string, direction: SortDirection)
    ensures SortKeyFor(MapProperty(SearchMappings, s), direction, SearchMappings) == SortKeyFor(s, direction, SearchMappings)
  {
    MapPropertyIdempotent(s);
  }

  lemma SortClauseOfCanonical(request: PaginationRequest)
    ensures SortClause(Canonical(request), SearchMappings) == SortClause(request, SearchMappings)
  {
    if request.sortBy.Some? {
      var s := request.sortBy.value;
      assert Canonical(request).sortBy == Some(MapProperty(SearchMappings, s));
      assert Canonical(request).direction == request.direction;
      SortKeyForThroughAlias(s, request.direction);
      MapPropertyKeepsBlankness(s);
    }
  }

  /** Aliases are transparent: filtering or sorting by `temp` is filtering or sorting by
      `TemperatureC`, errors included. */
  lemma AliasTransparent(request: PaginationRequest)
    ensures SearchQuery(Canonical(request)) == SearchQuery(request)
  {
    FilterClausesOfCanonical(request);
    SortClauseOfCanonical(request);
    SearchQueryParts(request);
    SearchQueryParts(Canonical(request));
  }
}
