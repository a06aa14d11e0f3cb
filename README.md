# Dynamic search over weather forecasts — a Dafny model

This project models the filter / sort / paginate engine behind the weather-forecast
search endpoint of Aspire.ProjectTemplate. It covers five parts.

- **Property paths.** `PaginatedSpecification<T>` resolves a dotted property name
  (`GetPropertyExpression` and `IsEntityProperty`). Each segment is looked up
  case-insensitively on the type reached so far. The walk fails as soon as one segment
  is missing.
- **Filter compilation.** `BuildFilterExpression` turns a `(field, Filter)` pair into a
  predicate:
  - an alias is substituted;
  - the member-access chain is built;
  - the operands are checked for null;
  - the literal is coerced by the property's type;
  - the operator is dispatched.
  `Between` is the inclusive range.
- **Combination and sorting.** `ApplyAndFilters` adds one `Where` per filter.
  `ApplyOrFilters` adds one `Where` with the disjunction that
  `CombineFilterExpressionsWithOr` folds from `false`. `ApplySorting` and
  `CreateOrderByExpression` set one order key.
- **The two search specifications.** `WeatherForecastSearchSpecification` and
  `WeatherForecastSearchProjectionSpecification` turn a `PaginationRequest` into such a
  specification, through the case-insensitive alias `temp` → `TemperatureC`. The
  projection one also selects the response shape.
- **Pagination.** `EFRepository`'s paged `ListAsync` overloads count the filtered rows and
  take the window `Skip((p-1)*s).Take(s)`. `PagedList<T>` derives `TotalPages`,
  `HasPreviousPage` and `HasNextPage`. Also modelled: the `ListAsync` that returns nothing
  without a selector, and `FindAsync`'s null guard.

Module by module:

- `Clr` models the .NET pieces the engine relies on:
  - 32-bit `int`, unchecked wrap-around and the saturating cast;
  - ordinal case-insensitive comparison and `IsNullOrWhiteSpace`;
  - `string.Split(char)`;
  - `int.Parse` / `long.Parse`.
- `Entities` holds the entity, its response shape, and the types a dotted path can reach:
  `WeatherForecast`, `string` (with its `Chars` indexer) and `DateOnly`. `Models` and
  `Exceptions` hold the request values and one error per throw site.
- `PropertyPaths`, `FilterExpressions` and `Specifications` model `PaginatedSpecification`.
  The specification is a class whose `query` (the `Where` clauses and the order key) and
  `selector` its methods update. The methods are proved against the functions
  `Resolve`, `BuildFilter`, `OrChain`, `OrderByMember` and `SortKeyFor`, and the lemmas
  beside those functions state what the source promises.
- `QueryEvaluation` says what a query does to a sequence of rows once the store runs it.
  The `Where` clauses keep the rows satisfying all of them, in order, and the key sorts
  them as `ORDER BY` does. The store leaves the order of equal keys unspecified; the model
  keeps them in source order.
- `PagedLists` models `PagedList<T>`, `Repository` the read side of `EFRepository`, and
  `WeatherForecastSearch` the two constructors.
- `SearchScenarios` proves worked searches end to end:
  - `temp > n`;
  - `temp` between two values;
  - `summary == t` or `temp > n`;
  - sorting by `temp` descending;
  - an unknown field;
  - the second page of five rows.

Behaviour modelled as the code is written:

- **Nested sort paths.** `CreateOrderByExpression` looks every segment up on the entity
  type, not on the previous segment's type (PaginatedSpecification.cs:232-235).
  `IsEntityProperty` accepts a nested path such as `Date.Year`. The key is then built
  from `Year` on `WeatherForecast`, which has no such property, so the sort fails with
  `ArgumentException` (`PropertyPaths.NestedOrderByPathFails`).
- **Text operators on other types.** `Contains`, `StartsWith` and `EndsWith` on a property
  that is not a string fail with `InvalidOperationException`, because `Expression.Call`
  finds no such method on that type (PaginatedSpecification.cs:110-112). They are not
  reported as an unsupported operator.
- **`Date`.** `Date` is a `DateOnly`, which is not in the coercion table. Its literal
  stays text, so every comparison on it fails while the expression is built
  (`InvalidOperationException`). `Between` on it is not supported.
- **Page offset.** The offset `(PageNumber - 1) * PageSize` is computed in unchecked
  32-bit arithmetic (`Repository.WrappedOffsetRepeatsFirstPage`). `Skip` and `Take` are
  given their LINQ-to-Objects meaning; see "Left out" for the store's.

## Model

| member | source | states |
|---|---|---|
| Clr.Wrap32 | Aspire.ProjectTemplate.Infrastructure/Persistence/EFRepository.cs:231 | the result of unchecked `int` arithmetic is the `int` congruent to the exact value modulo 2^32, and is the exact value when that fits |
| Clr.IsNullOrWhiteSpace | Aspire.ProjectTemplate.Core/Specifications/WeatherForecasts/WeatherForecastSearchSpecification.cs:32 | `string.IsNullOrWhiteSpace`: null, or every character white space; it gates the sort, as `SortAppliedIffSortByGiven` states |
| Clr.Saturate32 | Aspire.ProjectTemplate.Core/Models/PagedList.cs:56 | the `(int)` conversion clamps to `int.MinValue` / `int.MaxValue` and keeps values in range |
| Clr.JoinSplit | Aspire.ProjectTemplate.Core/Specifications/PaginatedSpecification.cs:43 | splitting a path on '.' loses nothing: joining the segments gives the path back |
| Clr.Split | Aspire.ProjectTemplate.Core/Specifications/PaginatedSpecification.cs:43 | `string.Split('.')` yields at least one segment, the whole string when it has no '.'; its content is pinned by `JoinSplit` |
| Clr.SplitPiecesHaveNoSeparator | Aspire.ProjectTemplate.Core/Specifications/PaginatedSpecification.cs:82 | no segment of a split path contains '.' |
| Clr.SplitWithoutSeparator | Aspire.ProjectTemplate.Core/Specifications/PaginatedSpecification.cs:232 | a name without '.' is a single segment |
| Clr.SplitLower | Aspire.ProjectTemplate.Core/Specifications/PaginatedSpecification.cs:43-49 | splitting on a caseless separator commutes with case folding |
| Clr.ParseInteger | Aspire.ProjectTemplate.Core/Specifications/PaginatedSpecification.cs:98-99 | a parsed literal lies within the target type's range (out-of-range numerals are an overflow) |
| Clr.ParseFormatRoundTrip | Aspire.ProjectTemplate.Core/Specifications/PaginatedSpecification.cs:98-99 | parsing the decimal rendering of any in-range integer gives it back |
| Entities.ToResponse | Aspire.ProjectTemplate.Core/Specifications/WeatherForecasts/WeatherForecastSearchProjectionSpecification.cs:39-46 | each projected `Id`, `Date`, `TemperatureC`, `Summary` equals the entity's |
| Entities.FindPropertyResult | Aspire.ProjectTemplate.Core/Specifications/PaginatedSpecification.cs:49 | a property found by name is one of the type's properties with that name ignoring case; none is found only when no property has the name |
| PropertyPaths.AccessChain | Aspire.ProjectTemplate.Core/Specifications/PaginatedSpecification.cs:82-85 | a member-access chain that can be built has one member per segment |
| PropertyPaths.Resolve | Aspire.ProjectTemplate.Core/Specifications/PaginatedSpecification.cs:41-60 | the reflection walk from `WeatherForecast`; a path without '.' is the single case-insensitive property lookup on the entity |
| PropertyPaths.AccessChainEndsAtResolved | Aspire.ProjectTemplate.Core/Specifications/PaginatedSpecification.cs:41-60 | the filter's access chain ends at the property the reflection walk resolves the same path to |
| PropertyPaths.AccessChainFailsLikeResolve | Aspire.ProjectTemplate.Core/Specifications/PaginatedSpecification.cs:41-60 | a path the walk does not resolve cannot be accessed; a path it resolves fails to be accessed only on an indexer |
| PropertyPaths.ResolveFromLower | Aspire.ProjectTemplate.Core/Specifications/PaginatedSpecification.cs:47-57 | resolving case-folded segments finds the same property |
| PropertyPaths.AccessChainLower | Aspire.ProjectTemplate.Core/Specifications/PaginatedSpecification.cs:82-85 | case-folded segments build the same access chain, or fail alike |
| PropertyPaths.ResolveIgnoresCase | Aspire.ProjectTemplate.Core/Specifications/PaginatedSpecification.cs:41-60 | two paths equal ignoring case resolve to the same property, or both to none |
| PropertyPaths.OrderByMember | Aspire.ProjectTemplate.Core/Specifications/PaginatedSpecification.cs:232-235 | the order key is always a property of the entity type itself; its only failure is a property not defined on it |
| PropertyPaths.OrderByMemberOfSimplePath | Aspire.ProjectTemplate.Core/Specifications/PaginatedSpecification.cs:225-239 | for a one-segment path the order key is the property the path resolves to |
| PropertyPaths.RootAndNestedNamesDiffer | Aspire.ProjectTemplate.Core/Entities/WeatherForecast.cs:5-13 | no property of `WeatherForecast` shares a name, ignoring case, with a property of `string` or `DateOnly` |
| PropertyPaths.NestedOrderByPathFails | Aspire.ProjectTemplate.Core/Specifications/PaginatedSpecification.cs:232-235 | a nested path that resolves, and so passes `IsEntityProperty`, never yields an order key |
| FilterExpressions.MapPropertyIgnoresCase | Aspire.ProjectTemplate.Core/Specifications/PaginatedSpecification.cs:74-77 | names equal ignoring case are mapped alike by an `OrdinalIgnoreCase` alias map |
| FilterExpressions.MapProperty | Aspire.ProjectTemplate.Core/Specifications/PaginatedSpecification.cs:74-77 | a key that is an alias, ignoring case, is replaced by its own target; any other key is kept as it is |
| FilterExpressions.Coerce | Aspire.ProjectTemplate.Core/Specifications/PaginatedSpecification.cs:96-104 | an `int` property gets an `int`-range number, a `long` property a `long`-range number, any other type the literal text unchanged; a failure is a bad literal carrying the text |
| FilterExpressions.CoerceFormatted | Aspire.ProjectTemplate.Core/Specifications/PaginatedSpecification.cs:98 | the decimal rendering of an `int` coerces back to that number |
| FilterExpressions.ChainOf | Aspire.ProjectTemplate.Core/Specifications/PaginatedSpecification.cs:79-85 | a filter key that resolves yields a chain of at least one member |
| FilterExpressions.BuildFilterOnChain | Aspire.ProjectTemplate.Core/Specifications/PaginatedSpecification.cs:69-85 | a key whose access chain fails gives that error; otherwise the filter compiles on the resolved chain |
| FilterExpressions.BuildFilter | Aspire.ProjectTemplate.Core/Specifications/PaginatedSpecification.cs:69-142 | `BuildFilterExpression`: alias, access chain, then compilation; its error order is `BuildFilterOnChain` and `CompileOnErrors`, its meaning `CompiledFilterMeaning` |
| FilterExpressions.CompileOn | Aspire.ProjectTemplate.Core/Specifications/PaginatedSpecification.cs:87-142 | the value checks, coercion and operator arms on a built chain; stated by `CompileOnErrors`, `CompileOnTypes` and `CompiledFilterMeaning` |
| FilterExpressions.Body | Aspire.ProjectTemplate.Core/Specifications/PaginatedSpecification.cs:106-118 | one operator arm: `Expression.Equal`, the comparisons and the string calls, failing on the types `CompileOnTypes` lists |
| FilterExpressions.CompileOnErrors | Aspire.ProjectTemplate.Core/Specifications/PaginatedSpecification.cs:89-138 | the errors in check order: a missing value, then a bad literal; for `Between` missing bounds, then a non-`int` property; an undefined operator whose literal coerces is "not supported" |
| FilterExpressions.CompileOnTypes | Aspire.ProjectTemplate.Core/Specifications/PaginatedSpecification.cs:106-138 | "not supported" arises only from an operator outside the switch or `Between` on a non-`int`; text operators compile only on strings, ordering operators only on numbers, equality on numbers and strings |
| FilterExpressions.CompiledFilterMeaning | Aspire.ProjectTemplate.Core/Specifications/PaginatedSpecification.cs:106-118 | a compiled value filter holds on an entity exactly when the property's value matches the coerced literal under the operator's meaning |
| FilterExpressions.BetweenIsInclusive | Aspire.ProjectTemplate.Core/Specifications/PaginatedSpecification.cs:127-132 | a compiled `Between` holds exactly when `from <= x <= to`, both ends included, on an `int` property |
| FilterExpressions.BuildFilterThroughAlias | Aspire.ProjectTemplate.Core/Specifications/PaginatedSpecification.cs:74-77 | an alias and its target path compile to the same predicate, when no target is itself an alias |
| FilterExpressions.BuildFilterIgnoresCase | Aspire.ProjectTemplate.Core/Specifications/PaginatedSpecification.cs:74-85 | filter keys equal ignoring case compile to the same predicate |
| FilterExpressions.OrChainMeaning | Aspire.ProjectTemplate.Core/Specifications/PaginatedSpecification.cs:150-170 | the `OrElse` fold from `false` holds exactly when one of the predicates holds; with none it is false |
| FilterExpressions.OrChain | Aspire.ProjectTemplate.Core/Specifications/PaginatedSpecification.cs:150-170 | the `OrElse` fold from `Constant(false)` over the compiled filters; its meaning is `OrChainMeaning` |
| FilterExpressions.CompileEachResult | Aspire.ProjectTemplate.Core/Specifications/PaginatedSpecification.cs:282-283 | filters compile in order: without an error each filter gives its own predicate; with one, the predicates before the first failing filter and its error |
| FilterExpressions.CompileEachCongruent | Aspire.ProjectTemplate.Core/Specifications/PaginatedSpecification.cs:258-260 | filter lists that compile pairwise alike compile alike |
| FilterExpressions.CompileEachFromPrefix | Aspire.ProjectTemplate.Core/Specifications/PaginatedSpecification.cs:282-286 | filters compiled one by one determine the whole compilation: all compiled, or a prefix and the next one's error |
| FilterExpressions.CompileEachSnoc | Aspire.ProjectTemplate.Core/Specifications/PaginatedSpecification.cs:282-286 | one more filter compiled extends the predicates, or its error ends the compilation |
| FilterExpressions.BuildEachSnoc | Aspire.ProjectTemplate.Core/Specifications/PaginatedSpecification.cs:282-286 | the same step for `BuildFilterExpression` over a request's filters |
| Specifications.SortKeyForOutcome | Aspire.ProjectTemplate.Core/Specifications/PaginatedSpecification.cs:196-218 | an unresolvable sort path (after alias substitution) is "not supported"; a one-segment path sorts by its property; a nested one fails with `ArgumentException`; only `Desc` is descending |
| Specifications.SortKeyFor | Aspire.ProjectTemplate.Core/Specifications/PaginatedSpecification.cs:196-218 | the alias, the `IsEntityProperty` gate, `CreateOrderByExpression` and the direction; its outcomes are `SortKeyForOutcome` |
| Specifications.PaginatedSpecification.constructor | Aspire.ProjectTemplate.Core/Specifications/PaginatedSpecification.cs:18-24 | the page number and size are stored unchanged, with an empty query and no selector |
| Specifications.PaginatedSpecification.GetPropertyExpression | Aspire.ProjectTemplate.Core/Specifications/PaginatedSpecification.cs:41-60 | the loop returns what `Resolve` gives: null as soon as a segment is missing, otherwise the last segment's property |
| Specifications.PaginatedSpecification.IsEntityProperty | Aspire.ProjectTemplate.Core/Specifications/PaginatedSpecification.cs:31-34 | true exactly when the path resolves |
| Specifications.PaginatedSpecification.BuildFilterExpression | Aspire.ProjectTemplate.Core/Specifications/PaginatedSpecification.cs:69-142 | the segment loop and the checks give exactly `BuildFilter`'s predicate or error |
| Specifications.PaginatedSpecification.CombineFilterExpressionsWithOr | Aspire.ProjectTemplate.Core/Specifications/PaginatedSpecification.cs:150-170 | the fold is `OrChain` of the predicates and holds exactly when one of them holds |
| Specifications.PaginatedSpecification.CreateOrderByExpression | Aspire.ProjectTemplate.Core/Specifications/PaginatedSpecification.cs:225-240 | the loop gives `OrderByMember` of the segments, every one looked up on the entity type |
| Specifications.PaginatedSpecification.ApplyAndFilters | Aspire.ProjectTemplate.Core/Specifications/PaginatedSpecification.cs:280-287 | one `Where` per filter, in order; on a compile error the clauses of the filters before it stay and the error is thrown; the selector is unchanged |
| Specifications.PaginatedSpecification.ApplyOrFilters | Aspire.ProjectTemplate.Core/Specifications/PaginatedSpecification.cs:256-264 | one `Where` holding the disjunction of all compiled filters; on a compile error nothing is added and the error is thrown |
| Specifications.PaginatedSpecification.ApplySorting | Aspire.ProjectTemplate.Core/Specifications/PaginatedSpecification.cs:196-218 | sets the order key `SortKeyFor` gives, or throws its error and leaves the query unchanged |
| Specifications.PaginatedSpecification.Select | Aspire.ProjectTemplate.Core/Specifications/WeatherForecasts/WeatherForecastSearchProjectionSpecification.cs:39-46 | sets the selector and leaves the query unchanged |
| QueryEvaluation.Where | Aspire.ProjectTemplate.Infrastructure/Persistence/EFRepository.cs:426-431 | the filtered rows are exactly the source rows satisfying every clause, each exactly as often as it occurs in the source, and no other row |
| QueryEvaluation.WhereWithoutCriteria | Aspire.ProjectTemplate.Core/Specifications/WeatherForecasts/WeatherForecastSearchSpecification.cs:20 | a query without clauses keeps every row, in order |
| QueryEvaluation.Insert | Aspire.ProjectTemplate.Infrastructure/Persistence/EFRepository.cs:426-431 | inserting a row adds exactly that row |
| QueryEvaluation.SortBy | Aspire.ProjectTemplate.Infrastructure/Persistence/EFRepository.cs:426-431 | sorting is a permutation of the rows |
| QueryEvaluation.InsertSorted | Aspire.ProjectTemplate.Core/Specifications/PaginatedSpecification.cs:205-212 | inserting into a sorted sequence keeps it sorted |
| QueryEvaluation.SortBySorted | Aspire.ProjectTemplate.Core/Specifications/PaginatedSpecification.cs:205-212 | the sorted rows are in key order, ascending or descending as the key says |
| QueryEvaluation.ApplyOrderOnly | Aspire.ProjectTemplate.Core/Specifications/PaginatedSpecification.cs:205-212 | a query with only an order key sorts the whole source |
| QueryEvaluation.ApplySpecificationResult | Aspire.ProjectTemplate.Infrastructure/Persistence/EFRepository.cs:426-431 | the evaluated query holds exactly the satisfying rows, as often as the filter keeps them, sorted by the key when there is one |
| QueryEvaluation.ApplySpecification | Aspire.ProjectTemplate.Infrastructure/Persistence/EFRepository.cs:426-431 | the evaluator's `Where` then `OrderBy`; its result is characterized by `ApplySpecificationResult` |
| PagedLists.TotalPages | Aspire.ProjectTemplate.Core/Models/PagedList.cs:56 | for a non-negative count and positive size, the least `r` with `count <= r * size`; with size 0, positive exactly for a positive count and zero for a zero count |
| PagedLists.NewPagedList | Aspire.ProjectTemplate.Core/Models/PagedList.cs:51-58 | items, count, page number and size are stored unchanged, and the number of pages is derived from the count |
| PagedLists.TotalPagesFormula | Aspire.ProjectTemplate.Core/Models/PagedList.cs:56 | for `count >= 0` and `size > 0` the number of pages is `(count + size - 1) / size` |
| PagedLists.TotalPagesOfExactMultiple | Aspire.ProjectTemplate.Core/Models/PagedList.cs:56 | `k * size` items fill exactly `k` pages |
| PagedLists.NoNextPageWhenEmpty | Aspire.ProjectTemplate.Core/Models/PagedList.cs:37 | with a count of zero no page numbered 0 or more has a next page |
| PagedLists.NextPageWhenEmptyBelowZero | Aspire.ProjectTemplate.Core/Models/PagedList.cs:37 | page numbers are not clamped: with a count of zero, every page numbered below 0 reports a next page |
| PagedLists.HasNextPageIffItemsRemain | Aspire.ProjectTemplate.Core/Models/PagedList.cs:37 | for page >= 1 and size > 0 there is a next page exactly when `page * size < count` |
| PagedLists.HasPreviousPageIffNotFirst | Aspire.ProjectTemplate.Core/Models/PagedList.cs:32 | for page >= 1 and size > 0 there is a previous page exactly when the page does not start at row 0 |
| Repository.Skip | Aspire.ProjectTemplate.Infrastructure/Persistence/EFRepository.cs:231 | LINQ-to-Objects `Skip(n)` keeps everything for `n <= 0`, the suffix from `n`, nothing past the end |
| Repository.SkipCount | Aspire.ProjectTemplate.Infrastructure/Persistence/EFRepository.cs:231 | `(PageNumber - 1) * PageSize` is that exact value whenever it fits in an `int`; otherwise it wraps, as `WrappedOffsetRepeatsFirstPage` shows |
| Repository.Window | Aspire.ProjectTemplate.Infrastructure/Persistence/EFRepository.cs:231-232 | the page has no more rows than the source or than the page size, and only rows of the source |
| Repository.Take | Aspire.ProjectTemplate.Infrastructure/Persistence/EFRepository.cs:232 | LINQ-to-Objects `Take(n)` keeps nothing for `n <= 0`, the prefix of length `n`, everything past the end |
| Repository.WindowSlice | Aspire.ProjectTemplate.Infrastructure/Persistence/EFRepository.cs:228-233 | without wrap-around the page is the slice from `(p-1)*s` to `(p-1)*s + s`, cut at the end; it has `max(0, min(s, N - (p-1)*s))` rows, at most `s` |
| Repository.WrappedOffsetRepeatsFirstPage | Aspire.ProjectTemplate.Infrastructure/Persistence/EFRepository.cs:231 | page `2^30 + 1` of size 4 wraps its offset to 0 and returns the first page again |
| Repository.CountRows | Aspire.ProjectTemplate.Infrastructure/Persistence/EFRepository.cs:225-226 | the total is the number of filtered rows, or an overflow error when that exceeds `int.MaxValue` |
| Repository.ListPaged | Aspire.ProjectTemplate.Infrastructure/Persistence/EFRepository.cs:222-236 | the page carries the filtered count, the window of the filtered ordered rows, and the specification's page number and size unchanged |
| Repository.ListPagedMapped | Aspire.ProjectTemplate.Infrastructure/Persistence/EFRepository.cs:238-243 | without a mapper the overload fails with "mapper not configured" before any query |
| Repository.ListPagedSelected | Aspire.ProjectTemplate.Infrastructure/Persistence/EFRepository.cs:259-272 | without a selector the evaluator fails with "selector not found" |
| Repository.ListSelected | Aspire.ProjectTemplate.Infrastructure/Persistence/EFRepository.cs:193-205 | without a selector the result is empty; with one, it is the selector applied to each row the evaluated query returns, in that order |
| Repository.Find | Aspire.ProjectTemplate.Infrastructure/Persistence/EFRepository.cs:26-34 | a null identifier is `ArgumentNullException`; otherwise a row with that key when there is one, and none only when no row has it |
| Repository.CountIndependentOfPage | Aspire.ProjectTemplate.Infrastructure/Persistence/EFRepository.cs:225-226 | two specifications with the same query report the same total, whatever page they ask for, or fail alike |
| Repository.MappedPageProjectsPlainPage | Aspire.ProjectTemplate.Infrastructure/Persistence/EFRepository.cs:245-255 | the mapped page is the plain page projected row by row, with the same count, pages, number and size |
| Repository.WindowOfMap | Aspire.ProjectTemplate.Infrastructure/Persistence/EFRepository.cs:265-268 | taking the window commutes with projecting the rows |
| Repository.SelectedPageProjectsPlainPage | Aspire.ProjectTemplate.Infrastructure/Persistence/EFRepository.cs:259-272 | the selected page is the plain page projected by the selector, with the same count |
| WeatherForecastSearch.SearchQueryParts | Aspire.ProjectTemplate.Core/Specifications/WeatherForecasts/WeatherForecastSearchSpecification.cs:18-36 | the query is the filter clauses and the sort clause; the first error wins |
| WeatherForecastSearch.SearchQuery | Aspire.ProjectTemplate.Core/Specifications/WeatherForecasts/WeatherForecastSearchSpecification.cs:18-36 | the query both search constructors leave: the filter clauses, then the sort clause; described by `SearchQueryParts` |
| WeatherForecastSearch.ApplyRequest | Aspire.ProjectTemplate.Core/Specifications/WeatherForecasts/WeatherForecastSearchSpecification.cs:20-35 | the constructor body leaves exactly the request's query on the specification, or throws its error |
| WeatherForecastSearch.NewSearchSpecification | Aspire.ProjectTemplate.Core/Specifications/WeatherForecasts/WeatherForecastSearchSpecification.cs:18-36 | a new specification with the request's page and size unclamped, the request's query and no selector, or the request's error |
| WeatherForecastSearch.NewSearchProjectionSpecification | Aspire.ProjectTemplate.Core/Specifications/WeatherForecasts/WeatherForecastSearchProjectionSpecification.cs:19-47 | the same, with the field-copy projection as selector |
| WeatherForecastSearch.SearchWithoutFilters | Aspire.ProjectTemplate.Core/Specifications/WeatherForecasts/WeatherForecastSearchSpecification.cs:20 | null or empty filters add no clause and every row is kept |
| WeatherForecastSearch.AndSearchIsConjunction | Aspire.ProjectTemplate.Core/Specifications/WeatherForecasts/WeatherForecastSearchSpecification.cs:22-25 | under `And` a row is kept exactly when every filter, compiled alone, holds |
| WeatherForecastSearch.DisjunctionOfFilters | Aspire.ProjectTemplate.Core/Specifications/PaginatedSpecification.cs:256-264 | the disjunction of compiled filters holds exactly when one filter holds |
| WeatherForecastSearch.OtherSearchIsDisjunction | Aspire.ProjectTemplate.Core/Specifications/WeatherForecasts/WeatherForecastSearchSpecification.cs:26-29 | under any other operator a row is kept exactly when some filter holds |
| WeatherForecastSearch.SortAppliedIffSortByGiven | Aspire.ProjectTemplate.Core/Specifications/WeatherForecasts/WeatherForecastSearchSpecification.cs:32-35 | an order key is set exactly when `SortBy` is neither null nor blank, descending exactly for `Desc` |
| WeatherForecastSearch.AliasIgnoresCase | Aspire.ProjectTemplate.Core/Specifications/WeatherForecasts/WeatherForecastSearchSpecification.cs:9-12 | `temp`, `Temp` and `TEMP` all map to `TemperatureC` |
| WeatherForecastSearch.SearchMappingsTargetsAreNotKeys | Aspire.ProjectTemplate.Core/Specifications/WeatherForecasts/WeatherForecastSearchSpecification.cs:9-12 | the alias's target is not itself an alias |
| WeatherForecastSearch.MapPropertyKeepsBlankness | Aspire.ProjectTemplate.Core/Specifications/WeatherForecasts/WeatherForecastSearchSpecification.cs:32-34 | a name is blank exactly when its mapped path is |
| WeatherForecastSearch.MapPropertyIdempotent | Aspire.ProjectTemplate.Core/Specifications/WeatherForecasts/WeatherForecastSearchSpecification.cs:9-12 | mapping a mapped name changes nothing more |
| WeatherForecastSearch.FilterClausesOfCanonical | Aspire.ProjectTemplate.Core/Specifications/WeatherForecasts/WeatherForecastSearchSpecification.cs:22-29 | filters with aliases replaced by their paths give the same clauses or error |
| WeatherForecastSearch.SortKeyForThroughAlias | Aspire.ProjectTemplate.Core/Specifications/WeatherForecasts/WeatherForecastSearchSpecification.cs:34 | sorting by an alias's target is sorting by the alias |
| WeatherForecastSearch.SortClauseOfCanonical | Aspire.ProjectTemplate.Core/Specifications/WeatherForecasts/WeatherForecastSearchSpecification.cs:32-35 | a sort name with its alias replaced gives the same clause or error |
| WeatherForecastSearch.AliasTransparent | Aspire.ProjectTemplate.Core/Specifications/WeatherForecasts/WeatherForecastSearchSpecification.cs:22-35 | a request using `temp` builds the same query, or error, as one using `TemperatureC` |
| SearchScenarios.WarmFilter | Aspire.ProjectTemplate.Core/Specifications/PaginatedSpecification.cs:113 | `temp > n` in any case compiles to `x.TemperatureC > n` |
| SearchScenarios.GreaterThanCompiles | Aspire.ProjectTemplate.Core/Specifications/WeatherForecasts/WeatherForecastSearchSpecification.cs:22-25 | a request with only `temp > n` under `And` builds one `Where` comparing `TemperatureC` |
| SearchScenarios.GreaterThanKeepsWarmDays | Aspire.ProjectTemplate.Core/Specifications/PaginatedSpecification.cs:113 | of two rows at or below `n` and two above, the two above are kept, in order |
| SearchScenarios.BetweenCompiles | Aspire.ProjectTemplate.Core/Specifications/PaginatedSpecification.cs:127-132 | `temp` between two numbers compiles to the two inclusive comparisons |
| SearchScenarios.BetweenIncludesBothEnds | Aspire.ProjectTemplate.Core/Specifications/PaginatedSpecification.cs:129-132 | of rows at `from - 1`, `from`, `to`, `to + 1`, exactly the middle two are kept |
| SearchScenarios.SameSummaryFilter | Aspire.ProjectTemplate.Core/Specifications/PaginatedSpecification.cs:103-108 | `summary == t` in any case compiles to a text equality on `Summary` |
| SearchScenarios.OrCompiles | Aspire.ProjectTemplate.Core/Specifications/WeatherForecasts/WeatherForecastSearchSpecification.cs:26-29 | `summary == t` or `temp > n` under `Or` builds one `Where` with the disjunction of the two comparisons |
| SearchScenarios.OrKeepsEitherMatch | Aspire.ProjectTemplate.Core/Specifications/PaginatedSpecification.cs:150-170 | that clause keeps a row exactly when its summary is `t` or its temperature exceeds `n` |
| SearchScenarios.SortKeyForTemp | Aspire.ProjectTemplate.Core/Specifications/PaginatedSpecification.cs:196-207 | sorting by `temp` descending is the descending key on `TemperatureC` |
| SearchScenarios.SortByAliasCompiles | Aspire.ProjectTemplate.Core/Specifications/WeatherForecasts/WeatherForecastSearchSpecification.cs:32-35 | a request sorting by `temp`, descending and without filters, builds only that order key |
| SearchScenarios.SortDescending | Aspire.ProjectTemplate.Core/Specifications/PaginatedSpecification.cs:205-208 | rows with rising temperatures come back in reverse order under the descending key |
| SearchScenarios.UnknownFieldIsRejected | Aspire.ProjectTemplate.Core/Specifications/PaginatedSpecification.cs:82-85 | a filter key naming no property fails while the access is built, with `ArgumentException` |
| SearchScenarios.SecondPageOfFive | Aspire.ProjectTemplate.Infrastructure/Persistence/EFRepository.cs:222-236 | page 2 of size 2 over five matching rows holds rows 3 and 4, of three pages, with a page before and after |

## Left out

- Coercion to `double`, `DateTime` and `bool`, and `Between` on `DateTime`
  (PaginatedSpecification.cs:100-102 and 133-136): no property of those types can be
  reached from `WeatherForecast`, and `double` is floating point.
- `int.Parse` / `long.Parse` are modelled for the invariant culture with the default
  integer style: optional white space, an optional sign and decimal digits. Culture-specific
  signs and thousands separators are not modelled.
- Case folding covers the ASCII letters only. `OrdinalIgnoreCase` also folds other
  letters; no property name uses one.
- `WeatherForecast.TemperatureF` is computed by floating-point division in the entity. Here
  it is an independent `int` column that can be read, filtered and sorted. The entity
  configuration does not map it, so the store cannot translate a filter or sort on it: such
  a query passes `IsEntityProperty` and `Expression.Property` and fails when it is run.
- String comparisons, `Contains`, `StartsWith` and `EndsWith` are ordinal. The database's
  collation, which may ignore case, is not modelled; a null column is modelled as the
  database answers it.
- The order among rows with equal sort keys is unspecified in the source. The model sorts
  stably, but no lemma depends on the order of ties.
- Repository.Skip / Repository.Take: SQL Server turns them into `OFFSET … ROWS FETCH
  NEXT … ROWS ONLY` and rejects a negative offset (a page number of 0 or less, or a product
  that wraps below zero) and a page size of 0. The model clamps these as LINQ-to-Objects
  does, so where the store throws, the model returns the first page or an empty one.
- EF Core, the Ardalis specification evaluator, `TagWith`, `AsNoTracking`, async execution
  and cancellation: the table is a sequence, and a query is evaluated by the functions in
  `QueryEvaluation`.
- AutoMapper's `ProjectTo` is a plain function passed in as the mapper.
- The other repository operations (non-paged `ListAsync` overloads, `AnyAsync`,
  `CountAsync`, `SingleOrDefaultAsync`, the command side and `SaveChangesAsync`) are
  outside the search engine.
- Repository.Find: the store's key lookup is a search for the first row with that `Id`.
  An identifier of the wrong type, which EF rejects, is not modelled.
- Specifications.PaginatedSpecification.ApplyOrFilters: the source's lazily enumerated
  `Select` compiles the filters while the fold runs. The model compiles them all before
  folding. The outcome is the same: the first error is thrown and no clause is added.
- Specifications.PaginatedSpecification.ApplySorting: a second call replaces the order key
  instead of chaining a second `OrderBy`. The two search constructors call it at most once.
- PagedLists.TotalPages follows the saturating floating-point to `int` conversion of
  .NET 9 for a page size of zero. Earlier runtimes give `int.MinValue` for an infinity.
- Strings are sequences of Unicode scalar values. `Length` counts those, where .NET
  counts UTF-16 code units, so a character outside the Basic Multilingual Plane counts
  once here and twice there; the store's `LEN`, which also ignores trailing blanks, is not
  modelled. Ordinal comparison likewise orders such characters by code point, not by
  UTF-16 code unit, so for example U+1F600 sorts after U+FF01 here and before it in .NET.
- Clr.IsWhiteSpace lists the white-space characters of `char.IsWhiteSpace` by code point.
  The Unicode character database behind it is not modelled.
