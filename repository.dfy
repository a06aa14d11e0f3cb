/** The read side of `EFRepository` that serves the search: the paged `ListAsync`
    overloads, the projecting `ListAsync` that needs a selector, and `FindAsync`'s guard.
    The table is a sequence of entities; the count and the page are two runs of the same
    specification against it. */
module Repository {
  import opened Wrappers
  import opened Clr
  import opened Entities
  import opened Exceptions
  import opened Specifications
  import opened QueryEvaluation
  import opened PagedLists

  // ---------------------------------------------------------------------------
  // The page window

  /** `(PageNumber - 1) * PageSize` in unchecked `int` arithmetic: both the subtraction
      and the product wrap around. */
  function SkipCount(pageNumber: Int32, pageSize: Int32): (r: Int32)
    ensures MinInt32 < pageNumber && MinInt32 <= (pageNumber - 1) * pageSize <= MaxInt32 ==>
              r == (pageNumber - 1) * pageSize
  {
    Wrap32(Wrap32(pageNumber - 1) * pageSize)
  }

  /** `Skip(n)`: nothing skipped for `n <= 0`. */
  function Skip<T>(s: seq<T>, n: int): (r: seq<T>)
    ensures n <= 0 ==> r == s
    ensures 0 <= n <= |s| ==> r == s[n..]
    ensures n >= |s| ==> r == []
  {
    if n <= 0 then s else if n >= |s| then [] else s[n..]
  }

  /** `Take(n)`: nothing taken for `n <= 0`. */
  function Take<T>(s: seq<T>, n: int): (r: seq<T>)
    ensures n <= 0 ==> r == []
    ensures 0 <= n <= |s| ==> r == s[..n]
    ensures n >= |s| ==> r == s
  {
    if n <= 0 then [] else if n >= |s| then s else s[..n]
  }

  /** `.Skip((PageNumber - 1) * PageSize).Take(PageSize)`. */
  function Window<T>(s: seq<T>, pageNumber: Int32, pageSize: Int32): (r: seq<T>)
    ensures |r| <= |s| && |r| <= if pageSize < 0 then 0 else pageSize
    ensures forall x :: x in r ==> x in s
  {
    Take(Skip(s, SkipCount(pageNumber, pageSize)), pageSize)
  }

  function Min(a: int, b: int): int { if a <= b then a else b }

  function Max(a: int, b: int): int { if a >= b then a else b }

  /** Without wrap-around, the page is the slice from `(p-1)*s` to `(p-1)*s + s`, cut at
      the end of the sequence, and has `max(0, min(s, N - (p-1)*s))` items, at most `s`. */
  lemma WindowSlice<T>(s: seq<T>, pageNumber: Int32, pageSize: Int32)
    requires pageNumber >= 1 && pageSize >= 1 && (pageNumber - 1) * pageSize <= MaxInt32
    ensures var start := (pageNumber - 1) * pageSize;
            Window(s, pageNumber, pageSize) == s[Min(start, |s|)..Min(start + pageSize, |s|)]
    ensures var start := (pageNumber - 1) * pageSize;
            |Window(s, pageNumber, pageSize)| == Max(0, Min(pageSize, |s| - start))
    ensures |Window(s, pageNumber, pageSize)| <= pageSize
  {
    var start := (pageNumber - 1) * pageSize;
    MulNonNegative(pageNumber - 1, pageSize);
    assert SkipCount(pageNumber, pageSize) == start;
    if start < |s| {
      var rest := s[start..];
      if pageSize < |rest| {
        assert rest[..pageSize] == s[start..start + pageSize];
      }
    }
  }

  lemma MulNonNegative(a: int, b: int)
    requires a >= 0 && b >= 0
    ensures a * b >= 0
  {
  }

  /** As written, page `2^30 + 1` of size 4 wraps its offset to 0 and returns the first
      page again. */
  lemma WrappedOffsetRepeatsFirstPage<T>(s: seq<T>)
    ensures SkipCount(0x4000_0001, 4) == 0
    ensures Window(s, 0x4000_0001, 4) == Window(s, 1, 4)
  {
    assert Wrap32(0x4000_0000 * 4) == 0 by {
      assert 0x4000_0000 * 4 - MinInt32 == 0x1_0000_0000 + 0x8000_0000;
    }
  }

  // ---------------------------------------------------------------------------
  // The paged ListAsync overloads

  /** `var totalCount = await countQuery.CountAsync()`: a count above `int.MaxValue` makes the
      store raise an arithmetic overflow. */
  function CountRows(spec: PaginatedSpecification, source: seq<WeatherForecast>): (r: Result<Int32, Error>)
    reads spec
    ensures r.Success? ==> r.value == |Where(source, spec.query)|
    ensures r.Failure? ==> r.error == CountOverflow && |Where(source, spec.query)| > MaxInt32
  {
    ApplySpecificationResult(spec.query, source);
    var n := |ApplySpecification(spec.query, source)|;
    if n > MaxInt32 then Failure(CountOverflow) else Success(n)
  }

  /** `ListAsync<T>(IPaginatedSpecification<T>)`: the count of the whole filtered
      sequence, and the window of the filtered, ordered sequence. */
  function ListPaged(spec: PaginatedSpecification, source: seq<WeatherForecast>): (r: Result<PagedList<WeatherForecast>, Error>)
    reads spec
    ensures r.Failure? ==> r.error == CountOverflow
    ensures r.Success? ==>
              r.value.totalCount == |Where(source, spec.query)| &&
              r.value.items == Window(ApplySpecification(spec.query, source), spec.pageNumber, spec.pageSize) &&
              r.value.pageNumber == spec.pageNumber && r.value.pageSize == spec.pageSize
  {
    var totalCount :- CountRows(spec, source);
    var items := Window(ApplySpecification(spec.query, source), spec.pageNumber, spec.pageSize);
    Success(NewPagedList(items, totalCount, spec.pageNumber, spec.pageSize))
  }

  function Map<T, R>(f: T -> R, s: seq<T>): (r: seq<R>)
    ensures |r| == |s| && forall i :: 0 <= i < |s| ==> r[i] == f(s[i])
  {
    seq(|s|, i requires 0 <= i < |s| => f(s[i]))
  }

  /** `ListAsync<T, TResult>(IPaginatedSpecification<T>)`: a missing mapper is an error
      before any query; the rows are projected after the window is taken. */
  function ListPagedMapped<R>(spec: PaginatedSpecification, source: seq<WeatherForecast>, mapper: Option<WeatherForecast -> R>)
    : (r: Result<PagedList<R>, Error>)
    reads spec
    ensures mapper.None? ==> r == Failure(MapperNotConfigured)
  {
    if mapper.None? then Failure(MapperNotConfigured)
    else
      var totalCount :- CountRows(spec, source);
      var rows := Window(ApplySpecification(spec.query, source), spec.pageNumber, spec.pageSize);
      Success(NewPagedList(Map(mapper.value, rows), totalCount, spec.pageNumber, spec.pageSize))
  }

  /** `ListAsync<T, TResult>(IPaginatedSpecification<T, TResult>)`: the evaluator projects
      with the specification's selector, and has none to project with when it is null. */
  function ListPagedSelected(spec: PaginatedSpecification, source: seq<WeatherForecast>)
    : (r: Result<PagedList<WeatherForecastResponse>, Error>)
    reads spec
    ensures spec.selector.None? ==> r == Failure(SelectorNotFound)
  {
    if spec.selector.None? then Failure(SelectorNotFound)
    else
      var totalCount :- CountRows(spec, source);
      var projected := Map(spec.selector.value, ApplySpecification(spec.query, source));
      Success(NewPagedList(Window(projected, spec.pageNumber, spec.pageSize), totalCount, spec.pageNumber, spec.pageSize))
  }

  /** `ListAsync<T, TResult>(ISpecification<T, TResult>)`: empty when the specification
      has no selector, otherwise every matching row projected. */
  function ListSelected(spec: PaginatedSpecification, source: seq<WeatherForecast>): (r: seq<WeatherForecastResponse>)
    reads spec
    ensures spec.selector.None? ==> r == []
    ensures spec.selector.Some? ==> |r| == |Where(source, spec.query)|
    ensures spec.selector.Some? ==> r == Map(spec.selector.value, ApplySpecification(spec.query, source))
  {
    ApplySpecificationResult(spec.query, source);
    if spec.selector.None? then []
    else Map(spec.selector.value, ApplySpecification(spec.query, source))
  }

  /** `FindAsync<T>(id)`: a null identifier is rejected; otherwise the row with that key, if
      any. */
  function Find(source: seq<WeatherForecast>, id: Option<int>): (r: Result<Option<WeatherForecast>, Error>)
    ensures id.None? ==> r == Failure(IdentifierNull)
    ensures id.Some? ==> r.Success?
    ensures r.Success? && r.value.Some? ==> r.value.value in source && r.value.value.id == id.value
    ensures r.Success? && r.value.None? ==> forall x :: x in source ==> x.id != id.value
    decreases |source|
  {
    if id.None? then Failure(IdentifierNull)
    else if source == [] then Success(None)
    else if source[0].id == id.value then Success(Some(source[0]))
    else Find(source[1..], id)
  }

  // ---------------------------------------------------------------------------
  // Properties across calls

  /** The total does not depend on the page asked for: two specifications with the same
      query report the same count, or fail alike. */
  lemma CountIndependentOfPage(a: PaginatedSpecification, b: PaginatedSpecification, source: seq<WeatherForecast>)
    requires a.query == b.query
    ensures ListPaged(a, source).Success? == ListPaged(b, source).Success?
    ensures ListPaged(a, source).Success? ==> ListPaged(a, source).value.totalCount == ListPaged(b, source).value.totalCount
  {
  }

  /** The mapper changes neither which rows come back nor how many: the mapped page is the
      plain page, projected. */
  lemma MappedPageProjectsPlainPage<R>(spec: PaginatedSpecification, source: seq<WeatherForecast>, mapper: WeatherForecast -> R)
    ensures ListPagedMapped(spec, source, Some(mapper)).Success? == ListPaged(spec, source).Success?
    ensures ListPaged(spec, source).Success? ==>
              var plain := ListPaged(spec, source).value;
              var mapped := ListPagedMapped(spec, source, Some(mapper)).value;
              mapped.items == Map(mapper, plain.items) &&
              mapped.totalCount == plain.totalCount && mapped.totalPages == plain.totalPages &&
              mapped.pageNumber == plain.pageNumber && mapped.pageSize == plain.pageSize
  {
  }

  lemma {:induction false} WindowOfMap<T, R>(f: T -> R, s: seq<T>, pageNumber: Int32, pageSize: Int32)
    ensures Window(Map(f, s), pageNumber, pageSize) == Map(f, Window(s, pageNumber, pageSize))
  {
    var n := SkipCount(pageNumber, pageSize);
    var skipped := Skip(s, n);
    assert Skip(Map(f, s), n) == Map(f, skipped);
    assert Take(Map(f, skipped), pageSize) == Map(f, Take(skipped, pageSize));
  }

  /** Projecting with the selector before the window, as the evaluator does, gives the
      same page as projecting the plain page. */
  lemma SelectedPageProjectsPlainPage(spec: PaginatedSpecification, source: seq<WeatherForecast>)
    requires spec.selector.Some?
    ensures ListPagedSelected(spec, source).Success? == ListPaged(spec, source).Success?
    ensures ListPaged(spec, source).Success? ==>
              ListPagedSelected(spec, source).value.items == Map(spec.selector.value, ListPaged(spec, source).value.items) &&
              ListPagedSelected(spec, source).value.totalCount == ListPaged(spec, source).value.totalCount
  {
    WindowOfMap(spec.selector.value, ApplySpecification(spec.query, source), spec.pageNumber, spec.pageSize);
  }
}
