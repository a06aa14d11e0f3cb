/** Dotted property paths on `WeatherForecast`: the reflection walk behind
    `IsEntityProperty`, the member-access chain the filter compiler builds with
    `Expression.Property`, and the order key `CreateOrderByExpression` builds. */
module PropertyPaths {
  import opened Wrappers
  import opened Clr
  import opened Entities
  import opened Exceptions

  /** The property the segments name, starting from type `t` and moving to each found
      property's type: not found as soon as one segment is missing. */
  function ResolveFrom(t: ClrType, segments: seq<string>): Option<Member>
    requires |segments| >= 1
    decreases |segments|
  {
    match GetProperty(t, segments[0])
    case None => None
    case Some(m) => if |segments| == 1 then Some(m) else ResolveFrom(PropertyType(m), segments[1..])
  }

  /** `GetPropertyExpression(path)`: the path split on '.' and resolved from the entity. */
  function Resolve(path: string): (r: Option<Member>)
    ensures '.' !in path ==> r == GetProperty(WeatherForecastType, path)
  {
    SplitWithoutSeparatorIfDotFree(path);
    ResolveFrom(WeatherForecastType, Split(path, '.'))
  }

  lemma SplitWithoutSeparatorIfDotFree(path: string)
    ensures '.' !in path ==> Split(path, '.') == [path]
  {
    if '.' !in path {
      SplitWithoutSeparator(path, '.');
    }
  }

  /** The member-access chain `x.s1.s2...` that `Expression.Property` builds one segment at
      a time. Each segment is looked up on the type reached so far; an indexer cannot be
      accessed without arguments. */
  function AccessChain(t: ClrType, segments: seq<string>): (r: Result<seq<Member>, Error>)
    ensures r.Success? ==> |r.value| == |segments|
    decreases |segments|
  {
    if segments == [] then Success([])
    else
      match GetProperty(t, segments[0])
      case None => Failure(PropertyNotDefined(t, segments[0]))
      case Some(m) =>
        if IsIndexer(m) then Failure(IndexerNeedsArguments(m))
        else
          var rest :- AccessChain(PropertyType(m), segments[1..]);
          Success([m] + rest)
  }

  /** A chain already built, followed by the chain of the remaining segments. */
  function Prepend(prefix: seq<Member>, rest: Result<seq<Member>, Error>): Result<seq<Member>, Error>
  {
    if rest.Success? then Success(prefix + rest.value) else rest
  }

  /** One step of the chain: the first segment's property, then the rest from its type. */
  lemma AccessChainStep(t: ClrType, segments: seq<string>, m: Member)
    requires segments != [] && GetProperty(t, segments[0]) == Some(m) && !IsIndexer(m)
    ensures AccessChain(t, segments) == Prepend([m], AccessChain(PropertyType(m), segments[1..]))
  {
  }

  lemma PrependTwice(a: seq<Member>, b: seq<Member>, rest: Result<seq<Member>, Error>)
    ensures Prepend(a, Prepend(b, rest)) == Prepend(a + b, rest)
  {
    if rest.Success? {
      assert a + (b + rest.value) == (a + b) + rest.value;
    }
  }

  /** A first segment that names no property: the walk finds nothing and the chain
      fails on that segment. */
  lemma NotFoundStep(t: ClrType, segments: seq<string>)
    requires |segments| >= 1 && GetProperty(t, segments[0]).None?
    ensures ResolveFrom(t, segments).None?
    ensures AccessChain(t, segments) == Failure(PropertyNotDefined(t, segments[0]))
  {
  }

  /** A first segment that names `m`: the walk continues from `m`'s type. */
  lemma ResolveFromStep(t: ClrType, segments: seq<string>, m: Member)
    requires |segments| >= 1 && GetProperty(t, segments[0]) == Some(m)
    ensures ResolveFrom(t, segments) == if |segments| == 1 then Some(m) else ResolveFrom(PropertyType(m), segments[1..])
  {
  }

  /** A first segment that names an indexer: the chain fails on it. */
  lemma IndexerStep(t: ClrType, segments: seq<string>, m: Member)
    requires |segments| >= 1 && GetProperty(t, segments[0]) == Some(m) && IsIndexer(m)
    ensures AccessChain(t, segments) == Failure(IndexerNeedsArguments(m))
  {
  }

  lemma LastOfCons<T>(x: T, rest: seq<T>)
    requires |rest| >= 1
    ensures ([x] + rest)[|rest|] == rest[|rest| - 1]
  {
  }

  /** The filter's access chain and the reflection walk agree: a chain that can be built
      ends at the property the path resolves to... */
  lemma {:induction false} AccessChainEndsAtResolved(t: ClrType, segments: seq<string>)
    requires |segments| >= 1
    ensures AccessChain(t, segments).Success? ==>
              ResolveFrom(t, segments) == Some(AccessChain(t, segments).value[|segments| - 1])
    decreases |segments|
  {
    var found := GetProperty(t, segments[0]);
    if found.None? {
      NotFoundStep(t, segments);
    } else if IsIndexer(found.value) {
      IndexerStep(t, segments, found.value);
    } else {
      var m := found.value;
      ResolveFromStep(t, segments, m);
      AccessChainStep(t, segments, m);
      var rest := AccessChain(PropertyType(m), segments[1..]);
      if |segments| == 1 {
        assert rest == Success([]);
        assert [m] + [] == [m] && [m][0] == m;
        assert AccessChain(t, segments) == Success([m]);
      } else if rest.Success? {
        AccessChainEndsAtResolved(PropertyType(m), segments[1..]);
        var tail := rest.value;
        assert AccessChain(t, segments) == Success([m] + tail);
        assert |tail| == |segments| - 1;
        LastOfCons(m, tail);
        assert ResolveFrom(PropertyType(m), segments[1..]) == Some(tail[|tail| - 1]);
        assert ResolveFrom(t, segments) == Some(tail[|tail| - 1]);
        assert AccessChain(t, segments).value[|segments| - 1] == tail[|tail| - 1];
      }
    }
  }

  /** ... a path that does not resolve fails with an error, and a path that resolves can
      only fail on an indexer. */
  lemma {:induction false} AccessChainFailsLikeResolve(t: ClrType, segments: seq<string>)
    requires |segments| >= 1
    ensures ResolveFrom(t, segments).None? ==> AccessChain(t, segments).Failure?
    ensures ResolveFrom(t, segments).Some? && AccessChain(t, segments).Failure? ==>
              AccessChain(t, segments).error.IndexerNeedsArguments?
    decreases |segments|
  {
    var found := GetProperty(t, segments[0]);
    if found.None? {
      NotFoundStep(t, segments);
    } else if IsIndexer(found.value) {
      IndexerStep(t, segments, found.value);
    } else {
      var m := found.value;
      ResolveFromStep(t, segments, m);
      AccessChainStep(t, segments, m);
      if |segments| == 1 {
        assert AccessChain(PropertyType(m), segments[1..]) == Success([]);
      } else {
        AccessChainFailsLikeResolve(PropertyType(m), segments[1..]);
      }
    }
  }

  // ---------------------------------------------------------------------------
  // Case-insensitivity

  lemma {:induction false} FindPropertyLower(props: seq<Member>, name: string)
    ensures FindProperty(props, Lower(name)) == FindProperty(props, name)
  {
    LowerIdempotent(name);
    if props != [] {
      FindPropertyLower(props[1..], name);
    }
  }

  lemma GetPropertyLower(t: ClrType, name: string)
    ensures GetProperty(t, Lower(name)) == GetProperty(t, name)
  {
    FindPropertyLower(Properties(t), name);
  }

  lemma {:induction false} ResolveFromLower(t: ClrType, segments: seq<string>)
    requires |segments| >= 1
    ensures ResolveFrom(t, LowerEach(segments)) == ResolveFrom(t, segments)
    decreases |segments|
  {
    var lowered := LowerEach(segments);
    GetPropertyLower(t, segments[0]);
    if |segments| > 1 {
      assert lowered[1..] == LowerEach(segments[1..]);
      match GetProperty(t, segments[0])
      case None =>
      case Some(m) => ResolveFromLower(PropertyType(m), segments[1..]);
    }
  }

  lemma {:induction false} AccessChainLower(t: ClrType, segments: seq<string>)
    ensures AccessChain(t, LowerEach(segments)).Success? == AccessChain(t, segments).Success?
    ensures AccessChain(t, segments).Success? ==>
              AccessChain(t, LowerEach(segments)).value == AccessChain(t, segments).value
    decreases |segments|
  {
    var lowered := LowerEach(segments);
    if segments != [] {
      GetPropertyLower(t, segments[0]);
      assert lowered[1..] == LowerEach(segments[1..]);
      match GetProperty(t, segments[0])
      case None =>
      case Some(m) => AccessChainLower(PropertyType(m), segments[1..]);
    }
  }

  /** '.' has no case, so splitting and case folding commute. */
  lemma SplitPathLower(path: string)
    ensures Split(Lower(path), '.') == LowerEach(Split(path, '.'))
  {
    SplitLower(path, '.');
  }

  /** Resolution ignores case in every segment. */
  lemma ResolveIgnoresCase(a: string, b: string)
    requires EqualsIgnoreCase(a, b)
    ensures Resolve(a) == Resolve(b)
  {
    SplitPathLower(a);
    SplitPathLower(b);
    ResolveFromLower(WeatherForecastType, Split(a, '.'));
    ResolveFromLower(WeatherForecastType, Split(b, '.'));
  }

  // ---------------------------------------------------------------------------
  // CreateOrderByExpression

  /** The key `CreateOrderByExpression` builds, as written: every segment is looked up on
      the entity type itself (not on the previous segment's type) and the last one wins.
      The entity type has no indexer. */
  function OrderByMember(segments: seq<string>): (r: Result<Member, Error>)
    requires |segments| >= 1
    ensures r.Success? ==> r.value in Properties(WeatherForecastType)
    ensures r.Failure? ==> r.error.PropertyNotDefined?
    decreases |segments|
  {
    match GetProperty(WeatherForecastType, segments[0])
    case None => Failure(PropertyNotDefined(WeatherForecastType, segments[0]))
    case Some(m) =>
      FindPropertyResult(Properties(WeatherForecastType), segments[0]);
      if |segments| == 1 then Success(m) else OrderByMember(segments[1..])
  }

  /** For a path of one segment the order key is the property the path resolves to. */
  lemma OrderByMemberOfSimplePath(path: string)
    requires |Split(path, '.')| == 1 && Resolve(path).Some?
    ensures OrderByMember(Split(path, '.')) == Success(Resolve(path).value)
  {
  }

  lemma RootAndNestedNamesDiffer(root: Member, nested: Member)
    requires root in Properties(WeatherForecastType)
    requires nested in Properties(StringType) + Properties(DateOnlyType)
    ensures Lower(Name(root)) != Lower(Name(nested))
  {
    if root == Date && nested == Year {
      assert Lower(Name(root))[0] == 'd';
    }
  }

  /** A nested path that resolves (so `IsEntityProperty` accepts it) never yields an order
      key: its second segment names a property of a nested type, which the entity type
      does not have. */
  lemma NestedOrderByPathFails(path: string)
    requires |Split(path, '.')| >= 2 && Resolve(path).Some?
    ensures OrderByMember(Split(path, '.')).Failure?
  {
    var segments := Split(path, '.');
    var first := GetProperty(WeatherForecastType, segments[0]).value;
    FindPropertyResult(Properties(WeatherForecastType), segments[0]);
    var second := GetProperty(PropertyType(first), segments[1]);
    assert second.Some? by {
      if second.None? {
        assert ResolveFrom(PropertyType(first), segments[1..]).None?;
      }
    }
    FindPropertyResult(Properties(PropertyType(first)), segments[1]);
    forall r | r in Properties(WeatherForecastType)
      ensures !EqualsIgnoreCase(Name(r), segments[1])
    {
      RootAndNestedNamesDiffer(r, second.value);
    }
    FindPropertyResult(Properties(WeatherForecastType), segments[1]);
    assert GetProperty(WeatherForecastType, segments[1]).None?;
    assert segments[1..][0] == segments[1];
  }
}
