/** The predicates a search request compiles to (a small expression language standing
    for the LINQ expression trees `BuildFilterExpression` builds), their meaning on one
    entity, and the compilation of one `(field, Filter)` pair. */
module FilterExpressions {
  import opened Wrappers
  import opened Clr
  import opened Entities
  import opened Models
  import opened Exceptions
  import opened PropertyPaths

  // ---------------------------------------------------------------------------
  // Alias maps

  /** A `Dictionary<string, string>` built with `StringComparer.OrdinalIgnoreCase`: its keys
      are kept case-folded. */
  type PropertyMappings = m: map<string, string> | forall k :: k in m ==> Lower(k) == k

  /** `propertyMappings.TryGetValue(name, out path)`: the mapped path when `name` is a key
      (ignoring case), `name` itself otherwise. */
  function MapProperty(mappings: PropertyMappings, name: string): (r: string)
    ensures Lower(name) in mappings ==> r == mappings[Lower(name)]
    ensures Lower(name) !in mappings ==> r == name
    ensures r == name || r in mappings.Values
  {
    if Lower(name) in mappings then mappings[Lower(name)] else name
  }

  /** Names that differ only in case are mapped alike. */
  lemma MapPropertyIgnoresCase(mappings: PropertyMappings, a: string, b: string)
    requires EqualsIgnoreCase(a, b)
    ensures EqualsIgnoreCase(MapProperty(mappings, a), MapProperty(mappings, b))
  {
  }

  // ---------------------------------------------------------------------------
  // Expressions

  datatype Comparison = Equal | NotEqual | GreaterThan | GreaterThanOrEqual | LessThan | LessThanOrEqual

  datatype StringMethod = ContainsMethod | StartsWithMethod | EndsWithMethod

  /** A predicate on `x`, a `WeatherForecast`. `Compare` and `Call` apply to the member-access
      chain `path` read from `x`; `OrElse` of an invoked lambda is the lambda's body, since
      it is invoked on the same parameter. */
  datatype Expr =
    | Constant(b: bool)
    | Compare(path: seq<Member>, comparison: Comparison, operand: Value)
    | Call(path: seq<Member>, name: StringMethod, argument: Value)
    | AndAlso(left: Expr, right: Expr)
    | OrElse(left: Expr, right: Expr)

  /** Comparison of a read value with a constant. Values of different kinds are unequal; a
      null read is unequal to every constant and not ordered against any. */
  predicate Compares(c: Comparison, v: Value, w: Value)
  {
    match c
    case Equal => v != Null && v == w
    case NotEqual => !(v != Null && v == w)
    case GreaterThan => v.Number? && w.Number? && v.n > w.n
    case GreaterThanOrEqual => v.Number? && w.Number? && v.n >= w.n
    case LessThan => v.Number? && w.Number? && v.n < w.n
    case LessThanOrEqual => v.Number? && w.Number? && v.n <= w.n
  }

  predicate IsPrefix(p: string, s: string) { |p| <= |s| && s[..|p|] == p }

  predicate IsSuffix(p: string, s: string) { |p| <= |s| && s[|s| - |p|..] == p }

  predicate IsInfix(p: string, s: string)
  {
    exists i :: 0 <= i <= |s| && IsPrefix(p, s[i..])
  }

  /** `string.Contains`, `StartsWith`, `EndsWith` with an ordinal comparison; on a null
      string the database answers false. */
  predicate Invokes(m: StringMethod, v: Value, argument: Value)
  {
    v.Text? && argument.Text? &&
    match m
    case ContainsMethod => IsInfix(argument.s, v.s)
    case StartsWithMethod => IsPrefix(argument.s, v.s)
    case EndsWithMethod => IsSuffix(argument.s, v.s)
  }

  /** The value of a predicate on one entity. */
  predicate Eval(e: Expr, x: WeatherForecast)
  {
    match e
    case Constant(b) => b
    case Compare(path, c, operand) => Compares(c, Read(x, path), operand)
    case Call(path, m, argument) => Invokes(m, Read(x, path), argument)
    case AndAlso(l, r) => Eval(l, x) && Eval(r, x)
    case OrElse(l, r) => Eval(l, x) || Eval(r, x)
  }

  // ---------------------------------------------------------------------------
  // What a filter means

  /** The filter operators' meaning, stated on the property's value `v` and the coerced
      literal `c`, independently of how they are compiled. */
  predicate Matches(op: FilterOperator, v: Value, c: Value)
  {
    match op
    case Eq => v != Null && v == c
    case Ne => v != c
    case Gt => v.Number? && c.Number? && v.n > c.n
    case Gte => v.Number? && c.Number? && v.n >= c.n
    case Lt => v.Number? && c.Number? && v.n < c.n
    case Lte => v.Number? && c.Number? && v.n <= c.n
    case Contains => v.Text? && c.Text? && IsInfix(c.s, v.s)
    case StartsWith => v.Text? && c.Text? && IsPrefix(c.s, v.s)
    case EndsWith => v.Text? && c.Text? && IsSuffix(c.s, v.s)
    case Between => false
    case Undefined(_) => false
  }

  // ---------------------------------------------------------------------------
  // Compiling one filter

  /** The constant a literal becomes for a property of type `t`: `int.Parse` for `int`,
      `long.Parse` for `long`, the string itself for every other reachable type. */
  function Coerce(t: ClrType, text: string): (r: Result<Value, Error>)
    ensures r.Success? && t == Int32Type ==> r.value.Number? && MinInt32 <= r.value.n <= MaxInt32
    ensures r.Success? && t == Int64Type ==> r.value.Number? && MinInt64 <= r.value.n <= MaxInt64
    ensures t != Int32Type && t != Int64Type ==> r == Success(Text(text))
    ensures r.Failure? ==> r.error.InvalidLiteral? && r.error.text == text
  {
    if t == Int32Type || t == Int64Type then
      var parsed := if t == Int32Type then ParseInt32(text) else ParseInt64(text);
      if parsed.Success? then Success(Number(parsed.value))
      else Failure(InvalidLiteral(text, parsed.error))
    else Success(Text(text))
  }

  /** Every `int` is read back from its decimal rendering. */
  lemma CoerceFormatted(n: int)
    requires MinInt32 <= n <= MaxInt32
    ensures Coerce(Int32Type, FormatInteger(n)) == Success(Number(n))
  {
    ParseFormatRoundTrip(n, MinInt32, MaxInt32);
  }

  /** The types with the comparison operators `<`, `<=`, `>`, `>=`. */
  predicate IsOrdered(t: ClrType) { t == Int32Type || t == Int64Type }

  /** The types whose equality operator accepts the coerced constant. */
  predicate HasEquality(t: ClrType) { IsOrdered(t) || t == StringType }

  /** The operator switch: the expression for `op` on the chain `path` of type `t`, an
      "operator not defined" error when the type lacks it, and "not supported" for an
      operator outside the switch. */
  function Body(op: FilterOperator, path: seq<Member>, t: ClrType, constant: Value): Result<Expr, Error>
  {
    match op
    case Eq => if HasEquality(t) then Success(Compare(path, Equal, constant)) else Failure(OperatorNotDefinedForType(op, t))
    case Ne => if HasEquality(t) then Success(Compare(path, NotEqual, constant)) else Failure(OperatorNotDefinedForType(op, t))
    case Contains => if t == StringType then Success(Call(path, ContainsMethod, constant)) else Failure(OperatorNotDefinedForType(op, t))
    case StartsWith => if t == StringType then Success(Call(path, StartsWithMethod, constant)) else Failure(OperatorNotDefinedForType(op, t))
    case EndsWith => if t == StringType then Success(Call(path, EndsWithMethod, constant)) else Failure(OperatorNotDefinedForType(op, t))
    case Gt => if IsOrdered(t) then Success(Compare(path, GreaterThan, constant)) else Failure(OperatorNotDefinedForType(op, t))
    case Gte => if IsOrdered(t) then Success(Compare(path, GreaterThanOrEqual, constant)) else Failure(OperatorNotDefinedForType(op, t))
    case Lt => if IsOrdered(t) then Success(Compare(path, LessThan, constant)) else Failure(OperatorNotDefinedForType(op, t))
    case Lte => if IsOrdered(t) then Success(Compare(path, LessThanOrEqual, constant)) else Failure(OperatorNotDefinedForType(op, t))
    case _ => Failure(FilterOperatorNotSupported(op))
  }

  /** The type of the last member of a non-empty chain. */
  function ChainType(chain: seq<Member>): ClrType
    requires |chain| >= 1
  {
    PropertyType(chain[|chain| - 1])
  }

  /** The path a filter key stands for: the alias substituted, then split on '.'. */
  function FilterSegments(filterBy: string, mappings: PropertyMappings): seq<string>
  {
    Split(MapProperty(mappings, filterBy), '.')
  }

  /** The member chain a filter key resolves to, when it resolves. */
  function ChainOf(filterBy: string, mappings: PropertyMappings): (r: Result<seq<Member>, Error>)
    ensures r.Success? ==> |r.value| >= 1
  {
    AccessChain(WeatherForecastType, FilterSegments(filterBy, mappings))
  }

  /** The predicate for `filter` on the resolved chain: the operands' presence is checked,
      then the literal coerced, then the operator dispatched. */
  function CompileOn(chain: seq<Member>, filter: Filter): Result<Expr, Error>
    requires |chain| >= 1
  {
    var t := ChainType(chain);
    if filter.operator != Between then
      if filter.value.None? then Failure(ValueRequired)
      else
        var constant :- Coerce(t, filter.value.value);
        Body(filter.operator, chain, t, constant)
    else if filter.valueFrom.None? || filter.valueTo.None? then Failure(RangeValuesRequired)
    else if t != Int32Type then Failure(FilterOperatorNotSupported(Between))
    else
      var from :- Coerce(t, filter.valueFrom.value);
      var to :- Coerce(t, filter.valueTo.value);
      Success(AndAlso(Compare(chain, GreaterThanOrEqual, from), Compare(chain, LessThanOrEqual, to)))
  }

  /** `BuildFilterExpression(filterBy, filter, propertyMappings)`. */
  function BuildFilter(filterBy: string, filter: Filter, mappings: PropertyMappings): Result<Expr, Error>
  {
    var chain :- ChainOf(filterBy, mappings);
    CompileOn(chain, filter)
  }

  /** A filter key that does not resolve fails with the path's error; one that resolves
      compiles on its chain. */
  lemma BuildFilterOnChain(filterBy: string, filter: Filter, mappings: PropertyMappings)
    ensures ChainOf(filterBy, mappings).Failure? ==>
              BuildFilter(filterBy, filter, mappings) == Failure(ChainOf(filterBy, mappings).error)
    ensures ChainOf(filterBy, mappings).Success? ==>
              BuildFilter(filterBy, filter, mappings) == CompileOn(ChainOf(filterBy, mappings).value, filter)
  {
  }

  /** The errors of compiling on a resolved chain, in the order the checks happen: the
      operands' presence, then the literal, then the operator. */
  lemma CompileOnErrors(chain: seq<Member>, filter: Filter)
    requires |chain| >= 1
    ensures filter.operator != Between && filter.value.None? ==>
              CompileOn(chain, filter) == Failure(ValueRequired)
    ensures filter.operator != Between && filter.value.Some? &&
            Coerce(ChainType(chain), filter.value.value).Failure? ==>
              CompileOn(chain, filter) == Failure(Coerce(ChainType(chain), filter.value.value).error)
    ensures filter.operator == Between && (filter.valueFrom.None? || filter.valueTo.None?) ==>
              CompileOn(chain, filter) == Failure(RangeValuesRequired)
    ensures filter.operator == Between && filter.valueFrom.Some? && filter.valueTo.Some? &&
            ChainType(chain) != Int32Type ==>
              CompileOn(chain, filter) == Failure(FilterOperatorNotSupported(Between))
    ensures filter.operator.Undefined? && filter.value.Some? &&
            Coerce(ChainType(chain), filter.value.value).Success? ==>
              CompileOn(chain, filter) == Failure(FilterOperatorNotSupported(filter.operator))
  {
  }

  /** Only an operator outside the switch is "not supported" (for `Between`: on a type
      other than `int`); text operators compile only on strings, ordering operators only on
      numbers, and equality on numbers and strings. */
  lemma CompileOnTypes(chain: seq<Member>, filter: Filter)
    requires |chain| >= 1
    ensures CompileOn(chain, filter).Failure? && CompileOn(chain, filter).error.FilterOperatorNotSupported? ==>
              filter.operator.Undefined? || (filter.operator == Between && ChainType(chain) != Int32Type)
    ensures filter.operator in {Contains, StartsWith, EndsWith} && CompileOn(chain, filter).Success? ==>
              ChainType(chain) == StringType
    ensures filter.operator in {Gt, Gte, Lt, Lte} && CompileOn(chain, filter).Success? ==>
              IsOrdered(ChainType(chain))
    ensures filter.operator in {Eq, Ne} && CompileOn(chain, filter).Success? ==>
              HasEquality(ChainType(chain))
  {
  }

  /** A compiled comparison filter keeps exactly the entities whose value on the chain
      matches the coerced literal under the operator's meaning. */
  lemma CompiledFilterMeaning(chain: seq<Member>, filter: Filter, x: WeatherForecast)
    requires |chain| >= 1 && filter.operator != Between
    requires CompileOn(chain, filter).Success?
    ensures filter.value.Some? && Coerce(ChainType(chain), filter.value.value).Success?
    ensures Eval(CompileOn(chain, filter).value, x) <==>
            Matches(filter.operator, Read(x, chain), Coerce(ChainType(chain), filter.value.value).value)
  {
  }

  /** A compiled `Between` keeps exactly the entities whose `int` value on the chain lies
      between the two literals, both ends included. */
  lemma BetweenIsInclusive(chain: seq<Member>, filter: Filter, x: WeatherForecast)
    requires |chain| >= 1 && filter.operator == Between
    requires CompileOn(chain, filter).Success?
    ensures ChainType(chain) == Int32Type && filter.valueFrom.Some? && filter.valueTo.Some?
    ensures ParseInt32(filter.valueFrom.value).Success? && ParseInt32(filter.valueTo.value).Success?
    ensures Eval(CompileOn(chain, filter).value, x) <==>
            Read(x, chain).Number? &&
            ParseInt32(filter.valueFrom.value).value <= Read(x, chain).n <= ParseInt32(filter.valueTo.value).value
  {
  }

  /** Aliases are transparent: a key and the path it maps to compile alike, provided no
      mapped path is itself a key. */
  lemma BuildFilterThroughAlias(filterBy: string, filter: Filter, mappings: PropertyMappings)
    requires forall k :: k in mappings ==> Lower(mappings[k]) !in mappings
    ensures BuildFilter(MapProperty(mappings, filterBy), filter, mappings) == BuildFilter(filterBy, filter, mappings)
  {
  }

  /** Keys that differ only in case compile to the same predicate. */
  lemma BuildFilterIgnoresCase(a: string, b: string, filter: Filter, mappings: PropertyMappings)
    requires EqualsIgnoreCase(a, b)
    requires BuildFilter(a, filter, mappings).Success?
    ensures BuildFilter(b, filter, mappings) == BuildFilter(a, filter, mappings)
  {
    var pa := MapProperty(mappings, a);
    var pb := MapProperty(mappings, b);
    MapPropertyIgnoresCase(mappings, a, b);
    SplitPathLower(pa);
    SplitPathLower(pb);
    AccessChainLower(WeatherForecastType, Split(pa, '.'));
    AccessChainLower(WeatherForecastType, Split(pb, '.'));
  }

  // ---------------------------------------------------------------------------
  // Combining filters

  /** `CombineFilterExpressionsWithOr`: a left fold of `OrElse` starting from `false`. */
  function OrChain(es: seq<Expr>): Expr
  {
    if es == [] then Constant(false) else OrElse(OrChain(es[..|es| - 1]), es[|es| - 1])
  }

  /** The disjunction holds exactly when one of the predicates does; with none it is false. */
  lemma {:induction false} OrChainMeaning(es: seq<Expr>, x: WeatherForecast)
    ensures Eval(OrChain(es), x) <==> exists i :: 0 <= i < |es| && Eval(es[i], x)
  {
    if es != [] {
      var init := es[..|es| - 1];
      OrChainMeaning(init, x);
      if Eval(OrChain(es), x) && !Eval(es[|es| - 1], x) {
        var i :| 0 <= i < |init| && Eval(init[i], x);
        assert es[i] == init[i];
      }
      if exists i :: 0 <= i < |es| && Eval(es[i], x) {
        var i :| 0 <= i < |es| && Eval(es[i], x);
        if i < |init| {
          assert init[i] == es[i];
        }
      }
    }
  }

  /** The filters of a request compiled in order until the first one that fails: the
      predicates built before it, and its error. */
  datatype Compiled = Compiled(exprs: seq<Expr>, failure: Option<Error>)

  function CompileEach<F>(items: seq<F>, compile: F -> Result<Expr, Error>): Compiled
  {
    if items == [] then Compiled([], None)
    else
      match compile(items[0])
      case Failure(e) => Compiled([], Some(e))
      case Success(head) =>
        var rest := CompileEach(items[1..], compile);
        Compiled([head] + rest.exprs, rest.failure)
  }

  /** Without an error every item is compiled, each to its own predicate; with one, the
      predicates are those of the items before the first that fails, and its error. */
  lemma {:induction false} CompileEachResult<F>(items: seq<F>, compile: F -> Result<Expr, Error>)
    ensures var c := CompileEach(items, compile);
            c.failure.None? ==>
              |c.exprs| == |items| && forall i :: 0 <= i < |items| ==> compile(items[i]) == Success(c.exprs[i])
    ensures var c := CompileEach(items, compile);
            c.failure.Some? ==>
              |c.exprs| < |items| &&
              (forall i :: 0 <= i < |c.exprs| ==> compile(items[i]) == Success(c.exprs[i])) &&
              compile(items[|c.exprs|]) == Failure(c.failure.value)
  {
    if items != [] {
      CompileEachResult(items[1..], compile);
      var c := CompileEach(items, compile);
      if compile(items[0]).Success? {
        var rest := CompileEach(items[1..], compile);
        assert c.exprs == [c.exprs[0]] + rest.exprs;
        forall i | 1 <= i < |c.exprs|
          ensures compile(items[i]) == Success(c.exprs[i])
        {
          assert items[1..][i - 1] == items[i];
        }
        if c.failure.Some? {
          assert items[1..][|rest.exprs|] == items[|c.exprs|];
        }
      }
    }
  }

  /** Compiling two sequences whose items compile pairwise alike gives the same result. */
  lemma {:induction false} CompileEachCongruent<F, G>(a: seq<F>, f: F -> Result<Expr, Error>, b: seq<G>, g: G -> Result<Expr, Error>)
    requires |a| == |b| && forall i :: 0 <= i < |a| ==> f(a[i]) == g(b[i])
    ensures CompileEach(a, f) == CompileEach(b, g)
  {
    if a != [] {
      assert f(a[0]) == g(b[0]);
      forall i | 0 <= i < |a[1..]|
        ensures f(a[1..][i]) == g(b[1..][i])
      {
        assert a[1..][i] == a[i + 1] && b[1..][i] == b[i + 1];
      }
      CompileEachCongruent(a[1..], f, b[1..], g);
    }
  }

  /** Conversely, items compiled one by one determine the result: all of them compiled gives
      their predicates and no error; a prefix compiled and the next failing gives the
      prefix's predicates and that error. */
  lemma {:induction false} CompileEachFromPrefix<F>(items: seq<F>, compile: F -> Result<Expr, Error>, done: seq<Expr>)
    requires |done| <= |items|
    requires forall j :: 0 <= j < |done| ==> compile(items[j]) == Success(done[j])
    ensures |done| == |items| ==> CompileEach(items, compile) == Compiled(done, None)
    ensures |done| < |items| && compile(items[|done|]).Failure? ==>
              CompileEach(items, compile) == Compiled(done, Some(compile(items[|done|]).error))
  {
    if done != [] {
      assert compile(items[0]) == Success(done[0]);
      forall j | 0 <= j < |done[1..]|
        ensures compile(items[1..][j]) == Success(done[1..][j])
      {
        assert items[1..][j] == items[j + 1] && done[1..][j] == done[j + 1];
      }
      CompileEachFromPrefix(items[1..], compile, done[1..]);
      assert done == [done[0]] + done[1..];
      if |done| < |items| {
        assert items[1..][|done[1..]|] == items[|done|];
      }
    }
  }

  /** `filters.Select(f => BuildFilterExpression(f.Key, f.Value, propertyMappings))`
      enumerated up to the first exception. */
  function BuildEach(filters: seq<(string, Filter)>, mappings: PropertyMappings): Compiled
  {
    CompileEach(filters, (f: (string, Filter)) => BuildFilter(f.0, f.1, mappings))
  }

  /** One more item compiled: its predicate extends the prefix, or its error ends the
      compilation of the whole sequence. */
  lemma CompileEachSnoc<F>(items: seq<F>, compile: F -> Result<Expr, Error>, i: nat, done: seq<Expr>, r: Result<Expr, Error>)
    requires i < |items| && CompileEach(items[..i], compile) == Compiled(done, None)
    requires r == compile(items[i])
    ensures r.Success? ==> CompileEach(items[..i + 1], compile) == Compiled(done + [r.value], None)
    ensures r.Failure? ==> CompileEach(items, compile) == Compiled(done, Some(r.error))
  {
    CompileEachResult(items[..i], compile);
    forall j | 0 <= j < i
      ensures compile(items[j]) == Success(done[j])
    {
      assert items[..i][j] == items[j];
    }
    if r.Success? {
      var next := done + [r.value];
      forall j | 0 <= j < |next|
        ensures compile(items[..i + 1][j]) == Success(next[j])
      {
        assert items[..i + 1][j] == items[j];
      }
      CompileEachFromPrefix(items[..i + 1], compile, next);
    } else {
      CompileEachFromPrefix(items, compile, done);
    }
  }

  /** `CompileEachSnoc` for the filters of a request. */
  lemma BuildEachSnoc(filters: seq<(string, Filter)>, mappings: PropertyMappings, i: nat, done: seq<Expr>, r: Result<Expr, Error>)
    requires i < |filters| && BuildEach(filters[..i], mappings) == Compiled(done, None)
    requires r == BuildFilter(filters[i].0, filters[i].1, mappings)
    ensures r.Success? ==> BuildEach(filters[..i + 1], mappings) == Compiled(done + [r.value], None)
    ensures r.Failure? ==> BuildEach(filters, mappings) == Compiled(done, Some(r.error))
  {
    CompileEachSnoc(filters, (f: (string, Filter)) => BuildFilter(f.0, f.1, mappings), i, done, r);
  }
}
