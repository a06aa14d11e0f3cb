/** The `WeatherForecast` entity, the response shape it is projected to, and the part of
    the .NET type system a dotted property path can reach from it: the public instance
    properties of `WeatherForecast`, `string` and `DateOnly`, looked up case-insensitively. */
module Entities {
  import opened Wrappers
  import opened Clr

  /** `System.DateOnly`, by its calendar fields. */
  datatype DateOnly = DateOnly(year: int, month: int, day: int)

  /** Days since 0001-01-01 in the proleptic Gregorian calendar (`DateOnly.DayNumber`). */
  function DayNumber(d: DateOnly): int
  {
    var y := if d.month <= 2 then d.year - 1 else d.year;
    var era := y / 400;
    var yearOfEra := y - era * 400;
    var shiftedMonth := if d.month > 2 then d.month - 3 else d.month + 9;
    var dayOfYear := (153 * shiftedMonth + 2) / 5 + d.day - 1;
    var dayOfEra := yearOfEra * 365 + yearOfEra / 4 - yearOfEra / 100 + dayOfYear;
    era * 146097 + dayOfEra - 306
  }

  /** `DateOnly.DayOfWeek` as the value of the `DayOfWeek` enumeration (Sunday = 0);
      0001-01-01 was a Monday. */
  function DayOfWeekNumber(d: DateOnly): int
  {
    (DayNumber(d) + 1) % 7
  }

  /** `DateOnly.DayOfYear`, 1-based. */
  function DayOfYearNumber(d: DateOnly): int
  {
    DayNumber(d) - DayNumber(DateOnly(d.year, 1, 1)) + 1
  }

  /** The stored entity. `temperatureF` is computed in the source from `temperatureC` by
      floating-point division; here it is an opaque `int` column. */
  datatype WeatherForecast = WeatherForecast(
    id: int,
    date: DateOnly,
    temperatureC: int,
    temperatureF: int,
    summary: Option<string>)

  /** The response model the projection specification selects into. */
  datatype WeatherForecastResponse = WeatherForecastResponse(
    id: int,
    date: DateOnly,
    temperatureC: int,
    summary: Option<string>)

  /** The field-copy projection `Query.Select(wf => new WeatherForecastResponse { ... })`. */
  function ToResponse(wf: WeatherForecast): (r: WeatherForecastResponse)
    ensures r.id == wf.id && r.date == wf.date
    ensures r.temperatureC == wf.temperatureC && r.summary == wf.summary
  {
    WeatherForecastResponse(wf.id, wf.date, wf.temperatureC, wf.summary)
  }

  // ---------------------------------------------------------------------------
  // The type universe reachable from WeatherForecast

  datatype ClrType =
    | WeatherForecastType
    | Int32Type
    | Int64Type
    | StringType
    | CharType
    | DateOnlyType
    | DayOfWeekType

  /** A public instance property of one of the types above. `Chars` is the indexer of
      `string`: reflection finds it by name, but it cannot be read without an index. */
  datatype Member =
    | Id | Date | TemperatureC | TemperatureF | Summary
    | Length | Chars
    | Year | Month | Day | DayOfWeek | DayOfYear | DayNumberMember

  function Name(m: Member): string
  {
    match m
    case Id => "Id"
    case Date => "Date"
    case TemperatureC => "TemperatureC"
    case TemperatureF => "TemperatureF"
    case Summary => "Summary"
    case Length => "Length"
    case Chars => "Chars"
    case Year => "Year"
    case Month => "Month"
    case Day => "Day"
    case DayOfWeek => "DayOfWeek"
    case DayOfYear => "DayOfYear"
    case DayNumberMember => "DayNumber"
  }

  function PropertyType(m: Member): ClrType
  {
    match m
    case Id => Int64Type
    case Date => DateOnlyType
    case TemperatureC => Int32Type
    case TemperatureF => Int32Type
    case Summary => StringType
    case Length => Int32Type
    case Chars => CharType
    case Year => Int32Type
    case Month => Int32Type
    case Day => Int32Type
    case DayOfWeek => DayOfWeekType
    case DayOfYear => Int32Type
    case DayNumberMember => Int32Type
  }

  predicate IsIndexer(m: Member)
  {
    m == Chars
  }

  /** The public instance properties of each type, in declaration order. */
  function Properties(t: ClrType): seq<Member>
  {
    match t
    case WeatherForecastType => [Id, Date, TemperatureC, TemperatureF, Summary]
    case StringType => [Chars, Length]
    case DateOnlyType => [Year, Month, Day, DayOfWeek, DayOfYear, DayNumberMember]
    case _ => []
  }

  /** The first property among `props` whose name equals `name` ignoring case. */
  function FindProperty(props: seq<Member>, name: string): Option<Member>
  {
    if props == [] then None
    else if EqualsIgnoreCase(Name(props[0]), name) then Some(props[0])
    else FindProperty(props[1..], name)
  }

  /** The property found is one of `props` with that name; none is found only when no
      property has it. */
  lemma {:induction false} FindPropertyResult(props: seq<Member>, name: string)
    ensures FindProperty(props, name).Some? ==>
              FindProperty(props, name).value in props && EqualsIgnoreCase(Name(FindProperty(props, name).value), name)
    ensures FindProperty(props, name).None? ==> forall m :: m in props ==> !EqualsIgnoreCase(Name(m), name)
  {
    if props != [] && !EqualsIgnoreCase(Name(props[0]), name) {
      FindPropertyResult(props[1..], name);
      assert forall m :: m in props ==> m == props[0] || m in props[1..];
    }
  }

  /** `t.GetProperty(name, BindingFlags.IgnoreCase | Public | Instance)`. */
  function GetProperty(t: ClrType, name: string): Option<Member>
  {
    FindProperty(Properties(t), name)
  }

  // ---------------------------------------------------------------------------
  // Reading a property path

  /** A runtime value: the entity, a number (`int`, `long`, or an enumeration), a
      string, a date, or null. */
  datatype Value =
    | Record(forecast: WeatherForecast)
    | Number(n: int)
    | Text(s: string)
    | Calendar(date: DateOnly)
    | Null

  /** Reads property `m` of `v`. A member of null is null: the query runs in the
      database, where a missing value propagates. A string's `Length` is its number of
      characters, each a Unicode scalar value. */
  function GetValue(v: Value, m: Member): Value
  {
    match v
    case Record(wf) =>
      (match m
       case Id => Number(wf.id)
       case Date => Calendar(wf.date)
       case TemperatureC => Number(wf.temperatureC)
       case TemperatureF => Number(wf.temperatureF)
       case Summary => if wf.summary.Some? then Text(wf.summary.value) else Null
       case _ => Null)
    case Text(s) => if m == Length then Number(|s|) else Null
    case Calendar(d) =>
      (match m
       case Year => Number(d.year)
       case Month => Number(d.month)
       case Day => Number(d.day)
       case DayOfWeek => Number(DayOfWeekNumber(d))
       case DayOfYear => Number(DayOfYearNumber(d))
       case DayNumberMember => Number(DayNumber(d))
       case _ => Null)
    case _ => Null
  }

  function ReadFrom(v: Value, path: seq<Member>): Value
    decreases |path|
  {
    if path == [] then v else ReadFrom(GetValue(v, path[0]), path[1..])
  }

  /** The value of the member-access chain `x.m1.m2...` on an entity. */
  function Read(wf: WeatherForecast, path: seq<Member>): Value
  {
    ReadFrom(Record(wf), path)
  }
}
