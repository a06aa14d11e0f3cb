/** The request-side values of the search endpoint, as bound from the query string. */
module Models {
  import opened Wrappers
  import opened Clr

  /** `FilterOperator`. Model binding accepts a number for an enumeration, so a value
      outside the named ones can arrive; it is kept as `Undefined(code)`. */
  datatype FilterOperator =
    | Eq | Ne | Contains | StartsWith | EndsWith | Gt | Gte | Lt | Lte | Between
    | Undefined(code: int)

  /** `Filter`: an operator and its operands, each of which may be missing (null). */
  datatype Filter = Filter(
    operator: FilterOperator,
    value: Option<string>,
    valueFrom: Option<string>,
    valueTo: Option<string>)

  datatype SortDirection = Asc | Desc | UndefinedDirection(code: int)

  datatype LogicalOperator = And | Or | UndefinedLogical(code: int)

  /** `PaginationRequest`. `filters` is the dictionary's entries in enumeration order;
      `None` is a null dictionary. */
  datatype PaginationRequest = PaginationRequest(
    page: Int32,
    size: Int32,
    filters: Option<seq<(string, Filter)>>,
    operator: LogicalOperator,
    sortBy: Option<string>,
    direction: SortDirection)
}

/** The exceptions the engine and the repository throw, one constructor per throw site. */
module Exceptions {
  import opened Clr
  import opened Entities
  import opened Models

  datatype Error =
    /** `Expression.Property` found no property of that name on the type. */
    | PropertyNotDefined(owner: ClrType, name: string)
    /** `Expression.Property` was given an indexer, which needs arguments. */
    | IndexerNeedsArguments(indexer: Member)
    /** A comparison operator without `Value`. */
    | ValueRequired
    /** `Between` without `ValueFrom` or `ValueTo`. */
    | RangeValuesRequired
    /** `int.Parse` / `long.Parse` rejected the literal. */
    | InvalidLiteral(text: string, reason: ParseError)
    /** The operator switch fell through to its default arm. */
    | FilterOperatorNotSupported(op: FilterOperator)
    /** `Expression.Equal`, `GreaterThan`, `Call`, ... found no operator or method for
        the property's type and the constant's type. */
    | OperatorNotDefinedForType(op: FilterOperator, propertyType: ClrType)
    /** The sort path does not resolve on the entity. */
    | OrderByNotSupported(path: string)
    /** A projecting overload was called on a repository without a mapper. */
    | MapperNotConfigured
    /** The specification evaluator was asked to project without a selector. */
    | SelectorNotFound
    /** The database's count does not fit in an `int`. */
    | CountOverflow
    /** `FindAsync` was given a null identifier. */
    | IdentifierNull

  datatype ExceptionType =
    | ArgumentException | ArgumentNullException | InvalidOperationException
    | NotSupportedException | FormatException | OverflowException
    | SelectorNotFoundException | SqlException

  /** The .NET exception class each error surfaces as. */
  function ExceptionOf(e: Error): ExceptionType
  {
    match e
    case PropertyNotDefined(_, _) => ArgumentException
    case IndexerNeedsArguments(_) => ArgumentException
    case ValueRequired => InvalidOperationException
    case RangeValuesRequired => InvalidOperationException
    case InvalidLiteral(_, reason) => if reason == Malformed then FormatException else OverflowException
    case FilterOperatorNotSupported(_) => NotSupportedException
    case OperatorNotDefinedForType(_, _) => InvalidOperationException
    case OrderByNotSupported(_) => NotSupportedException
    case MapperNotConfigured => InvalidOperationException
    case SelectorNotFound => SelectorNotFoundException
    case CountOverflow => SqlException
    case IdentifierNull => ArgumentNullException
  }
}
