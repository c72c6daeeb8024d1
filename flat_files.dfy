/**
 * Types shared by the FlatFiles components: failure-compatible wrappers, the
 * library's error conditions, record values, column definitions and schemas.
 */
module FlatFiles {

  datatype Option<+T> = None | Some(value: T)

  datatype Result<+R> = Success(value: R) | Failure(error: Error) {
    predicate IsFailure() { Failure? }
    function PropagateFailure<U>(): Result<U>
      requires Failure?
    {
      Failure(error)
    }
    function Extract(): R
      requires Success?
    {
      value
    }
  }

  /** An operation that either completes or raises an error and returns no value. */
  datatype Outcome = Pass | Fail(error: Error) {
    predicate IsFailure() { Fail? }
    function PropagateFailure(): Outcome
      requires Fail?
    {
      this
    }
  }

  /** The exceptions raised by the modelled code, one constructor per condition. */
  datatype Error =
    | ArgumentNull(parameter: string)          // ArgumentNullException
    | DuplicateKey                              // Dictionary.Add on a key that is present
    | MissingMatcher                            // no schema matched the record
    | RecordProcessing                          // a record error nobody marked handled
    | BlankColumnName                           // a custom mapping without a column name
    | ReadOnlyProperty(column: string)          // the matched property has no setter
    | UnassignableMember                        // Expression.Assign on a read-only (initonly) field
    | BadPropertySelector                       // no property or field matched
    | MultipleMatches                           // SingleOrDefault saw more than one element
    | NoAutoMapPropertyType(column: string)     // the member type has no column type

  /** A value of a record (an element of `object?[]`); only the shapes used here. */
  datatype Value = Null | Text(s: string) | Number(n: int) | Flag(b: bool)

  /** The column classes the type mapper can create, plus the ignored column. */
  datatype ColumnKind =
    | BooleanColumn | ByteArrayColumn | ByteColumn | CharArrayColumn | CharColumn
    | DateTimeColumn | DateTimeOffsetColumn | DecimalColumn | DoubleColumn | GuidColumn
    | Int16Column | Int32Column | Int64Column | SByteColumn | SingleColumn | StringColumn
    | TimeSpanColumn | UInt16Column | UInt32Column | UInt64Column
    | IgnoredColumn
    | UserColumn(typeName: string)   // any other IColumnDefinition a caller supplies

  datatype ColumnDefinition = ColumnDefinition(columnName: string, kind: ColumnKind)

  /** A delimited schema is its list of column definitions, in order. */
  datatype DelimitedSchema = DelimitedSchema(columns: seq<ColumnDefinition>)

  /** The characters for which .NET's `char.IsWhiteSpace` holds. */
  predicate IsWhiteSpace(c: char)
  {
    || ('\U{0009}' <= c <= '\U{000D}') || c == '\U{0020}' || c == '\U{0085}' || c == '\U{00A0}'
    || c == '\U{1680}' || ('\U{2000}' <= c <= '\U{200A}') || c == '\U{2028}' || c == '\U{2029}'
    || c == '\U{202F}' || c == '\U{205F}' || c == '\U{3000}'
  }

  /** `String.IsNullOrWhiteSpace` for a non-null string: empty or only white space. */
  predicate IsBlank(s: string)
  {
    forall i :: 0 <= i < |s| ==> IsWhiteSpace(s[i])
  }
}
