/**
 * Scalar values, rows and engine errors.
 *
 * A cell value is a closed tagged variant; a row maps column names to values.
 * "Key absent" and "key present with Null" are different rows: the constraint
 * checker and the comparator tell them apart.
 */
module Values {

  datatype Option<+T> = None | Some(value: T)

  datatype Result<+T, +E> = Ok(value: T) | Err(error: E)

  /** A dynamically typed cell value. */
  datatype Value = Null | Int(i: int) | Str(s: string) | Bool(b: bool)

  /** A row: column name to value. */
  type Row = map<string, Value>

  /** The errors the engine raises, each carrying what it is about. */
  datatype EngineError =
    | TableNotFound(table: string)
    | TableAlreadyExists(table: string)
    | ColumnNotFound(table: string, column: string)
    | PrimaryKeyViolation(table: string, key: string, value: Value)
    | UniqueViolation(table: string, column: string, value: Value)
    | MissingRequiredColumn(table: string, column: string)

  /** Row.Get: the stored value and whether the column is a key of the row. */
  function Get(r: Row, column: string): (res: (Value, bool))
    ensures res.1 <==> column in r
    ensures res.1 ==> res.0 == r[column]
    ensures !res.1 ==> res.0 == Null
  {
    if column in r then (r[column], true) else (Null, false)
  }

  /** The value of a column with an absent key read as Null (`v, _ := row.Get(c)`). */
  function ValueOf(r: Row, column: string): Value
  {
    Get(r, column).0
  }

  /** Row.Set: afterwards Get(column) finds `v`; every other key is untouched. */
  function Set(r: Row, column: string, v: Value): (r': Row)
    ensures Get(r', column) == (v, true)
    ensures forall k :: k != column ==> Get(r', k) == Get(r, k)
  {
    r[column := v]
  }

  /** Row.Copy: a row with exactly the same keys and values. */
  function Copy(r: Row): (r': Row)
    ensures forall k :: Get(r', k) == Get(r, k)
    ensures r' == r
  {
    map k | k in r :: r[k]
  }
}
