/** Column values and rows, and how SQL and the engines compare them. */
module Values {
  import opened Strings

  /** Times are numbers here. */
  datatype Value = Null | Bool(truth: bool) | Num(number: int) | Str(text: string)

  type Row = map<string, Value>

  /** SQL equality: NULL equals nothing, on either side. */
  predicate SqlEquals(row: Row, column: string, v: Value) {
    v != Null && column in row && row[column] == v
  }

  /** fmt's %v. */
  function Sprint(v: Value): string {
    match v
    case Null => "<nil>"
    case Bool(b) => if b then "true" else "false"
    case Num(n) => if n < 0 then "-" + Itoa(-n) else Itoa(n)
    case Str(s) => s
  }

  /** A missing key of a Go map reads as nil. */
  function Get(row: Row, column: string): Value {
    if column in row then row[column] else Null
  }

  predicate IsZero(v: Value) {
    v == Null || v == Bool(false) || v == Num(0) || v == Str("")
  }
}
