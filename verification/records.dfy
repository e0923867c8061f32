/** The records the pivot engine reads: one parsed spreadsheet row each. */
module Records {
  import opened Wrappers
  import opened Strings

  /** A cell value of a parsed row. Numbers are integers in this model. */
  datatype Value = Num(n: int) | Str(s: string) | Bool(b: bool) | Null

  /** A record maps field names to values; a name it does not map is `undefined`. */
  type Record = map<string, Value>

  /** `item[f]`, with `None` for `undefined`. */
  function Get(item: Record, f: string): Option<Value>
  {
    if f in item then Some(item[f]) else None
  }

  /** JavaScript truthiness of a value that may be `undefined`. */
  predicate Truthy(v: Option<Value>)
  {
    match v
    case None => false
    case Some(Num(n)) => n != 0
    case Some(Str(s)) => s != ""
    case Some(Bool(b)) => b
    case Some(Null) => false
  }

  /** `String(v)`, the conversion `join` applies to each element. */
  function Display(v: Value): string
  {
    match v
    case Num(n) => IntToString(n)
    case Str(s) => s
    case Bool(b) => if b then "true" else "false"
    case Null => ""
  }
}
