/**
 * The flat JSON records the GARS OData service returns, as Python sees them
 * after `resp.json()`: a record is a dictionary from field names to values, and
 * what matters about a value is its kind, its scalar content and whether Python
 * treats it as true.
 */
module Json {
  import opened Wrappers

  /**
   * A JSON value of a record field. Nested arrays and objects are kept only
   * by their length, which is all the record-shaping code looks at.
   */
  datatype Value = Null | Bool(b: bool) | Num(n: real) | Str(s: string) | Arr(size: nat) | Obj(size: nat)

  /** One record: `Dict[str, Any]`. */
  type Row = map<string, Value>

  /** Python truthiness: `None`, `False`, zero, `""`, `[]` and `{}` are false. */
  predicate Truthy(v: Value) {
    match v
    case Null => false
    case Bool(b) => b
    case Num(n) => n != 0.0
    case Str(s) => s != ""
    case Arr(size) => size != 0
    case Obj(size) => size != 0
  }

  /** `row.get(name)`, with a missing field as `None`. */
  function Get(row: Row, name: string): Value {
    if name in row then row[name] else Null
  }

  /** `float(v)`: a string is converted by `parseFloat`; `None` where Python raises. */
  function PyFloat(v: Value, parseFloat: string -> Option<real>): (r: Option<real>)
    ensures v.Num? ==> r == Some(v.n)
    ensures v.Null? || v.Arr? || v.Obj? ==> r == None
  {
    match v
    case Num(n) => Some(n)
    case Bool(b) => Some(if b then 1.0 else 0.0)
    case Str(s) => parseFloat(s)
    case _ => None
  }

  /**
   * The text an f-string gives for `v`: a string as it is, any other value
   * through Python's `str()`, which `show` stands for.
   */
  function Format(v: Value, show: Value -> string): string {
    if v.Str? then v.s else show(v)
  }

  /**
   * A document of a register: its own fields and its `RecordSet`, where a
   * missing, `null` or empty `RecordSet` is the empty list (`doc.get("RecordSet") or []`).
   */
  datatype Doc = Doc(fields: Row, recordSet: seq<Row>)
}
