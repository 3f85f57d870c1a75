/** The Python values the collectors pass around: JSON scalars as `json.loads`
    returns them, lists, and the dictionaries built from them, with Python's
    truthiness and its `str()` rendering. */
module PyValue {
  import opened PyStr

  datatype Value =
    | VNone
    | VBool(b: bool)
    | VInt(i: int)
    | VStr(s: string)
    | VList(items: seq<Value>)

  /** A dictionary with string keys. */
  type Dict = map<string, Value>

  /** `d.get(k, default)`. */
  function Get(d: Dict, k: string, default: Value): (v: Value)
    ensures k in d ==> v == d[k]
    ensures k !in d ==> v == default
  {
    if k in d then d[k] else default
  }

  /** `bool(v)`. */
  predicate Truthy(v: Value) {
    match v
    case VNone => false
    case VBool(b) => b
    case VInt(i) => i != 0
    case VStr(s) => s != []
    case VList(items) => items != []
  }

  /** `str(v)`, as an f-string renders it. */
  function StrOf(v: Value): string {
    match v
    case VList(items) => "[" + ReprItems(items) + "]"
    case _ => ScalarStr(v)
  }

  /** `str` of a value that is not a list. */
  function ScalarStr(v: Value): string {
    match v
    case VNone => "None"
    case VBool(b) => if b then "True" else "False"
    case VInt(i) => IntToStr(i)
    case VStr(s) => s
    case VList(_) => []
  }

  /** The items of a list as `repr` writes them, separated by ", ". */
  function ReprItems(items: seq<Value>): string {
    if items == [] then []
    else if |items| == 1 then Repr(items[0])
    else Repr(items[0]) + ", " + ReprItems(items[1..])
  }

  /** `repr(v)`: strings in single quotes, everything else as `str`. */
  function Repr(v: Value): string {
    match v
    case VStr(s) => "'" + s + "'"
    case VList(items) => "[" + ReprItems(items) + "]"
    case _ => ScalarStr(v)
  }
}
