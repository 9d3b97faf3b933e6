/**
 * The run-time values a parser produces. The source's parsers return plain
 * JavaScript values: the matched strings, `null`, arrays of values and
 * whatever a `tree` builder constructs (AST objects, but any JavaScript value
 * is allowed by its type).
 */
module Values {

  datatype Value =
    | Null
    | Bool(b: bool)
    | Num(n: int)
    | Str(s: string)
    | Arr(items: seq<Value>)
    | Obj(kind: string, fields: seq<Value>)

  /** JavaScript truthiness: `null`, `false`, `0` and `""` are falsy; arrays and objects are always truthy. */
  predicate Truthy(v: Value) {
    match v
    case Null => false
    case Bool(b) => b
    case Num(n) => n != 0
    case Str(s) => s != ""
    case Arr(_) => true
    case Obj(_, _) => true
  }

  /**
   * The items a child contributes to an enclosing `and`: nothing when the child
   * carries the "space" tag, the elements of an array value (one level only),
   * and otherwise the value itself, `null` included.
   */
  function Items(v: Value, space: bool): seq<Value> {
    if space then []
    else match v
      case Arr(elems) => elems
      case _ => [v]
  }

  /** The argument a `tree` builder receives: the value itself if it is an array, else a one-element array. */
  function AsArray(v: Value): (a: Value)
    ensures a.Arr?
  {
    if v.Arr? then v else Arr([v])
  }
}
