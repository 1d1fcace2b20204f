/**
 * The JavaScript values that reach the services: request bodies and stored
 * documents are objects whose properties hold these values. Numbers are
 * modelled as integers.
 */
module Js {

  datatype JsValue =
    | Undefined
    | Null
    | Bool(b: bool)
    | Num(n: int)
    | Str(s: string)
    | Arr(items: seq<JsValue>)
    | Obj(props: map<string, JsValue>)

  /** A plain object: a request body, an update payload or a stored document. */
  type Object = map<string, JsValue>

  /** `o.key`: a property that is not there reads as undefined. */
  function Get(o: Object, key: string): (v: JsValue)
    ensures key in o ==> v == o[key]
    ensures key !in o ==> v == Undefined
  {
    if key in o then o[key] else Undefined
  }

  /** JavaScript truthiness: what `if (v)` and `!v` test. */
  predicate Truthy(v: JsValue)
  {
    match v
    case Undefined => false
    case Null => false
    case Bool(b) => b
    case Num(n) => n != 0
    case Str(s) => s != ""
    case _ => true
  }

  /** `a ?? b`: falls back to `b` only when `a` is null or undefined. */
  function Coalesce(a: JsValue, b: JsValue): (r: JsValue)
    ensures a.Undefined? || a.Null? ==> r == b
    ensures !a.Undefined? && !a.Null? ==> r == a
  {
    if a.Undefined? || a.Null? then b else a
  }
}
