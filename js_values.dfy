/** JavaScript values as the state container sees them.

    A property holds a JSON-serialisable primitive (null, a boolean, an
    integer number or a string) or is undefined.  Strict equality `===` on
    these values is Dafny's `==`.  The text that `JSON.stringify` produces is
    represented by the primitive itself, so `JSON.parse` of stored text gives
    back exactly the primitive that was stored. */
module JsValues {

  datatype Option<+T> = None | Some(value: T)

  /** A JSON primitive. */
  datatype Prim = Null | Bool(b: bool) | Num(n: int) | Str(s: string)

  /** A property value: `undefined` or a JSON primitive. */
  datatype Value = Undefined | Defined(prim: Prim)

  /** JavaScript truthiness: `undefined`, `null`, `false`, `0` and `""` are falsy. */
  predicate Truthy(v: Value)
  {
    match v
    case Undefined => false
    case Defined(Null) => false
    case Defined(Bool(b)) => b
    case Defined(Num(n)) => n != 0
    case Defined(Str(s)) => s != ""
  }

  /** `JSON.stringify(v)`: no text at all (JavaScript `undefined`) for `undefined`. */
  function Stringify(v: Value): (r: Option<Prim>)
    ensures r.None? <==> v == Undefined
    ensures r.Some? ==> Parse(r.value) == v
  {
    match v
    case Undefined => None
    case Defined(p) => Some(p)
  }

  /** `JSON.parse(text)` of a well-formed primitive document. */
  function Parse(j: Prim): (v: Value)
    ensures v != Undefined
  {
    Defined(j)
  }

  /** Reading an own data property: `undefined` when it is absent. */
  function Lookup(props: map<string, Prim>, p: string): (v: Value)
    ensures v == Undefined <==> p !in props
    ensures p in props ==> v == Defined(props[p])
  {
    if p in props then Defined(props[p]) else Undefined
  }

  /** `Reflect.set` for a defined value, `Reflect.deleteProperty` for `undefined`:
      a property is either present with a defined value or absent. */
  function Assign(props: map<string, Prim>, p: string, v: Value): (r: map<string, Prim>)
    ensures Lookup(r, p) == v
    ensures r - {p} == props - {p}
  {
    match v
    case Undefined => props - {p}
    case Defined(x) => props[p := x]
  }
}
