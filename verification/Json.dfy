/** JSON values as the handlers see them, and the Python rules that look inside them. */
module Json {
  import opened Common

  datatype Json =
    | JNull
    | JBool(b: bool)
    | JInt(n: int)
    | JReal(r: real)
    | JStr(s: string)
    | JArr(items: seq<Json>)
    | JObj(fields: map<string, Json>)

  type Doc = map<string, Json>

  function Get(doc: Doc, key: string): Json {
    if key in doc then doc[key] else JNull
  }

  /** `bool(j)`. */
  predicate Truthy(j: Json) {
    match j
    case JNull => false
    case JBool(b) => b
    case JInt(n) => n != 0
    case JReal(r) => r != 0.0
    case JStr(s) => s != ""
    case JArr(items) => items != []
    case JObj(fields) => fields != map[]
  }

  /** `isinstance(j, int)`: a JSON boolean is one, worth 0 or 1. */
  function AsInt(j: Json): Option<int> {
    match j
    case JInt(n) => Some(n)
    case JBool(b) => Some(if b then 1 else 0)
    case _ => None
  }

  /** `isinstance(j, (int, float))`, and the value: a JSON boolean is 0 or 1 here too. */
  function NumberIn(j: Json): Option<real> {
    match j
    case JInt(n) => Some(n as real)
    case JReal(r) => Some(r)
    case JBool(true) => Some(1.0)
    case JBool(false) => Some(0.0)
    case _ => None
  }

  /** What is no integer is no number or a real one, and an integer is worth itself. */
  lemma {:induction false} AsIntIs(j: Json, n: int)
    ensures AsInt(j) == Some(n) <==> !j.JReal? && NumberIn(j) == Some(n as real)
  {
  }

  /** False are null, zero of either kind, and what is empty. */
  lemma {:induction false} FalsyIs(j: Json)
    ensures !Truthy(j) <==> NumberIn(j) == Some(0.0) || j in [JNull, JStr(""), JArr([]), JObj(map[])]
  {
  }

  /** Python's `==` on what was JSON: numbers by value, the rest by kind and parts. */
  ghost predicate SameValue(a: Json, b: Json)
    decreases a
  {
    if NumberIn(a).Some? || NumberIn(b).Some? then NumberIn(a) == NumberIn(b)
    else
      match (a, b)
      case (JArr(x), JArr(y)) => |x| == |y| && forall i :: 0 <= i < |x| ==> SameValue(x[i], y[i])
      case (JObj(x), JObj(y)) => x.Keys == y.Keys && forall k :: k in x ==> SameValue(x[k], y[k])
      case _ => a == b
  }
}
