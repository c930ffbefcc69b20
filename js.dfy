/** JavaScript values as a request body, a stored document or a response
    object holds them. */
module Js {

  /** A JSON value, plus `undefined`, which a property read yields for a
      missing key and which `JSON.stringify` drops. Numbers are exact reals. */
  datatype JsValue =
    | Undefined
    | Null
    | Bool(b: bool)
    | Num(n: real)
    | Str(s: string)
    | Arr(items: seq<JsValue>)
    | Obj(props: map<string, JsValue>)

  /** JavaScript's truthiness: `undefined`, `null`, `false`, `0` and `""` are falsy. */
  predicate Truthy(v: JsValue) {
    match v
    case Undefined => false
    case Null => false
    case Bool(b) => b
    case Num(n) => n != 0.0
    case Str(s) => s != ""
    case Arr(_) => true
    case Obj(_) => true
  }

  /** `v == null` in JavaScript: true for both `null` and `undefined`. */
  predicate IsNullish(v: JsValue) {
    v.Undefined? || v.Null?
  }

  /** `obj[key]`, which is `undefined` when the key is missing. */
  function Get(m: map<string, JsValue>, key: string): JsValue {
    if key in m then m[key] else Undefined
  }

  /** The object after `o[to] = o[from]; delete o[from]`: the value under
      `from` (or `undefined`) is now under `to`, and `from` is gone. */
  function Moved(m: map<string, JsValue>, from: string, to: string): (r: map<string, JsValue>)
    requires from != to
    ensures r.Keys == m.Keys - {from} + {to}
    ensures r[to] == Get(m, from)
    ensures forall k :: k in m && k != from && k != to ==> r[k] == m[k]
  {
    (m - {from})[to := Get(m, from)]
  }

  /** A plain object that a handler changes in place with property
      assignments and `delete`. */
  class JsObject {
    var props: map<string, JsValue>

    constructor (init: map<string, JsValue>)
      ensures props == init
    {
      props := init;
    }

    /** `o[key]` */
    function Read(key: string): JsValue
      reads this
    {
      Get(props, key)
    }

    /** `o[key] = v` */
    method Assign(key: string, v: JsValue)
      modifies this
      ensures props == old(props)[key := v]
    {
      props := props[key := v];
    }

    /** `delete o[key]` */
    method Delete(key: string)
      modifies this
      ensures props == old(props) - {key}
    {
      props := props - {key};
    }

    /** `o[to] = o[from]; delete o[from]` */
    method MoveKey(from: string, to: string)
      requires from != to
      modifies this
      ensures props == Moved(old(props), from, to)
    {
      Assign(to, Read(from));
      Delete(from);
    }
  }
}
