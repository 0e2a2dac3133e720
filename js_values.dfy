/**
 The slice of the JavaScript value model that the validator observes: which
 runtime value a key holds, what `typeof` says about it, and how a missing key
 of a plain object reads.
 */
module JsValues {

  /** A JavaScript value, as far as `typeof` can tell values apart. Numbers carry
      an integer so that concrete inputs such as `25` and `-5` stay distinct.
      Objects (including arrays), functions and symbols carry nothing: the
      validator itself looks only at their `typeof` tag, and each field's
      callback sees the one value stored under its key, so collapsing them
      changes no outcome of the validator. */
  datatype Value =
    | Undefined
    | Null
    | Bool(b: bool)
    | Num(n: int)
    | BigInt(i: int)
    | Str(s: string)
    | Sym
    | Fn
    | Obj

  /** The string the JavaScript `typeof` operator yields. `null` reports
      "object", and only `undefined` reports "undefined". */
  function TypeOf(v: Value): (r: string)
    ensures r == "undefined" <==> v.Undefined?
    ensures r == "object" <==> v.Null? || v.Obj?
    ensures r in {"undefined", "object", "boolean", "number", "bigint", "string", "symbol", "function"}
  {
    match v
    case Undefined => "undefined"
    case Null => "object"
    case Bool(_) => "boolean"
    case Num(_) => "number"
    case BigInt(_) => "bigint"
    case Str(_) => "string"
    case Sym => "symbol"
    case Fn => "function"
    case Obj => "object"
  }

  /** Property access `object[key]` on a plain record: an absent key reads as
      `undefined`, never as `null`. */
  function Lookup(obj: map<string, Value>, key: string): (v: Value)
    ensures key !in obj ==> v.Undefined?
    ensures key in obj ==> v == obj[key]
  {
    if key in obj then obj[key] else Undefined
  }
}
