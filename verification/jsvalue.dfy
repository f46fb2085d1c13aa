/**
 The dynamically typed values the view receives from `JSON.parse` and from
 the promise chain, with the three JavaScript notions it branches on:
 truthiness, `typeof v === 'object'`, and string conversion.
 */
module JsValues {
  import opened Text

  /** A JavaScript value as produced by `JSON.parse` (numbers restricted to integers), plus `undefined`. */
  datatype JsValue =
    | Undefined
    | Null
    | Bool(b: bool)
    | Num(n: int)
    | Str(s: string)
    | Arr(elems: seq<JsValue>)
    | Obj(fields: map<string, JsValue>)

  /** `!!v`: `undefined`, `null`, `false`, `0` and `""` are falsy, everything else truthy. */
  predicate Truthy(v: JsValue) {
    match v
    case Undefined => false
    case Null => false
    case Bool(b) => b
    case Num(n) => n != 0
    case Str(s) => s != ""
    case Arr(_) => true
    case Obj(_) => true
  }

  /** `typeof v === 'object'`, which holds for `null` and for arrays too. */
  predicate IsObject(v: JsValue) {
    v.Null? || v.Arr? || v.Obj?
  }

  /** Property access `v.name` for the data properties JSON can produce. */
  function Field(v: JsValue, name: string): (r: JsValue)
    ensures r != Undefined ==> v.Obj? && name in v.fields && r == v.fields[name]
  {
    if v.Obj? && name in v.fields then v.fields[name] else Undefined
  }

  function DigitChar(d: nat): char
    requires d < 10
  {
    "0123456789"[d]
  }

  /** Decimal digits of a natural number, most significant first. */
  function Decimal(n: nat): string
    decreases n
  {
    if n < 10 then [DigitChar(n)] else Decimal(n / 10) + [DigitChar(n % 10)]
  }

  /** `String(v)`: the conversion used by `toString()` and by string concatenation. */
  function ToString(v: JsValue): string
    decreases v, 1
  {
    match v
    case Undefined => "undefined"
    case Null => "null"
    case Bool(b) => if b then "true" else "false"
    case Num(n) => if n < 0 then "-" + Decimal(-n) else Decimal(n)
    case Str(s) => s
    case Arr(elems) => JoinElements(v, 0)
    case Obj(_) => "[object Object]"
  }

  /**
   `Array.prototype.join(",")` from index `i` on: `null` and `undefined`
   elements contribute the empty string.
   */
  function JoinElements(v: JsValue, i: nat): string
    requires v.Arr? && i <= |v.elems|
    decreases v, 0, |v.elems| - i
  {
    if i == |v.elems| then ""
    else
      var e := v.elems[i];
      var piece := if e.Undefined? || e.Null? then "" else ToString(e);
      if i + 1 == |v.elems| then piece else piece + "," + JoinElements(v, i + 1)
  }
}
