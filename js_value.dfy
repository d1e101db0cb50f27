/**
 * The dynamically typed values the JavaScript code receives: JSON payloads parsed by the
 * browser, and the messages passed between the extension's scripts. An object is the sequence
 * of its own properties in iteration order.
 */
module Js {
  import opened Wrappers
  import opened Text

  /** A JavaScript number: NaN, an infinity, or a finite value (kept exact, as a real). */
  datatype Number = NaN | Infinity(negative: bool) | Finite(r: real)

  datatype Value =
    | Undefined
    | Null
    | Bool(b: bool)
    | Num(n: Number)
    | Str(s: string)
    | Arr(items: seq<Value>)
    | Obj(fields: seq<Field>)

  datatype Field = Field(key: string, val: Value)

  /** ToBoolean: the values an `if` or `!` treats as true. */
  predicate Truthy(v: Value) {
    match v
    case Undefined => false
    case Null => false
    case Bool(b) => b
    case Num(n) => !(n.NaN? || (n.Finite? && n.r == 0.0))
    case Str(s) => s != ""
    case Arr(_) => true
    case Obj(_) => true
  }

  /** `typeof v === 'object'`. */
  predicate IsObjectType(v: Value) {
    v.Null? || v.Arr? || v.Obj?
  }

  /** The value of the first own property called `key`. */
  function Lookup(fields: seq<Field>, key: string): Value {
    if fields == [] then Undefined
    else if fields[0].key == key then fields[0].val
    else Lookup(fields[1..], key)
  }

  /** `v?.[key]` for the property names the core reads: only objects have them. */
  function Get(v: Value, key: string): Value {
    if v.Obj? then Lookup(v.fields, key) else Undefined
  }

  /** `x ?? null`. */
  function OrNull(v: Value): Value {
    if v.Undefined? then Null else v
  }

  /** `Object.values(v)` for an array or an object: elements, or property values in order. */
  function ObjectValues(v: Value): seq<Value>
    requires v.Arr? || v.Obj?
  {
    if v.Arr? then v.items else seq(|v.fields|, i requires 0 <= i < |v.fields| => v.fields[i].val)
  }

  /** No two own properties share a name, as in every object JSON.parse or a script builds. */
  predicate DistinctKeys(fields: seq<Field>) {
    forall i, j :: 0 <= i < j < |fields| ==> fields[i].key != fields[j].key
  }

  /** With distinct keys, reading a property gives the value stored with it. */
  lemma {:induction false} LookupOwn(fields: seq<Field>, i: int)
    requires DistinctKeys(fields) && 0 <= i < |fields|
    ensures Lookup(fields, fields[i].key) == fields[i].val
  {
    if i > 0 {
      assert fields[1..][i - 1] == fields[i];
      assert DistinctKeys(fields[1..]);
      LookupOwn(fields[1..], i - 1);
    }
  }

  /** `Object.values` lists what reading each own property in key order gives: value `i` of
    * an object is `obj[k]` for its `i`-th key `k`, and a value occurs exactly when some own
    * property reads it; an array gives its elements. */
  lemma ObjectValuesLookup(v: Value)
    requires v.Arr? || (v.Obj? && DistinctKeys(v.fields))
    ensures v.Arr? ==> ObjectValues(v) == v.items
    ensures v.Obj? ==> |ObjectValues(v)| == |v.fields|
    ensures v.Obj? ==> forall i :: 0 <= i < |v.fields| ==> ObjectValues(v)[i] == Get(v, v.fields[i].key)
    ensures v.Obj? ==>
      forall x :: x in ObjectValues(v) <==> exists i :: 0 <= i < |v.fields| && Get(v, v.fields[i].key) == x
  {
    if v.Obj? {
      forall i | 0 <= i < |v.fields|
        ensures ObjectValues(v)[i] == Get(v, v.fields[i].key)
      {
        LookupOwn(v.fields, i);
      }
    }
  }

  /**
   * `String(v)`, for values whose conversion involves no number. Number-to-string
   * conversion is not modelled; `None` stands for its result, which is made of digits, signs,
   * `.`, `e`, `NaN` or `Infinity` and so never spells a role name.
   */
  function JsToString(v: Value): Option<string>
    decreases v, 1
  {
    match v
    case Undefined => Some("undefined")
    case Null => Some("null")
    case Bool(b) => Some(if b then "true" else "false")
    case Num(_) => None
    case Str(s) => Some(s)
    case Arr(items) => JoinedItems(v, |items|)
    case Obj(_) => Some("[object Object]")
  }

  /** `Array.prototype.toString` on the first `n` elements: joined by `,`, with `undefined`
    * and `null` elements written as empty strings. */
  function JoinedItems(v: Value, n: nat): Option<string>
    requires v.Arr? && n <= |v.items|
    decreases v, 0, n
  {
    if n == 0 then Some("")
    else
      var item := v.items[n - 1];
      var last := if item.Undefined? || item.Null? then Some("") else JsToString(item);
      if n == 1 then last
      else
        match (JoinedItems(v, n - 1), last)
        case (Some(a), Some(b)) => Some(a + "," + b)
        case _ => None
  }

  /** The `capitalize` helper of both JavaScript renderers: `''` for a falsy value, otherwise
    * the string with its first character upper-cased. The source calls it only on strings and
    * on `undefined`; any other truthy value would make `charAt` throw. */
  function CapitalizeValue(v: Value): (r: string)
    requires v.Str? || !Truthy(v)
    ensures !Truthy(v) ==> r == ""
    ensures Truthy(v) ==> |r| == |v.s| && r[0] == UpperChar(v.s[0]) && r[1..] == v.s[1..]
  {
    if !Truthy(v) then "" else Capitalize(v.s)
  }
}
