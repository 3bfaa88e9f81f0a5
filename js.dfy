/** The slice of JavaScript value semantics that the feed format, the validator
    and the index writer rely on: values, truthiness, `typeof`, property reads,
    property writes, `Object.keys`, `===`, `x + 1` and `Array.isArray(x) ? x[0] : x`. */
module Js {

  datatype Option<T> = None | Some(value: T)

  /** A JavaScript value. An object is the list of its own enumerable
      properties in `Object.keys` order; a `Buffer` is its bytes. */
  datatype Value =
    | Undefined
    | Null
    | Bool(b: bool)
    | Num(n: real)
    | Str(s: string)
    | Arr(elems: seq<Value>)
    | Obj(fields: seq<Field>)
    | Buf(bytes: seq<bv8>)

  datatype Field = Field(name: string, value: Value)

  /** The exceptions the modelled code can raise. */
  datatype Exception =
    | TypeError                          // property access on null or undefined
    | SyntaxError                        // JSON.parse of malformed text
    | UnsupportedEncoding(encoding: Value)

  /** How a call ends: with a value or with a thrown exception. */
  datatype Completion<T> = Return(value: T) | Throw(exception: Exception)

  /** A JavaScript reference to a value (an array or object the caller holds
      and that the callee may read, mutate, or use as a map key). */
  class Ref {
    var value: Value

    constructor (v: Value)
      ensures value == v
    {
      value := v;
    }
  }

  predicate IsNullish(v: Value) {
    v.Undefined? || v.Null?
  }

  /** `!!v` */
  predicate Truthy(v: Value) {
    match v
    case Undefined => false
    case Null => false
    case Bool(b) => b
    case Num(n) => n != 0.0
    case Str(s) => s != ""
    case _ => true
  }

  /** `typeof v === 'object'` */
  predicate IsObjectType(v: Value) {
    v.Null? || v.Arr? || v.Obj? || v.Buf?
  }

  /** `Number.isInteger(v)` */
  predicate IsInteger(v: Value) {
    v.Num? && v.n.Floor as real == v.n
  }

  /** `a === b`. Two objects are never taken to be the same reference. */
  predicate StrictEquals(a: Value, b: Value) {
    a == b && (a.Undefined? || a.Null? || a.Bool? || a.Num? || a.Str?)
  }

  /** The value of the first field called `name`, or `undefined`. */
  function Lookup(fields: seq<Field>, name: string): (r: Value)
    ensures r != Undefined ==> exists i :: 0 <= i < |fields| && fields[i].name == name && fields[i].value == r
    ensures (forall i :: 0 <= i < |fields| ==> fields[i].name != name) ==> r == Undefined
  {
    if fields == [] then Undefined
    else if fields[0].name == name then fields[0].value
    else Lookup(fields[1..], name)
  }

  /** `v[name]` for a value that is not null or undefined. The property names
      the modelled code reads are not properties of strings, arrays or
      buffers, so those yield `undefined`. */
  function Prop(v: Value, name: string): Value {
    if v.Obj? then Lookup(v.fields, name) else Undefined
  }

  /** The fields after `o[name] = x`: an existing field keeps its place,
      a new one is appended. */
  function SetField(fields: seq<Field>, name: string, x: Value): (r: seq<Field>)
    ensures Lookup(r, name) == x
    ensures forall other :: other != name ==> Lookup(r, other) == Lookup(fields, other)
  {
    if fields == [] then [Field(name, x)]
    else if fields[0].name == name then [Field(name, x)] + fields[1..]
    else [fields[0]] + SetField(fields[1..], name, x)
  }

  /** `v[name] = x` in sloppy mode: assignment to a primitive is ignored. */
  function SetProp(v: Value, name: string, x: Value): Value {
    if v.Obj? then Obj(SetField(v.fields, name, x)) else v
  }

  function Names(fields: seq<Field>): (r: seq<string>)
    ensures |r| == |fields|
    ensures forall i :: 0 <= i < |fields| ==> r[i] == fields[i].name
  {
    seq(|fields|, i requires 0 <= i < |fields| => fields[i].name)
  }

  /** Writing a property of an object that already has it keeps `Object.keys`. */
  lemma SetFieldKeepsNames(fields: seq<Field>, name: string, x: Value)
    requires exists i :: 0 <= i < |fields| && fields[i].name == name
    ensures Names(SetField(fields, name, x)) == Names(fields)
  {
    SetFieldKeepsLayout(fields, name, x);
  }

  /** Writing an existing property changes no field's name or place. */
  lemma {:induction false} SetFieldKeepsLayout(fields: seq<Field>, name: string, x: Value)
    requires exists i :: 0 <= i < |fields| && fields[i].name == name
    ensures |SetField(fields, name, x)| == |fields|
    ensures forall j :: 0 <= j < |fields| ==> SetField(fields, name, x)[j].name == fields[j].name
  {
    if fields[0].name != name {
      var i :| 0 <= i < |fields| && fields[i].name == name;
      assert fields[1..][i - 1].name == name;
      SetFieldKeepsLayout(fields[1..], name, x);
      var r := SetField(fields, name, x);
      assert r == [fields[0]] + SetField(fields[1..], name, x);
      forall j | 0 < j < |fields| ensures r[j].name == fields[j].name {
        assert r[j] == SetField(fields[1..], name, x)[j - 1];
        assert fields[j] == fields[1..][j - 1];
      }
    }
  }


  function Digit(d: nat): char
    requires d < 10
  {
    "0123456789"[d]
  }

  /** The decimal numeral of `n`, as JavaScript writes an array index. */
  function Decimal(n: nat): string {
    if n < 10 then [Digit(n)] else Decimal(n / 10) + [Digit(n % 10)]
  }

  /** `Object.keys(v)` for a value that is not null or undefined. */
  function ObjectKeys(v: Value): seq<string> {
    match v
    case Obj(fields) => Names(fields)
    case Arr(elems) => seq(|elems|, i requires 0 <= i => Decimal(i))
    case Buf(bytes) => seq(|bytes|, i requires 0 <= i => Decimal(i))
    case Str(s) => seq(|s|, i requires 0 <= i => Decimal(i))
    case _ => []
  }

  /** `v + 1` when the result is a number; `None` when JavaScript yields NaN
      or concatenates a string. */
  function PlusOne(v: Value): Option<real> {
    match v
    case Num(n) => Some(n + 1.0)
    case Null => Some(1.0)
    case Bool(b) => Some(if b then 2.0 else 1.0)
    case _ => None
  }

  /** `Array.isArray(v) ? v[0] : v` */
  function Unwrap(v: Value): Value {
    if v.Arr? then (if |v.elems| > 0 then v.elems[0] else Undefined) else v
  }

  /** `s.endsWith(suffix)` */
  predicate EndsWith(s: string, suffix: string) {
    |suffix| <= |s| && s[|s| - |suffix|..] == suffix
  }
}
