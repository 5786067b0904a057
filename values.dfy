/** JavaScript values as seen by the verifiers, and the runtime type
    predicates of src/utils/verify.ts. */
module Values {
  import opened Wrappers

  /** An input value. An object is its own enumerable properties in
      `Object.keys` order; numbers are mathematical reals. */
  datatype Value =
    | Undefined
    | Null
    | Str(s: string)
    | Num(n: real)
    | Bool(b: bool)
    | Arr(elems: seq<Value>)
    | Obj(fields: seq<(string, Value)>)

  /** The result of JavaScript's `typeof`. */
  function TypeOf(x: Value): string {
    match x
    case Undefined => "undefined"
    case Null => "object"
    case Str(_) => "string"
    case Num(_) => "number"
    case Bool(_) => "boolean"
    case Arr(_) => "object"
    case Obj(_) => "object"
  }

  /** JavaScript truthiness. */
  predicate Truthy(x: Value) {
    match x
    case Undefined => false
    case Null => false
    case Str(s) => s != ""
    case Num(n) => n != 0.0
    case Bool(b) => b
    case Arr(_) => true
    case Obj(_) => true
  }

  predicate IsString(x: Value) { TypeOf(x) == "string" }
  predicate IsNumber(x: Value) { TypeOf(x) == "number" }
  predicate IsBoolean(x: Value) { TypeOf(x) == "boolean" }
  predicate IsArray(x: Value) { x.Arr? }

  /** `isObject`: not null, of type "object" and not an array; that is,
      exactly the plain objects. */
  predicate IsObject(x: Value)
    ensures IsObject(x) <==> x.Obj?
  {
    x != Null && TypeOf(x) == "object" && !IsArray(x)
  }

  /** `Object.keys` of an object's property list. */
  function Keys(fields: seq<(string, Value)>): (keys: seq<string>)
    ensures |keys| == |fields|
    ensures forall i :: 0 <= i < |fields| ==> keys[i] == fields[i].0
  {
    if fields == [] then [] else [fields[0].0] + Keys(fields[1..])
  }

  /** `key in obj` for an own property. */
  predicate Has(fields: seq<(string, Value)>, key: string) {
    key in Keys(fields)
  }

  /** `obj[key]`: the property's value, `undefined` when it is absent. */
  function Get(fields: seq<(string, Value)>, key: string): (v: Value)
    ensures !Has(fields, key) ==> v == Undefined
  {
    if fields == [] then Undefined
    else if fields[0].0 == key then fields[0].1
    else Get(fields[1..], key)
  }

  /** Looking a key up finds the first property with that key. */
  lemma {:induction false} GetFirst(fields: seq<(string, Value)>, i: nat)
    requires i < |fields|
    requires forall j :: 0 <= j < i ==> fields[j].0 != fields[i].0
    ensures Has(fields, fields[i].0) && Get(fields, fields[i].0) == fields[i].1
  {
    assert Keys(fields)[i] == fields[i].0;
    if i > 0 {
      assert fields[1..][i - 1] == fields[i];
      forall j | 0 <= j < i - 1 ensures fields[1..][j].0 != fields[1..][i - 1].0 {
        assert fields[1..][j] == fields[j + 1];
      }
      GetFirst(fields[1..], i - 1);
    }
  }

  /** `arr[i]`: the element, `undefined` past the end. */
  function At(elems: seq<Value>, i: nat): Value {
    if i < |elems| then elems[i] else Undefined
  }

  /** `Number.isInteger` on a finite number. */
  predicate IsInteger(x: real) {
    x.Floor as real == x
  }

  const MaxSafeInteger: real := 9007199254740991.0

  /** `Number.isSafeInteger`. */
  predicate IsSafeInteger(x: real) {
    IsInteger(x) && -MaxSafeInteger <= x <= MaxSafeInteger
  }

  /** `x % d === 0` for a non-zero divisor: the quotient is whole. */
  predicate Divides(d: real, x: real)
    requires d != 0.0
  {
    IsInteger(x / d)
  }

  /** `Array.prototype.filter`: the elements that pass, in their order. */
  function Filter<T>(s: seq<T>, p: T -> bool): (r: seq<T>)
    ensures |r| <= |s|
    ensures forall i :: 0 <= i < |r| ==> r[i] in s && p(r[i])
    ensures forall i :: 0 <= i < |s| && p(s[i]) ==> s[i] in r
  {
    if s == [] then []
    else
      var rest := Filter(s[1..], p);
      assert forall i :: 1 <= i < |s| ==> s[i] == s[1..][i - 1];
      if p(s[0]) then [s[0]] + rest else rest
  }

  /** Filtering a concatenation filters each part, keeping their order. */
  lemma {:induction false} FilterAppend<T>(a: seq<T>, b: seq<T>, p: T -> bool)
    ensures Filter(a + b, p) == Filter(a, p) + Filter(b, p)
  {
    if a == [] {
      assert a + b == b;
    } else {
      var ab := a + b;
      assert ab[0] == a[0] && ab[1..] == a[1..] + b;
      var head := if p(a[0]) then [a[0]] else [];
      assert Filter(ab, p) == head + Filter(ab[1..], p);
      assert Filter(a, p) == head + Filter(a[1..], p);
      FilterAppend(a[1..], b, p);
      assert Filter(ab, p) == head + (Filter(a[1..], p) + Filter(b, p));
    }
  }
}
