/** JavaScript values as the model layer receives them from the REST API, with the
    parts of the language's semantics the models use: truthiness (`if (v)`),
    property reads, strict (`===`) and loose (`==`) equality, and underscore's
    `_.contains`. */
module JsValue {
  import opened JsString

  /** A JavaScript value. Numbers are the integers or NaN; an object is the dictionary
      of its own properties; an array is the sequence of its elements. */
  datatype Value =
    | Undefined
    | Null
    | Bool(b: bool)
    | Num(n: int)
    | NaN
    | Str(s: string)
    | Obj(fields: map<string, Value>)
    | Arr(items: seq<Value>)

  /** A plain JavaScript object used as a dictionary: a raw API record. */
  type Dict = map<string, Value>

  /** `a` and `b` agree outside `keys`: the same other keys, with the same values. */
  predicate SameExcept(a: Dict, b: Dict, keys: set<string>) {
    a - keys == b - keys
  }

  /** Writing a key in `keys` leaves the dictionary the same outside `keys`. */
  lemma SameExceptAfterSet(d: Dict, k: string, v: Value, keys: set<string>)
    requires k in keys
    ensures SameExcept(d[k := v], d, keys)
  {
    assert d[k := v] - keys == d - keys;
  }

  /** Deleting a key in `keys` leaves the dictionary the same outside `keys`. */
  lemma SameExceptAfterDelete(d: Dict, k: string, keys: set<string>)
    requires k in keys
    ensures SameExcept(d - {k}, d, keys)
  {
    assert (d - {k}) - keys == d - keys;
  }

  /** A key outside `keys` is present, and has its value, in both or in neither. */
  lemma SameExceptKeeps(a: Dict, b: Dict, keys: set<string>, k: string)
    requires SameExcept(a, b, keys) && k !in keys
    ensures (k in a <==> k in b) && Get(a, k) == Get(b, k)
  {
    assert k in a <==> k in a - keys;
    assert k in b <==> k in b - keys;
    if k in a {
      assert (a - keys)[k] == a[k] && (b - keys)[k] == b[k];
    }
  }

  /** An exception raised by the JavaScript runtime. */
  datatype JsError = TypeError(message: string) | ReferenceError(name: string)

  /** How a statement sequence ended: normally, or by throwing. */
  datatype Outcome = Pass | Throw(error: JsError)

  /** The value of an expression whose evaluation may throw. */
  datatype Result<T> = Ok(value: T) | Err(error: JsError)

  /** ToBoolean, the test behind `if (v)` and `v && w`: exactly six values are falsy. */
  predicate Truthy(v: Value): (r: bool)
    ensures !r <==> v == Undefined || v == Null || v == NaN || v == Bool(false) || v == Num(0) || v == Str("")
  {
    match v
    case Undefined => false
    case Null => false
    case Bool(b) => b
    case Num(n) => n != 0
    case NaN => false
    case Str(s) => s != ""
    case Obj(_) => true
    case Arr(_) => true
  }

  /** `d.key` on a dictionary: a missing key reads as undefined. */
  function Get(d: Dict, key: string): Value {
    if key in d then d[key] else Undefined
  }

  /** `v.key` on a value that is neither null nor undefined. Only objects carry the
      properties the models read (`id`, `city`, `url`, `name`). */
  function Prop(v: Value, key: string): (r: Value)
    requires !v.Undefined? && !v.Null?
    ensures !v.Obj? ==> r == Undefined
  {
    if v.Obj? then Get(v.fields, key) else Undefined
  }

  /** `s * 1` for a string: a number, or NaN. The empty text gives 0. */
  function NumberValue(s: string): (r: Value)
    ensures r.Num? || r.NaN?
    ensures s == [] ==> r == Num(0)
    ensures s != [] && AllDigits(s, 10) ==> r == Num(DigitsValue(s, 10))
    ensures r.NaN? <==> ToNumber(s).None?
    ensures r.Num? ==> ToNumber(s) == Some(r.n)
    ensures s != [] && !IsJsSpace(s[0]) && !('0' <= s[0] <= '9') && s[0] != '+' && s[0] != '-' ==> r == NaN
  {
    match ToNumber(s)
    case Some(n) => Num(n)
    case None => NaN
  }

  /** `a === b`. NaN equals nothing; objects and arrays are compared by content,
      standing in for reference identity. */
  predicate StrictEquals(a: Value, b: Value): (r: bool)
    ensures r ==> a == b
    ensures a.NaN? || b.NaN? ==> !r
    ensures a == b && !a.NaN? ==> r
  {
    !a.NaN? && a == b
  }

  /** `a == b` (the abstract equality comparison): null and undefined equal each
      other only, a boolean compares as 0 or 1, a string and a number compare as
      numbers. */
  predicate LooseEquals(a: Value, b: Value): (r: bool)
    ensures StrictEquals(a, b) ==> r
    ensures a.NaN? || b.NaN? ==> !r
    ensures a.Undefined? || a.Null? ==> (r <==> b.Undefined? || b.Null?)
    ensures a.Str? && b.Str? ==> (r <==> a.s == b.s)
    ensures a.Num? && b.Num? ==> (r <==> a.n == b.n)
    ensures a.Num? && b.Str? ==> (r <==> ToNumber(b.s) == Some(a.n))
    ensures a.Str? && b.Num? ==> (r <==> ToNumber(a.s) == Some(b.n))
    ensures a.Bool? && b.Bool? ==> (r <==> a.b == b.b)
    ensures a.Bool? && b.Num? ==> (r <==> b.n == if a.b then 1 else 0)
    ensures a.Num? && b.Bool? ==> (r <==> a.n == if b.b then 1 else 0)
    ensures a.Bool? && b.Str? ==> (r <==> ToNumber(b.s) == Some(if a.b then 1 else 0))
    ensures a.Str? && b.Bool? ==> (r <==> ToNumber(a.s) == Some(if b.b then 1 else 0))
    ensures a.Obj? || a.Arr? ==> (r <==> a == b)
  {
    var x := if a.Bool? then Num(if a.b then 1 else 0) else a;
    var y := if b.Bool? then Num(if b.b then 1 else 0) else b;
    match (x, y)
    case (Num(m), Num(n)) => m == n
    case (Num(m), Str(t)) => ToNumber(t) == Some(m)
    case (Str(s), Num(n)) => ToNumber(s) == Some(n)
    case (Str(s), Str(t)) => s == t
    case (Obj(_), Obj(_)) => x == y
    case (Arr(_), Arr(_)) => x == y
    case _ => (x.Undefined? || x.Null?) && (y.Undefined? || y.Null?)
  }

  /** `==` is symmetric, and every strict equality is a loose one. */
  lemma LooseEqualsProperties(a: Value, b: Value)
    ensures LooseEquals(a, b) == LooseEquals(b, a)
    ensures StrictEquals(a, b) ==> LooseEquals(a, b)
    ensures a.NaN? ==> !LooseEquals(a, b)
  {
  }

  /** underscore's `_.contains(list, x)`: some element is `=== x`. A string is
      searched character by character, an object through its property values;
      null, undefined, numbers and booleans contain nothing. */
  predicate Contains(list: Value, x: Value): (r: bool)
    ensures x.NaN? ==> !r
    ensures list.Arr? ==> (r <==> !x.NaN? && x in list.items)
    ensures !list.Arr? && !list.Obj? && !list.Str? ==> !r
  {
    match list
    case Arr(items) => exists i :: 0 <= i < |items| && StrictEquals(items[i], x)
    case Obj(fields) => exists k :: k in fields && StrictEquals(fields[k], x)
    case Str(s) => exists i :: 0 <= i < |s| && StrictEquals(Str([s[i]]), x)
    case _ => false
  }
}
