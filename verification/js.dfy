/**
 * The slice of JavaScript value semantics the validators branch on:
 * truthiness (`!x`), `typeof`, `Number.isInteger`, strict equality,
 * string conversion (template literals, `String(x)`, property keys) and
 * reading a property that may throw.
 *
 * A value is what `JSON.parse` can produce, plus `undefined` for an absent
 * field. A number is either an integer or a non-integer; the latter keeps
 * only the text JavaScript prints for it, which is all any message needs.
 * An object lists its own properties in the order `for...in` visits them,
 * with distinct keys.
 */
module Js {
  import opened Text

  datatype Option<T> = None | Some(value: T)

  datatype Number = Int(i: int) | Fraction(text: string)

  datatype JsVal =
    | Undefined
    | Null
    | Bool(b: bool)
    | Num(n: Number)
    | Str(s: string)
    | Arr(items: seq<JsVal>)
    | Obj(props: seq<Prop>)

  datatype Prop = Prop(key: string, val: JsVal)

  /** The value is not falsy: `!!v`. A parsed number that is not an integer is never 0 or NaN. */
  predicate Truthy(v: JsVal)
    ensures Truthy(v) <==> v !in {Undefined, Null, Bool(false), Num(Int(0)), Str("")}
  {
    match v
    case Undefined => false
    case Null => false
    case Bool(b) => b
    case Num(n) => !(n.Int? && n.i == 0)
    case Str(s) => s != ""
    case Arr(_) => true
    case Obj(_) => true
  }

  /** `v === undefined || v === null`. */
  predicate IsNullish(v: JsVal) {
    v.Undefined? || v.Null?
  }

  /** `typeof v`. */
  function TypeOf(v: JsVal): (t: string)
    ensures t in {"undefined", "object", "boolean", "number", "string"}
    ensures t == "string" <==> v.Str?
  {
    match v
    case Undefined => "undefined"
    case Null => "object"
    case Bool(_) => "boolean"
    case Num(_) => "number"
    case Str(_) => "string"
    case Arr(_) => "object"
    case Obj(_) => "object"
  }

  /** `Number.isInteger(v)`. */
  predicate IsInteger(v: JsVal) {
    v.Num? && v.n.Int?
  }

  /**
   * `a === b`. Two arrays or objects of one parsed document are never the
   * same object, so they are never strictly equal here.
   */
  predicate StrictEq(a: JsVal, b: JsVal)
    ensures StrictEq(a, b) <==> a == b && !a.Arr? && !a.Obj?
  {
    match a
    case Arr(_) => false
    case Obj(_) => false
    case _ => a == b
  }

  /** `String(v)`, also the text a template literal interpolates and the key a property lookup uses. */
  function ToStr(v: JsVal): string
    decreases v
  {
    match v
    case Undefined => "undefined"
    case Null => "null"
    case Bool(b) => if b then "true" else "false"
    case Num(n) => if n.Int? then IntToDecimal(n.i) else n.text
    case Str(s) => s
    case Arr(items) =>
      // Array.prototype.join(","): null and undefined elements become ""
      Join(seq(|items|, k requires 0 <= k < |items| =>
        if IsNullish(items[k]) then "" else ToStr(items[k])), ",")
    case Obj(_) => "[object Object]"
  }

  /** `String` of a negative integer and of an array with a `null` element. */
  lemma StringConversionExamples()
    ensures ToStr(Num(Int(-12))) == "-12"
    ensures ToStr(Arr([Num(Int(1)), Null, Str("a")])) == "1,,a"
    ensures ToStr(Obj([])) == "[object Object]"
  {
    var items := [Num(Int(1)), Null, Str("a")];
    var parts := seq(|items|, k requires 0 <= k < |items| =>
      if IsNullish(items[k]) then "" else ToStr(items[k]));
    assert ToStr(items[0]) == "1";
    assert parts == ["1", "", "a"];
    assert Join(parts[1..], ",") == "" + "," + "a";
  }

  /** What a `TypeError` thrown by the engine says. */
  datatype JsError =
    | CannotReadProperties(base: JsVal, key: string)
    | NotIterable(expr: string)
    | NotAFunction(expr: string)
  {
    function Message(): string {
      match this
      case CannotReadProperties(base, key) =>
        "Cannot read properties of " + ToStr(base) + " (reading '" + key + "')"
      case NotIterable(expr) => expr + " is not iterable"
      case NotAFunction(expr) => expr + " is not a function"
    }
  }

  /** The completion of an evaluation: a value, or an exception on its way out. */
  datatype Completion<T> = Normal(value: T) | Throw(error: JsError)

  /** The first own property of `props` named `key`, if any. */
  function LookupProp(props: seq<Prop>, key: string): (r: Option<JsVal>)
    ensures r.None? <==> forall k | 0 <= k < |props| :: props[k].key != key
    ensures r.Some? ==> exists k | 0 <= k < |props| :: props[k] == Prop(key, r.value)
  {
    if props == [] then None
    else if props[0].key == key then Some(props[0].val)
    else LookupProp(props[1..], key)
  }

  /** `v[key]` for a value that is not null or undefined. */
  function FieldOf(v: JsVal, key: string): JsVal {
    if v.Obj? then (match LookupProp(v.props, key) case Some(x) => x case None => Undefined)
    else Undefined
  }

  /**
   * `v[key]` for a key that no built-in prototype defines (such as "value"
   * or "name"): reading from null or undefined throws, a primitive or an
   * array has no such property, an object answers with its own property.
   */
  function ReadField(v: JsVal, key: string): (r: Completion<JsVal>)
    ensures r.Throw? <==> IsNullish(v)
    ensures r.Throw? ==> r.error == CannotReadProperties(v, key)
    ensures !IsNullish(v) ==> r == Normal(FieldOf(v, key))
    ensures v.Obj? && (forall k | 0 <= k < |v.props| :: v.props[k].key != key) ==> r == Normal(Undefined)
  {
    match v
    case Undefined => Throw(CannotReadProperties(v, key))
    case Null => Throw(CannotReadProperties(v, key))
    case Obj(props) =>
      (match LookupProp(props, key)
       case Some(x) => Normal(x)
       case None => Normal(Undefined))
    case _ => Normal(Undefined)
  }

  /** `list.includes(v)` for a list of strings. */
  predicate Includes(list: seq<string>, v: JsVal) {
    v.Str? && v.s in list
  }
}
