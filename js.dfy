/** JavaScript values as the collector receives them in a decoded JSON
    response, with the few pieces of the language's semantics the collector
    relies on: truthiness, property access, `for ... of` and thrown errors. */
module Js {

  /** A JavaScript value. Numbers are kept exact (`real`): rounding to
      doubles, and the Infinity that `JSON.parse` gives for a numeral too
      large for a double, are not modelled. */
  datatype Value =
    | Undefined
    | Null
    | Bool(b: bool)
    | Num(x: real)
    | Str(s: string)
    | Arr(items: seq<Value>)
    | Obj(props: map<string, Value>)
  {
    /** `v === undefined || v === null`: the values on which a property access throws. */
    predicate IsNullish() {
      Undefined? || Null?
    }
  }

  /** The kinds of exception a collection run can raise. */
  datatype Error =
    | FetchError   // axios rejects: transport failure or non-2xx status
    | TypeError    // property read on undefined/null, or `for ... of` over a non-iterable
    | WriteError   // the database driver or server rejects an INSERT

  /** How an awaited step ends: normally, or by throwing. */
  datatype Outcome = Done | Thrown(error: Error)

  datatype Result<T> = Success(value: T) | Failure(error: Error)

  datatype Option<T> = None | Some(value: T)

  /** JavaScript truthiness, as used by `if (data && data.jobs)`. */
  predicate Truthy(v: Value)
    ensures Truthy(v) ==> !v.IsNullish()
  {
    match v
    case Undefined => false
    case Null => false
    case Bool(b) => b
    case Num(x) => x != 0.0
    case Str(s) => s != []
    case Arr(_) => true
    case Obj(_) => true
  }

  /** `v[key]` for a key other than `length`: throws a TypeError on
      undefined and null, reads an own property of an object, and gives
      `undefined` on every other value (the keys the collector reads are not
      properties of arrays, strings, numbers or booleans). */
  function Get(v: Value, key: string): (r: Result<Value>)
    ensures r.Failure? <==> v.IsNullish()
    ensures r.Failure? ==> r.error == TypeError
  {
    match v
    case Undefined => Failure(TypeError)
    case Null => Failure(TypeError)
    case Obj(props) => Success(if key in props then props[key] else Undefined)
    case _ => Success(Undefined)
  }

  /** `v[key]` where `v` is known not to be nullish. */
  function Prop(v: Value, key: string): Value
    requires !v.IsNullish()
  {
    Get(v, key).value
  }

  /** `v.length` on a value that is not nullish: the length of an array or
      string, an object's own `length` property, `undefined` otherwise. */
  function Length(v: Value): Value
    requires !v.IsNullish()
  {
    match v
    case Arr(items) => Num(|items| as real)
    case Str(s) => Num(|s| as real)
    case _ => Prop(v, "length")
  }

  /** `v.length > 0`: a numeric or boolean length is compared with zero;
      anything else compares false. */
  predicate HasPositiveLength(v: Value)
    requires !v.IsNullish()
    ensures v.Arr? ==> (HasPositiveLength(v) <==> |v.items| > 0)
    ensures v.Str? ==> (HasPositiveLength(v) <==> |v.s| > 0)
  {
    match Length(v)
    case Num(x) => x > 0.0
    case Bool(b) => b
    case _ => false
  }

  /** The elements `for (const x of v)` visits: the items of an array, the
      one-character strings of a string; anything else is not iterable. */
  function Iterate(v: Value): (r: Result<seq<Value>>)
    ensures v.Arr? ==> r == Success(v.items)
    ensures r.Failure? <==> !(v.Arr? || v.Str?)
    ensures v.Str? ==> r.Success? && |r.value| == |v.s|
    ensures v.Str? ==> forall i :: 0 <= i < |v.s| ==> r.value[i] == Str([v.s[i]])
  {
    match v
    case Arr(items) => Success(items)
    case Str(s) => Success(seq(|s|, i requires 0 <= i < |s| => Str([s[i]])))
    case _ => Failure(TypeError)
  }
}
