/** The dynamically typed dictionaries (`[String: AnyObject]`) that entities
    produce and consume, and the bridging casts (`as? T`) the game code applies
    to their entries. */
module Values {
  import opened Wrappers

  /** A coordinate (`CGFloat`). The model never computes with it: rendering
      and parsing of numbers are parameters (see `NumberFormat`), so no
      floating-point behaviour enters any proof. */
  type Number = real

  /** `CGPoint`. */
  datatype Point = Point(x: Number, y: Number)

  const Origin: Point := Point(0.0, 0.0)

  /** One dictionary entry value, as far as the casts in the game code can tell
      values apart. */
  datatype Value =
    | Str(s: string)                      // NSString
    | Num(n: Number)                      // NSNumber holding a number
    | Bool(b: bool)                       // NSNumber holding a boolean
    | Obj(fields: map<string, Value>)     // nested dictionary
    | Arr(items: seq<Value>)              // array
    | Boxed(p: Point)                     // NSValue wrapping a CGPoint
    | Other                               // null and anything else

  /** An entity state snapshot. Swift dictionaries are unordered, so a map. */
  type State = map<string, Value>

  /** How a coordinate is written by string interpolation (`"\(x)"`) and read
      back by `NSString.floatValue` followed by the `CGFloat` conversion. */
  datatype NumberFormat = NumberFormat(render: Number -> string, floatValue: string -> Number)

  /** `dictionary[key]`, for states and for the interpreter's variables alike. */
  function Get<V>(m: map<string, V>, key: string): (r: Option<V>)
    ensures r.Some? <==> key in m
    ensures r.Some? ==> r.value == m[key]
  {
    if key in m then Some(m[key]) else None
  }

  /** `v as? String`. */
  function AsString(v: Option<Value>): Option<string> {
    if v.Some? && v.value.Str? then Some(v.value.s) else None
  }

  /** `v as? Bool`. */
  function AsBool(v: Option<Value>): Option<bool> {
    if v.Some? && v.value.Bool? then Some(v.value.b) else None
  }

  /** `v as? CGPoint`. */
  function AsPoint(v: Option<Value>): Option<Point> {
    if v.Some? && v.value.Boxed? then Some(v.value.p) else None
  }

  /** `v as? [String: AnyObject]`. */
  function AsDict(v: Option<Value>): Option<State> {
    if v.Some? && v.value.Obj? then Some(v.value.fields) else None
  }

  predicate AllNumbers(m: map<string, Value>) {
    forall k :: k in m ==> m[k].Num?
  }

  /** `v as? [String: CGFloat]`: succeeds only when every entry is a number. */
  function AsNumberDict(v: Option<Value>): (r: Option<map<string, Number>>)
    ensures r.Some? <==> v.Some? && v.value.Obj? && AllNumbers(v.value.fields)
    ensures r.Some? ==> r.value.Keys == v.value.fields.Keys
    ensures r.Some? ==> forall k :: k in r.value ==> v.value.fields[k] == Num(r.value[k])
  {
    if v.Some? && v.value.Obj? && AllNumbers(v.value.fields) then
      Some(map k | k in v.value.fields :: v.value.fields[k].n)
    else
      None
  }

  /** `v as? [[String: AnyObject]]`: succeeds only when every element is a dictionary. */
  function AsDictArray(v: Option<Value>): (r: Option<seq<State>>)
    ensures r.Some? <==> v.Some? && v.value.Arr? && forall i :: 0 <= i < |v.value.items| ==> v.value.items[i].Obj?
    ensures r.Some? ==> |r.value| == |v.value.items|
    ensures r.Some? ==> forall i :: 0 <= i < |r.value| ==> v.value.items[i] == Obj(r.value[i])
  {
    if v.Some? && v.value.Arr? && forall i :: 0 <= i < |v.value.items| ==> v.value.items[i].Obj? then
      var items := v.value.items;
      Some(seq(|items|, i requires 0 <= i < |items| => items[i].fields))
    else
      None
  }
}
