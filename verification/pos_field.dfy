/** How a `"pos"` entry is read into a point, the rule shared by
    `AbstractAudible.init(details:)` and `Audible.applyState(state:)`: a string
    is parsed with `CGPoint(string:)` and takes precedence; otherwise a
    dictionary of numbers must carry `"x"` and `"y"`. The source force-unwraps
    both readings, so a failing one is a trap, not a fallback. */
module PosField {
  import opened Wrappers
  import opened Values
  import PointCodec

  datatype Decoded =
    | Absent              // neither a string nor a dictionary of numbers
    | At(p: Point)        // a position was read
    | Trap                // a force unwrap would fail

  function DecodePos(v: Option<Value>, fmt: NumberFormat): (r: Decoded)
    // a string wins, and must parse
    ensures AsString(v).Some? ==> !r.Absent?
    ensures AsString(v).Some? ==>
      (r.Trap? <==> PointCodec.Parse(AsString(v), fmt).None?)
    ensures AsString(v).Some? && r.At? ==> Some(r.p) == PointCodec.Parse(AsString(v), fmt)
    // otherwise a dictionary of numbers must hold both coordinates
    ensures AsString(v).None? && AsNumberDict(v).Some? ==>
      (r.Trap? <==> !("x" in AsNumberDict(v).value && "y" in AsNumberDict(v).value))
    ensures AsString(v).None? && AsNumberDict(v).Some? && r.At? ==>
      r.p == Point(AsNumberDict(v).value["x"], AsNumberDict(v).value["y"])
    // anything else is no position at all
    ensures r.Absent? <==> AsString(v).None? && AsNumberDict(v).None?
  {
    match AsString(v)
    case Some(text) =>
      (match PointCodec.Parse(Some(text), fmt)
       case Some(p) => At(p)
       case None => Trap)
    case None =>
      match AsNumberDict(v)
      case Some(d) => if "x" in d && "y" in d then At(Point(d["x"], d["y"])) else Trap
      case None => Absent
  }

  /** A dictionary `{x, y}` of numbers decodes to exactly that point. */
  lemma DecodeNumberPair(x: Number, y: Number, fmt: NumberFormat)
    ensures DecodePos(Some(Obj(map["x" := Num(x), "y" := Num(y)])), fmt) == At(Point(x, y))
  {
    var m := map["x" := Num(x), "y" := Num(y)];
    assert AllNumbers(m);
    assert AsNumberDict(Some(Obj(m))).value == map["x" := x, "y" := y];
  }

  predicate HasInitialPos(details: State, fmt: NumberFormat) {
    DecodePos(Get(details, "pos"), fmt).At?
  }

  /** The position `AbstractAudible.init(details:)` starts from. Its caller
      must supply a decodable `"pos"`: a missing or ill-typed one fails the
      `as!` cast, an unparseable one the force unwrap. */
  function InitialPos(details: State, fmt: NumberFormat): (p: Point)
    requires HasInitialPos(details, fmt)
    ensures AsString(Get(details, "pos")).Some? ==>
      Some(p) == PointCodec.Parse(AsString(Get(details, "pos")), fmt)
    ensures AsString(Get(details, "pos")).None? ==>
      var d := AsNumberDict(Get(details, "pos")).value;
      p == Point(d["x"], d["y"])
  {
    DecodePos(Get(details, "pos"), fmt).p
  }
}
