/** The scripted point sound source of `Audible.swift`: its registration with
    the scripting engine and its state contract (`collectState` /
    `applyState`). */
module Audibles {
  import opened Wrappers
  import opened Values
  import PointCodec
  import PosField
  import Scripting

  datatype Audible = Audible(id: string, scriptName: string, pos: Point)

  /** What `Audible.init(details:scriptingEngine:)` demands of `details`: string
      `"id"` and `"script"` entries (`as!` casts) and a position the
      superclass can decode. */
  predicate Constructible(details: State, fmt: NumberFormat) {
    && AsString(Get(details, "id")).Some?
    && AsString(Get(details, "script")).Some?
    && PosField.HasInitialPos(details, fmt)
  }

  /** `collectState()`: the position as an `{x, y}` dictionary and the script
      name, and nothing else. */
  function CollectState(a: Audible): (r: Option<State>)
    ensures r.Some?
    ensures r.value.Keys == {"pos", "script"}
    ensures r.value["pos"] == Obj(map["x" := Num(a.pos.x), "y" := Num(a.pos.y)])
    ensures AsString(Get(r.value, "script")) == Some(a.scriptName)
  {
    Some(map["pos" := Obj(map["x" := Num(a.pos.x), "y" := Num(a.pos.y)]), "script" := Str(a.scriptName)])
  }

  /** `applyState(state:)` does not trap: a string `"pos"` parses, a
      dictionary `"pos"` of numbers has both coordinates. */
  predicate Applicable(state: State, fmt: NumberFormat) {
    !PosField.DecodePos(Get(state, "pos"), fmt).Trap?
  }

  /** `applyState(state:)`: a usable `"pos"` (a string first, else a dictionary
      of numbers) moves the source; a string `"script"` renames its script;
      the two are independent, and nothing else changes. */
  function ApplyState(a: Audible, state: State, fmt: NumberFormat): (r: Audible)
    requires Applicable(state, fmt)
    ensures r.id == a.id
    ensures AsString(Get(state, "script")).Some? ==> r.scriptName == AsString(Get(state, "script")).value
    ensures AsString(Get(state, "script")).None? ==> r.scriptName == a.scriptName
    ensures PosField.DecodePos(Get(state, "pos"), fmt).At? ==> r.pos == PosField.DecodePos(Get(state, "pos"), fmt).p
    ensures PosField.DecodePos(Get(state, "pos"), fmt).Absent? ==> r.pos == a.pos
  {
    var pos := match PosField.DecodePos(Get(state, "pos"), fmt)
      case At(p) => p
      case _ => a.pos;
    var scriptName := AsString(Get(state, "script")).GetOr(a.scriptName);
    a.(pos := pos, scriptName := scriptName)
  }

  /** `Audible.init(details:scriptingEngine:)`: reads id, script name and
      position, then registers the new source with the engine under its id
      (the `params` entry is passed along but the engine does nothing with
      it). `self` is the handle `owner`. */
  function Init(details: State, e: Scripting.Engine, owner: Scripting.Handle, fmt: NumberFormat): (r: (Audible, Scripting.Engine))
    requires Constructible(details, fmt)
    ensures r.0.id == AsString(Get(details, "id")).value
    ensures r.0.scriptName == AsString(Get(details, "script")).value
    ensures r.0.pos == PosField.InitialPos(details, fmt)
    ensures r.1.collection.Keys == e.collection.Keys + {r.0.id}
    ensures r.1.collection[r.0.id].owner == owner
    ensures r.1.collection[r.0.id].lastState == CollectState(r.0).value
    ensures r.1.collection[r.0.id].activeScript == Some(r.0.scriptName)
    ensures r.0.id in r.1.namespace && r.1.namespace[r.0.id] == CollectState(r.0).value
    ensures r.1.loop == e.loop
    // registering this source leaves every other entry and variable alone
    ensures forall k :: k in e.collection && k != r.0.id ==> r.1.collection[k] == e.collection[k]
    ensures r.1.namespace.Keys == e.namespace.Keys + {r.0.id}
    ensures forall k :: k in e.namespace && k != r.0.id ==> r.1.namespace[k] == e.namespace[k]
  {
    var a := Audible(AsString(Get(details, "id")).value, AsString(Get(details, "script")).value,
                     PosField.InitialPos(details, fmt));
    var b := Scripting.Representation(e, a.id, owner, CollectState(a));
    (a, b.engine)
  }

  // ---------------------------------------------------------------------------
  // Lemmas

  /** Applying the collected state changes nothing. */
  lemma ApplyCollected(a: Audible, fmt: NumberFormat)
    ensures Applicable(CollectState(a).value, fmt)
    ensures ApplyState(a, CollectState(a).value, fmt) == a
  {
    PosField.DecodeNumberPair(a.pos.x, a.pos.y, fmt);
  }

  /** Every registered source is driven by its own script name. */
  lemma RegisteredWithOwnScript(a: Audible, e: Scripting.Engine, owner: Scripting.Handle)
    ensures Scripting.Representation(e, a.id, owner, CollectState(a)).engine.collection[a.id].activeScript
         == Some(a.scriptName)
  {
  }

  /** A string `"pos"` is read in preference to anything else, and must parse. */
  lemma StringPosWins(a: Audible, state: State, text: string, fmt: NumberFormat)
    requires Get(state, "pos") == Some(Str(text))
    ensures Applicable(state, fmt) <==> PointCodec.Parse(Some(text), fmt).Some?
    ensures Applicable(state, fmt) ==> Some(ApplyState(a, state, fmt).pos) == PointCodec.Parse(Some(text), fmt)
  {
  }

  /** A dictionary `"pos"` of numbers must hold both coordinates, and the
      source moves exactly there. */
  lemma DictPosExact(a: Audible, state: State, x: Number, y: Number, fmt: NumberFormat)
    requires Get(state, "pos") == Some(Obj(map["x" := Num(x), "y" := Num(y)]))
    ensures Applicable(state, fmt)
    ensures ApplyState(a, state, fmt).pos == Point(x, y)
  {
    PosField.DecodeNumberPair(x, y, fmt);
  }

  /** A state with no usable `"pos"` and no string `"script"` leaves the
      source as it is. */
  lemma NothingToApply(a: Audible, state: State, fmt: NumberFormat)
    requires AsString(Get(state, "pos")).None? && AsNumberDict(Get(state, "pos")).None?
    requires AsString(Get(state, "script")).None?
    ensures Applicable(state, fmt)
    ensures ApplyState(a, state, fmt) == a
  {
  }
}
