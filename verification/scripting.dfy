/** The scripting registry (`Scripting` and `ScriptRepresentation`): entities
    registered under an id, their last known state, the behaviour script that
    drives them, the interpreter's variables, and the throttled update pass.

    The JavaScript interpreter is a parameter: an `Evaluator` maps a script
    name, the object's variable name, the interpreter's variables and the loop
    counter to the dictionary the call `script(object, loop)` returns, or to
    none when it throws or returns no dictionary. A script may read any
    variable, not only its object's. Entities live outside the
    registry; a representation holds only a `Handle` to its entity, and a pass
    reports what it asks of entities as `Effect`s. */
module Scripting {
  import opened Wrappers
  import opened Values

  /** An update pass runs on every `Period`-th call of `update`. */
  const Period: nat := 10

  /** Swift's `Int.max`: `loop += 1` traps beyond it. */
  const IntMax: nat := 0x7FFF_FFFF_FFFF_FFFF

  /** A non-owning reference to a registered entity. */
  type Handle = nat

  /** `ScriptRepresentation`: `activeScript` is fixed when it is created. */
  datatype Rep = Rep(owner: Handle, lastState: State, activeScript: Option<string>)

  /** `collection`, the interpreter's object variables, and `loop`. */
  datatype Engine = Engine(collection: map<string, Rep>, namespace: map<string, State>, loop: nat)

  type Evaluator = (string, string, map<string, State>, nat) -> Option<State>

  /** The evaluated expression `script(objectName, tick)`. */
  datatype Call = Call(script: string, objectName: string, tick: nat)

  /** One successful evaluation: `applyState(state)` on the entity `owner`,
      then `callback(id, representation)`, the representation now holding
      `state` as its last state. */
  datatype Effect = Effect(id: string, owner: Handle, state: State)

  /** What one `update` call leaves: the engine, the calls it evaluated, and the
      effects of the successful ones, in evaluation order. */
  datatype Tick = Tick(engine: Engine, calls: seq<Call>, effects: seq<Effect>)

  datatype PassResult = PassResult(collection: map<string, Rep>, calls: seq<Call>, effects: seq<Effect>)

  /** What `representation(for:)` and `updateRepresentation(for:)` return:
      the engine, and the value the object's variable now holds. */
  datatype Binding = Binding(engine: Engine, value: Option<State>)

  /** An engine before anything is registered. The scripts loaded at start-up
      live in the interpreter, hence in the `Evaluator`. */
  const Fresh: Engine := Engine(map[], map[], 0)

  // ---------------------------------------------------------------------------
  // Registration

  /** `ScriptRepresentation.init`: `collectState()` is force-unwrapped, and the
      active script is the state's `"script"` entry when that is a string. */
  function NewRep(owner: Handle, collected: Option<State>): (r: Rep)
    requires collected.Some?
    ensures r.owner == owner && r.lastState == collected.value
    ensures r.activeScript.Some? <==> "script" in collected.value && collected.value["script"].Str?
    ensures r.activeScript.Some? ==> r.activeScript.value == collected.value["script"].s
  {
    Rep(owner, collected.value, AsString(Get(collected.value, "script")))
  }

  /** `representation(for:object:)`: stores a new representation under `id`,
      replacing any earlier one, and declares the interpreter variable `id`
      holding the collected state. `collected` is the entity's `collectState()`. */
  function Representation(e: Engine, id: string, owner: Handle, collected: Option<State>): (r: Binding)
    requires collected.Some?
    ensures r.engine.collection.Keys == e.collection.Keys + {id}
    ensures r.engine.collection[id] == NewRep(owner, collected)
    ensures forall k :: k in e.collection && k != id ==> r.engine.collection[k] == e.collection[k]
    ensures r.engine.namespace.Keys == e.namespace.Keys + {id}
    ensures r.engine.namespace[id] == collected.value
    ensures forall k :: k in e.namespace && k != id ==> r.engine.namespace[k] == e.namespace[k]
    ensures r.engine.loop == e.loop
    ensures r.value == Some(collected.value)
  {
    var rep := NewRep(owner, collected);
    var ns := e.namespace[id := rep.lastState];
    Binding(e.(collection := e.collection[id := rep], namespace := ns), Get(ns, id))
  }

  /** `updateRepresentation(for:object:)`: rebinds the interpreter variable
      `id` to the entity's current state and nothing else; the registry,
      including the representation's last state, is untouched. */
  function UpdateRepresentation(e: Engine, id: string, collected: Option<State>): (r: Binding)
    requires collected.Some?
    ensures r.engine.collection == e.collection
    ensures r.engine.loop == e.loop
    ensures r.engine.namespace.Keys == e.namespace.Keys + {id}
    ensures r.engine.namespace[id] == collected.value
    ensures forall k :: k in e.namespace && k != id ==> r.engine.namespace[k] == e.namespace[k]
    ensures r.value == Some(collected.value)
  {
    var ns := e.namespace[id := collected.value];
    Binding(e.(namespace := ns), Get(ns, id))
  }

  /** `evaluate(script:objectName:)`: the call `script(objectName, loop)`
      against the interpreter's variables. It is what a pass asks for each
      scripted entry: when the counter is due, the outcome of an entry
      driven by `script` is exactly this evaluation. */
  function Evaluate(e: Engine, script: string, objectName: string, eval: Evaluator): (r: Option<State>)
    ensures objectName in e.collection && e.collection[objectName].activeScript == Some(script) ==>
      r == Outcome(objectName, e.collection[objectName], e.namespace, e.loop, eval)
    ensures forall rep: Rep :: rep.activeScript == Some(script) ==>
      r == Outcome(objectName, rep, e.namespace, e.loop, eval)
  {
    eval(script, objectName, e.namespace, e.loop)
  }

  // ---------------------------------------------------------------------------
  // The update pass

  /** What evaluating the representation stored under `id` yields during a
      pass at `tick`: none without an active script. */
  function Outcome(id: string, rep: Rep, ns: map<string, State>, tick: nat, eval: Evaluator): Option<State> {
    match rep.activeScript
    case None => None
    case Some(script) => eval(script, id, ns, tick)
  }

  /** The representation after a pass: the new state when there is one,
      otherwise as it was. This is the order-free reference for `Pass`. */
  function Refresh(id: string, rep: Rep, ns: map<string, State>, tick: nat, eval: Evaluator): Rep {
    match Outcome(id, rep, ns, tick, eval)
    case Some(d) => rep.(lastState := d)
    case None => rep
  }

  /** The entries whose evaluation yields a dictionary. */
  function Succeeding(coll: map<string, Rep>, ns: map<string, State>, tick: nat, eval: Evaluator): set<string> {
    set id | id in coll && Outcome(id, coll[id], ns, tick, eval).Some?
  }

  /** The entries that carry an active script. */
  function Scripted(coll: map<string, Rep>): set<string> {
    set id | id in coll && coll[id].activeScript.Some?
  }

  predicate Distinct<T(==)>(s: seq<T>) {
    forall i, j :: 0 <= i < j < |s| ==> s[i] != s[j]
  }

  /** `order` lists every key of the registry exactly once: one possible
      iteration order of the Swift dictionary. */
  predicate Enumerates(order: seq<string>, coll: map<string, Rep>) {
    && Distinct(order)
    && (forall id :: id in order ==> id in coll)
    && (forall id :: id in coll ==> id in order)
  }

  function EffectIds(effects: seq<Effect>): (ids: seq<string>)
    ensures |ids| == |effects|
    ensures forall i :: 0 <= i < |ids| ==> ids[i] == effects[i].id
  {
    seq(|effects|, i requires 0 <= i < |effects| => effects[i].id)
  }

  function CallNames(calls: seq<Call>): (names: seq<string>)
    ensures |names| == |calls|
    ensures forall i :: 0 <= i < |names| ==> names[i] == calls[i].objectName
  {
    seq(|calls|, i requires 0 <= i < |calls| => calls[i].objectName)
  }

  /** The call a pass makes for one entry: none without an active script. */
  function CallsOf(id: string, rep: Rep, tick: nat): seq<Call> {
    if rep.activeScript.Some? then [Call(rep.activeScript.value, id, tick)] else []
  }

  /** The effect a pass yields for one entry: one exactly when its evaluation succeeds. */
  function EffectsOf(id: string, rep: Rep, ns: map<string, State>, tick: nat, eval: Evaluator): seq<Effect> {
    match Outcome(id, rep, ns, tick, eval)
    case Some(d) => [Effect(id, rep.owner, d)]
    case None => []
  }

  /** The body of `collection.forEach` in `update`, over the entries in
      `order`: a representation with an active script is evaluated; a
      dictionary result becomes its last state and yields one effect. */
  function Pass(coll: map<string, Rep>, ns: map<string, State>, tick: nat, eval: Evaluator, order: seq<string>): (r: PassResult)
    ensures r.collection.Keys == coll.Keys
    ensures forall id :: id in coll ==>
      r.collection[id].owner == coll[id].owner && r.collection[id].activeScript == coll[id].activeScript
    decreases |order|
  {
    if order == [] then PassResult(coll, [], [])
    else
      var id := order[0];
      if id !in coll then Pass(coll, ns, tick, eval, order[1..])
      else
        var rep := coll[id];
        var rest := Pass(coll[id := Refresh(id, rep, ns, tick, eval)], ns, tick, eval, order[1..]);
        PassResult(rest.collection, CallsOf(id, rep, tick) + rest.calls, EffectsOf(id, rep, ns, tick, eval) + rest.effects)
  }

  /** `update(callback:)`: advances the loop counter and, when it reaches a
      multiple of `Period`, runs a pass over the registry in the iteration
      order `order`. Every other call changes nothing but the counter. */
  function Update(e: Engine, order: seq<string>, eval: Evaluator): (t: Tick)
    requires e.loop < IntMax
    requires Enumerates(order, e.collection)
    ensures t.engine.loop == e.loop + 1
    ensures t.engine.namespace == e.namespace
    ensures t.engine.collection.Keys == e.collection.Keys
    ensures forall id :: id in e.collection ==>
      t.engine.collection[id].owner == e.collection[id].owner
      && t.engine.collection[id].activeScript == e.collection[id].activeScript
    ensures t.engine.loop % Period != 0 ==> t.engine.collection == e.collection && t.calls == [] && t.effects == []
    ensures t.engine.loop % Period == 0 ==>
      t.engine.collection == map id | id in e.collection :: Refresh(id, e.collection[id], e.namespace, t.engine.loop, eval)
  {
    var loop := e.loop + 1;
    if loop % Period == 0 then
      var r := Pass(e.collection, e.namespace, loop, eval, order);
      PassCollection(e.collection, e.namespace, loop, eval, order);
      Tick(Engine(r.collection, e.namespace, loop), r.calls, r.effects)
    else
      Tick(e.(loop := loop), [], [])
  }

  // ---------------------------------------------------------------------------
  // Lemmas about a pass

  lemma RefreshKeeps(id: string, rep: Rep, ns: map<string, State>, tick: nat, eval: Evaluator)
    ensures Refresh(id, rep, ns, tick, eval).owner == rep.owner
    ensures Refresh(id, rep, ns, tick, eval).activeScript == rep.activeScript
    ensures Outcome(id, Refresh(id, rep, ns, tick, eval), ns, tick, eval) == Outcome(id, rep, ns, tick, eval)
  {
  }

  /** The registry after a pass does not depend on the iteration order: every
      listed entry is refreshed, every other entry is as it was. */
  lemma {:induction false} PassCollection(coll: map<string, Rep>, ns: map<string, State>, tick: nat, eval: Evaluator, order: seq<string>)
    requires Distinct(order)
    ensures Pass(coll, ns, tick, eval, order).collection
         == map id | id in coll :: if id in order then Refresh(id, coll[id], ns, tick, eval) else coll[id]
    decreases |order|
  {
    if order != [] {
      var id := order[0];
      var rest := order[1..];
      assert Distinct(rest);
      assert id !in rest;
      assert forall k :: k in order <==> k == id || k in rest;
      if id in coll {
        var coll' := coll[id := Refresh(id, coll[id], ns, tick, eval)];
        PassCollection(coll', ns, tick, eval, rest);
        RefreshKeeps(id, coll[id], ns, tick, eval);
      } else {
        PassCollection(coll, ns, tick, eval, rest);
      }
    }
  }

  lemma CallNamesAppend(a: seq<Call>, b: seq<Call>)
    ensures CallNames(a + b) == CallNames(a) + CallNames(b)
  {
  }

  lemma EffectIdsAppend(a: seq<Effect>, b: seq<Effect>)
    ensures EffectIds(a + b) == EffectIds(a) + EffectIds(b)
  {
  }

  /** One step of a pass: the first listed entry's call and effect come first. */
  lemma PassStep(coll: map<string, Rep>, ns: map<string, State>, tick: nat, eval: Evaluator, order: seq<string>)
    requires order != [] && order[0] in coll
    ensures var id := order[0];
      var rep := coll[id];
      var r := Pass(coll, ns, tick, eval, order);
      var r' := Pass(coll[id := Refresh(id, rep, ns, tick, eval)], ns, tick, eval, order[1..]);
      && r.calls == CallsOf(id, rep, tick) + r'.calls
      && r.effects == EffectsOf(id, rep, ns, tick, eval) + r'.effects
      && CallNames(r.calls) == CallNames(CallsOf(id, rep, tick)) + CallNames(r'.calls)
      && EffectIds(r.effects) == EffectIds(EffectsOf(id, rep, ns, tick, eval)) + EffectIds(r'.effects)
  {
    var id := order[0];
    var rep := coll[id];
    var r' := Pass(coll[id := Refresh(id, rep, ns, tick, eval)], ns, tick, eval, order[1..]);
    CallNamesAppend(CallsOf(id, rep, tick), r'.calls);
    EffectIdsAppend(EffectsOf(id, rep, ns, tick, eval), r'.effects);
  }

  /** Every call of a pass is made with the pass's tick, on a registered
      entry, with that entry's active script. */
  lemma {:induction false} PassCallsShape(coll: map<string, Rep>, ns: map<string, State>, tick: nat, eval: Evaluator, order: seq<string>)
    ensures forall i :: 0 <= i < |Pass(coll, ns, tick, eval, order).calls| ==>
      Pass(coll, ns, tick, eval, order).calls[i].tick == tick
      && Pass(coll, ns, tick, eval, order).calls[i].objectName in coll
      && coll[Pass(coll, ns, tick, eval, order).calls[i].objectName].activeScript == Some(Pass(coll, ns, tick, eval, order).calls[i].script)
    decreases |order|
  {
    if order != [] {
      var id := order[0];
      if id in coll {
        var rep := coll[id];
        PassStep(coll, ns, tick, eval, order);
        PassCallsShape(coll[id := Refresh(id, rep, ns, tick, eval)], ns, tick, eval, order[1..]);
      } else {
        assert Pass(coll, ns, tick, eval, order) == Pass(coll, ns, tick, eval, order[1..]);
        PassCallsShape(coll, ns, tick, eval, order[1..]);
      }
    }
  }

  /** The calls of a pass name exactly the listed entries that carry an
      active script, each once. */
  lemma {:induction false} PassCallNames(coll: map<string, Rep>, ns: map<string, State>, tick: nat, eval: Evaluator, order: seq<string>)
    requires Distinct(order)
    ensures forall id :: id in CallNames(Pass(coll, ns, tick, eval, order).calls) <==> id in order && id in coll && coll[id].activeScript.Some?
    ensures Distinct(CallNames(Pass(coll, ns, tick, eval, order).calls))
    decreases |order|
  {
    if order != [] {
      var id := order[0];
      var rest := order[1..];
      assert Distinct(rest);
      assert id !in rest;
      assert forall k :: k in order <==> k == id || k in rest;
      if id in coll {
        var rep := coll[id];
        var coll' := coll[id := Refresh(id, rep, ns, tick, eval)];
        PassStep(coll, ns, tick, eval, order);
        RefreshKeeps(id, rep, ns, tick, eval);
        assert forall k :: k in coll' ==> coll'[k].activeScript == coll[k].activeScript;
        PassCallNames(coll', ns, tick, eval, rest);
        var here := CallNames(CallsOf(id, rep, tick));
        if rep.activeScript.Some? {
          assert here == [id];
        } else {
          assert here == [];
        }
      } else {
        assert Pass(coll, ns, tick, eval, order) == Pass(coll, ns, tick, eval, rest);
        PassCallNames(coll, ns, tick, eval, rest);
      }
    }
  }

  /** Every effect of a pass goes to the owner of a registered entry and
      carries exactly the dictionary that entry's script returned. */
  lemma {:induction false} PassEffectsShape(coll: map<string, Rep>, ns: map<string, State>, tick: nat, eval: Evaluator, order: seq<string>)
    ensures forall i :: 0 <= i < |Pass(coll, ns, tick, eval, order).effects| ==>
      Pass(coll, ns, tick, eval, order).effects[i].id in coll
      && Pass(coll, ns, tick, eval, order).effects[i].owner == coll[Pass(coll, ns, tick, eval, order).effects[i].id].owner
      && Outcome(Pass(coll, ns, tick, eval, order).effects[i].id, coll[Pass(coll, ns, tick, eval, order).effects[i].id], ns, tick, eval) == Some(Pass(coll, ns, tick, eval, order).effects[i].state)
    decreases |order|
  {
    if order != [] {
      var id := order[0];
      if id in coll {
        var rep := coll[id];
        PassStep(coll, ns, tick, eval, order);
        RefreshKeeps(id, rep, ns, tick, eval);
        PassEffectsShape(coll[id := Refresh(id, rep, ns, tick, eval)], ns, tick, eval, order[1..]);
      } else {
        assert Pass(coll, ns, tick, eval, order) == Pass(coll, ns, tick, eval, order[1..]);
        PassEffectsShape(coll, ns, tick, eval, order[1..]);
      }
    }
  }

  /** The effects of a pass name exactly the listed entries whose evaluation
      succeeded, each once. */
  lemma {:induction false} PassEffectIds(coll: map<string, Rep>, ns: map<string, State>, tick: nat, eval: Evaluator, order: seq<string>)
    requires Distinct(order)
    ensures forall id :: id in EffectIds(Pass(coll, ns, tick, eval, order).effects) <==> id in order && id in coll && Outcome(id, coll[id], ns, tick, eval).Some?
    ensures Distinct(EffectIds(Pass(coll, ns, tick, eval, order).effects))
    decreases |order|
  {
    if order != [] {
      var id := order[0];
      var rest := order[1..];
      assert Distinct(rest);
      assert id !in rest;
      assert forall k :: k in order <==> k == id || k in rest;
      if id in coll {
        var rep := coll[id];
        var coll' := coll[id := Refresh(id, rep, ns, tick, eval)];
        PassStep(coll, ns, tick, eval, order);
        RefreshKeeps(id, rep, ns, tick, eval);
        assert forall k :: k in coll' ==> Outcome(k, coll'[k], ns, tick, eval) == Outcome(k, coll[k], ns, tick, eval);
        PassEffectIds(coll', ns, tick, eval, rest);
        var here := EffectIds(EffectsOf(id, rep, ns, tick, eval));
        if Outcome(id, rep, ns, tick, eval).Some? {
          assert here == [id];
        } else {
          assert here == [];
        }
      } else {
        assert Pass(coll, ns, tick, eval, order) == Pass(coll, ns, tick, eval, rest);
        PassEffectIds(coll, ns, tick, eval, rest);
      }
    }
  }

  /** A sequence without repetitions has as many elements as its set. */
  lemma {:induction false} DistinctCard<T>(s: seq<T>)
    requires Distinct(s)
    ensures |set x | x in s| == |s|
    decreases |s|
  {
    if s != [] {
      assert Distinct(s[1..]);
      DistinctCard(s[1..]);
      assert (set x | x in s) == {s[0]} + (set x | x in s[1..]);
      assert s[0] !in s[1..];
    }
  }

  // ---------------------------------------------------------------------------
  // Lemmas about `update`

  /** A pass evaluates every scripted entry once, each with the new counter,
      a positive multiple of `Period`, and with its own active script;
      entries without an active script are not evaluated. */
  lemma UpdateCalls(e: Engine, order: seq<string>, eval: Evaluator)
    requires e.loop < IntMax
    requires Enumerates(order, e.collection)
    ensures var t := Update(e, order, eval);
      && (forall i :: 0 <= i < |t.calls| ==>
            t.calls[i].tick == t.engine.loop
            && t.calls[i].tick > 0 && t.calls[i].tick % Period == 0
            && t.calls[i].objectName in e.collection
            && e.collection[t.calls[i].objectName].activeScript == Some(t.calls[i].script))
      && (t.engine.loop % Period == 0 ==>
            (forall id :: id in CallNames(t.calls) <==> id in Scripted(e.collection))
            && |t.calls| == |Scripted(e.collection)|)
  {
    var t := Update(e, order, eval);
    if t.engine.loop % Period == 0 {
      PassCallsShape(e.collection, e.namespace, t.engine.loop, eval, order);
      PassCallNames(e.collection, e.namespace, t.engine.loop, eval, order);
      DistinctCard(CallNames(t.calls));
      assert (set x | x in CallNames(t.calls)) == Scripted(e.collection);
    }
  }

  /** For each successful evaluation of a pass: the entity receives exactly the
      returned dictionary, the representation's last state becomes it, and the
      callback fires once for that id. There are as many callbacks as
      succeeding entries; every other entry keeps its last state and gets
      neither `applyState` nor a callback. */
  lemma UpdateEffects(e: Engine, order: seq<string>, eval: Evaluator)
    requires e.loop < IntMax
    requires Enumerates(order, e.collection)
    ensures var t := Update(e, order, eval);
      var tick := t.engine.loop;
      && (forall i :: 0 <= i < |t.effects| ==>
            var f := t.effects[i];
            && f.id in e.collection
            && f.owner == e.collection[f.id].owner
            && Outcome(f.id, e.collection[f.id], e.namespace, tick, eval) == Some(f.state)
            && t.engine.collection[f.id].lastState == f.state)
      && Distinct(EffectIds(t.effects))
      && (forall id :: id in e.collection && id !in EffectIds(t.effects) ==>
            t.engine.collection[id] == e.collection[id])
      && (tick % Period == 0 ==>
            (forall id :: id in EffectIds(t.effects) <==> id in Succeeding(e.collection, e.namespace, tick, eval))
            && |t.effects| == |Succeeding(e.collection, e.namespace, tick, eval)|)
  {
    var t := Update(e, order, eval);
    var tick := t.engine.loop;
    if tick % Period == 0 {
      PassEffectsShape(e.collection, e.namespace, tick, eval, order);
      PassEffectIds(e.collection, e.namespace, tick, eval, order);
      DistinctCard(EffectIds(t.effects));
      assert (set x | x in EffectIds(t.effects)) == Succeeding(e.collection, e.namespace, tick, eval);
    } else {
      assert t.effects == [];
      assert EffectIds(t.effects) == [];
    }
  }

  /** The active script is the one read at registration, whatever "script"
      entry a later pass result carries; the last state is the registered
      state or what the script returned. */
  lemma UpdateKeepsActiveScript(e: Engine, id: string, owner: Handle, collected: Option<State>, order: seq<string>, eval: Evaluator)
    requires collected.Some?
    requires e.loop < IntMax
    requires Enumerates(order, Representation(e, id, owner, collected).engine.collection)
    ensures var registered := Representation(e, id, owner, collected).engine;
      var rep := Update(registered, order, eval).engine.collection[id];
      && rep.activeScript == AsString(Get(collected.value, "script"))
      && (rep.lastState == collected.value
          || (rep.activeScript.Some? && Some(rep.lastState) == eval(rep.activeScript.value, id, registered.namespace, e.loop + 1)))
  {
  }

  /** The number of calls among `n` consecutive `update` calls, starting with
      the counter at `from`, that run a pass. */
  function DueCount(from: nat, n: nat): nat {
    if n == 0 then 0
    else DueCount(from, n - 1) + (if (from + n) % Period == 0 then 1 else 0)
  }

  lemma {:induction false} DueCountClosedForm(from: nat, n: nat)
    ensures DueCount(from, n) == (from + n) / Period - from / Period
  {
    if n > 0 {
      DueCountClosedForm(from, n - 1);
      var m := from + n;
      assert m / Period == (m - 1) / Period + (if m % Period == 0 then 1 else 0);
    }
  }

  /** Exactly one of any `Period` consecutive `update` calls runs a pass; from
      a fresh counter, the first pass is on the `Period`-th call. */
  lemma PassCadence(from: nat)
    ensures DueCount(from, Period) == 1
    ensures DueCount(0, Period - 1) == 0
  {
    DueCountClosedForm(from, Period);
    DueCountClosedForm(0, Period - 1);
  }

  /** One `update` call evaluates every scripted entry or none, and keeps
      the set of scripted entries. */
  lemma UpdateCallCount(e: Engine, order: seq<string>, eval: Evaluator)
    requires e.loop < IntMax
    requires Enumerates(order, e.collection)
    ensures |Update(e, order, eval).calls| == (if (e.loop + 1) % Period == 0 then |Scripted(e.collection)| else 0)
    ensures Scripted(Update(e, order, eval).engine.collection) == Scripted(e.collection)
  {
    UpdateCalls(e, order, eval);
  }

  /** Call `i` of `ticks` made `scripted` evaluations when it brought the
      counter, starting from `from`, to a multiple of `Period`, and none otherwise. */
  predicate CallsFollowCounter(from: nat, scripted: nat, ticks: seq<Tick>) {
    forall i :: 0 <= i < |ticks| ==>
      |ticks[i].calls| == (if (from + i + 1) % Period == 0 then scripted else 0)
  }

  /** `n` consecutive `update` calls with the same iteration order (the keys
      never change during a pass): the final engine and what each call did. */
  function UpdateTimes(e: Engine, n: nat, order: seq<string>, eval: Evaluator): (r: (Engine, seq<Tick>))
    requires e.loop + n <= IntMax
    requires Enumerates(order, e.collection)
    ensures r.0.loop == e.loop + n
    ensures r.0.collection.Keys == e.collection.Keys
    ensures Scripted(r.0.collection) == Scripted(e.collection)
    ensures |r.1| == n
    ensures CallsFollowCounter(e.loop, |Scripted(e.collection)|, r.1)
    decreases n
  {
    if n == 0 then (e, [])
    else
      var prev := UpdateTimes(e, n - 1, order, eval);
      UpdateCallCount(prev.0, order, eval);
      var t := Update(prev.0, order, eval);
      FollowExtend(e.loop, |Scripted(e.collection)|, prev.1, t);
      (t.engine, prev.1 + [t])
  }

  /** Recording one more call that follows the counter keeps the record
      following it. */
  lemma FollowExtend(from: nat, scripted: nat, ticks: seq<Tick>, t: Tick)
    requires CallsFollowCounter(from, scripted, ticks)
    requires |t.calls| == (if (from + |ticks| + 1) % Period == 0 then scripted else 0)
    ensures CallsFollowCounter(from, scripted, ticks + [t])
  {
    forall i | 0 <= i < |ticks + [t]|
      ensures |(ticks + [t])[i].calls| == (if (from + i + 1) % Period == 0 then scripted else 0)
    {
      if i < |ticks| {
        assert (ticks + [t])[i] == ticks[i];
      }
    }
  }

  /** The positions of the recorded `update` calls that evaluated any script. */
  function EvaluatingSteps(ticks: seq<Tick>): set<nat> {
    set i: nat | i < |ticks| && ticks[i].calls != []
  }

  /** With at least one scripted entry, exactly one of any 10 consecutive
      `update` calls evaluates the scripts: the one that brings the counter
      to a multiple of 10. */
  lemma OneEvaluatingCallInTen(e: Engine, n: nat, order: seq<string>, eval: Evaluator)
    requires n == Period
    requires e.loop + n <= IntMax
    requires Enumerates(order, e.collection)
    requires Scripted(e.collection) != {}
    ensures EvaluatingSteps(UpdateTimes(e, n, order, eval).1) == {Period - 1 - e.loop % Period}
  {
    var ticks, scripted := Window(e, n, order, eval);
    WindowSteps(e.loop, scripted, ticks);
  }

  /** With at least one scripted entry, `n` consecutive `update` calls from
      counter `k` evaluate the scripts on exactly ⌊(k+n)/10⌋ − ⌊k/10⌋ of
      them: once in any 10 calls, and not before the 10th from a fresh counter. */
  lemma EvaluatingCallCount(e: Engine, n: nat, order: seq<string>, eval: Evaluator)
    requires e.loop + n <= IntMax
    requires Enumerates(order, e.collection)
    requires Scripted(e.collection) != {}
    ensures |EvaluatingSteps(UpdateTimes(e, n, order, eval).1)| == DueCount(e.loop, n)
    ensures |EvaluatingSteps(UpdateTimes(e, n, order, eval).1)| == (e.loop + n) / Period - e.loop / Period
  {
    var ticks, scripted := Window(e, n, order, eval);
    DueCountCounts(e.loop, scripted, ticks);
    DueCountClosedForm(e.loop, n);
  }

  /** With at least one scripted entry, any `Period` consecutive `update`
      calls evaluate the scripts exactly once, and from a fresh counter none
      of the first `Period - 1` calls does. */
  lemma EvaluatingCadence(e: Engine, n: nat, order: seq<string>, eval: Evaluator)
    requires e.loop + n <= IntMax
    requires Enumerates(order, e.collection)
    requires Scripted(e.collection) != {}
    ensures n == Period ==> |EvaluatingSteps(UpdateTimes(e, n, order, eval).1)| == 1
    ensures e.loop == 0 && n < Period ==> EvaluatingSteps(UpdateTimes(e, n, order, eval).1) == {}
  {
    EvaluatingCallCount(e, n, order, eval);
    if n == Period {
      PassCadence(e.loop);
    }
  }

  /** Over a record that follows the counter, the evaluating calls are
      exactly the calls `DueCount` counts. */
  lemma {:induction false} DueCountCounts(from: nat, scripted: nat, ticks: seq<Tick>)
    requires scripted > 0
    requires CallsFollowCounter(from, scripted, ticks)
    ensures |EvaluatingSteps(ticks)| == DueCount(from, |ticks|)
    decreases |ticks|
  {
    if ticks != [] {
      var n := |ticks|;
      var front := ticks[..n - 1];
      FollowPrefix(from, scripted, ticks);
      DueCountCounts(from, scripted, front);
      EvaluatingStepsSnoc(ticks);
    }
  }

  /** A record that follows the counter still does without its last call. */
  lemma FollowPrefix(from: nat, scripted: nat, ticks: seq<Tick>)
    requires ticks != []
    requires CallsFollowCounter(from, scripted, ticks)
    ensures CallsFollowCounter(from, scripted, ticks[..|ticks| - 1])
  {
    var front := ticks[..|ticks| - 1];
    forall i | 0 <= i < |front|
      ensures |front[i].calls| == (if (from + i + 1) % Period == 0 then scripted else 0)
    {
      assert front[i] == ticks[i];
    }
  }

  /** The evaluating calls of a record: those before the last call, and the
      last one when it evaluated anything. */
  lemma EvaluatingStepsSnoc(ticks: seq<Tick>)
    requires ticks != []
    ensures var n := |ticks|;
      && (n - 1) !in EvaluatingSteps(ticks[..n - 1])
      && EvaluatingSteps(ticks) == EvaluatingSteps(ticks[..n - 1]) + (if ticks[n - 1].calls != [] then {n - 1} else {})
  {
    var n := |ticks|;
    var front := ticks[..n - 1];
    forall i: nat | i < n - 1
      ensures front[i] == ticks[i]
    {
    }
  }

  /** The calls recorded over `n` update calls, and how many entries each
      evaluating call runs. */
  lemma Window(e: Engine, n: nat, order: seq<string>, eval: Evaluator) returns (ticks: seq<Tick>, scripted: nat)
    requires e.loop + n <= IntMax
    requires Enumerates(order, e.collection)
    requires Scripted(e.collection) != {}
    ensures ticks == UpdateTimes(e, n, order, eval).1
    ensures |ticks| == n && scripted > 0
    ensures CallsFollowCounter(e.loop, scripted, ticks)
  {
    ticks := UpdateTimes(e, n, order, eval).1;
    scripted := |Scripted(e.collection)|;
    var x :| x in Scripted(e.collection);
  }

  /** Within `Period` consecutive calls exactly one reaches a multiple of
      `Period`, so with something scripted exactly one call evaluates. */
  lemma WindowSteps(from: nat, scripted: nat, ticks: seq<Tick>)
    requires |ticks| == Period
    requires scripted > 0
    requires CallsFollowCounter(from, scripted, ticks)
    ensures EvaluatingSteps(ticks) == {Period - 1 - from % Period}
  {
    var j := Period - 1 - from % Period;
    forall i: nat | i < |ticks|
      ensures ticks[i].calls != [] <==> i == j
    {
      assert from == Period * (from / Period) + from % Period;
    }
  }

  /** After registering an entity, evaluating a script on its id runs against
      variables in which the id holds exactly the registered state, at the
      current counter. */
  lemma EvaluateSeesRegisteredState(e: Engine, id: string, owner: Handle, collected: Option<State>, script: string, eval: Evaluator)
    requires collected.Some?
    ensures var ns := Representation(e, id, owner, collected).engine.namespace;
      && Get(ns, id) == collected
      && Evaluate(Representation(e, id, owner, collected).engine, script, id, eval) == eval(script, id, ns, e.loop)
  {
  }

  /** An entity whose state is `{"state": "value"}`, registered as `"entity"`:
      its variable holds that state, it has no active script, so no pass ever
      evaluates it, and an explicit evaluation sees the state at counter 0. */
  lemma RegistrationScenario(owner: Handle, eval: Evaluator)
    ensures var state := map["state" := Str("value")];
      var b := Representation(Fresh, "entity", owner, Some(state));
      && b.value.Some? && Get(b.value.value, "state") == Some(Str("value"))
      && b.engine.collection["entity"].activeScript == None
      && Scripted(b.engine.collection) == {}
      && b.engine.namespace == map["entity" := state]
      && Evaluate(b.engine, "behaviourScript", "entity", eval) == eval("behaviourScript", "entity", map["entity" := state], 0)
  {
    var state := map["state" := Str("value")];
    var b := Representation(Fresh, "entity", owner, Some(state));
    assert b.engine.collection.Keys == {"entity"};
  }

  // ---------------------------------------------------------------------------
  // The interpreter variables cover the registry

  /** Every registered id has an interpreter variable. */
  predicate BindingsCover(e: Engine) {
    e.collection.Keys <= e.namespace.Keys
  }

  /** Registration binds the variable along with the entry, rebinding and
      updating never drop one, so every evaluation a pass makes names a
      bound variable. */
  lemma BindingsStayCovered(e: Engine, id: string, owner: Handle, collected: Option<State>, order: seq<string>, eval: Evaluator)
    requires BindingsCover(e)
    requires collected.Some?
    ensures BindingsCover(Fresh)
    ensures BindingsCover(Representation(e, id, owner, collected).engine)
    ensures BindingsCover(UpdateRepresentation(e, id, collected).engine)
    ensures e.loop < IntMax && Enumerates(order, e.collection) ==>
      && BindingsCover(Update(e, order, eval).engine)
      && forall i :: 0 <= i < |Update(e, order, eval).calls| ==> Update(e, order, eval).calls[i].objectName in e.namespace
  {
    if e.loop < IntMax && Enumerates(order, e.collection) {
      UpdateCalls(e, order, eval);
    }
  }
}
