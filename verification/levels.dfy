/** The level of `Level.swift`: its area and point sound sources in the older
    form that file declares (state as a `"x;y"` string, no script), the
    player, the lists built from the level description, and the first-run
    flag of `run()`. */
module Levels {
  import opened Wrappers
  import opened Values
  import PointCodec
  import PosField
  import Scripting

  /** `Player`. */
  datatype Player = Player(pos: Point, direction: Point)

  /** The area sound source `Ambiance` of `Level.swift`. */
  datatype Ambiance = Ambiance(pos: Point, inverted: bool)

  /** The point sound source `Audible` of `Level.swift` (older than the one in
      `Audible.swift`). */
  datatype LegacyAudible = LegacyAudible(pos: Point)

  datatype Level = Level(details: State, player: Player, ambiances: seq<Ambiance>, audibles: seq<LegacyAudible>, running: bool)

  /** Which source an `applyPlayerPerspective(player:run:)` call went to. */
  datatype Source = AmbianceAt(index: nat) | AudibleAt(index: nat)

  /** One `applyPlayerPerspective(player:run:)` call made by `run()`. */
  datatype Perspective = Perspective(source: Source, run: bool)

  // ---------------------------------------------------------------------------
  // State contracts

  /** `Ambiance.collectState()`: never a state. */
  function AmbianceCollectState(a: Ambiance): (r: Option<State>)
    ensures r.None?
  {
    None
  }

  /** `Ambiance.applyState(state:)`: ignores the state. */
  function AmbianceApplyState(a: Ambiance, state: State): (r: Ambiance)
    ensures r == a
  {
    a
  }

  /** `Audible.collectState()` (older form): one entry, `"pos"`, holding the
      position's `"x;y"` text. */
  function LegacyCollectState(a: LegacyAudible, fmt: NumberFormat): (r: Option<State>)
    ensures r.Some?
    ensures r.value.Keys == {"pos"}
    ensures r.value["pos"] == Str(PointCodec.Render(a.pos, fmt))
  {
    Some(map["pos" := Str(PointCodec.Render(a.pos, fmt))])
  }

  /** `Audible.applyState(state:)` (older form): moves the source when `"pos"`
      is a string that parses; otherwise leaves it as it is. */
  function LegacyApplyState(a: LegacyAudible, state: State, fmt: NumberFormat): (r: LegacyAudible)
    ensures PointCodec.Parse(AsString(Get(state, "pos")), fmt).Some? ==>
      r.pos == PointCodec.Parse(AsString(Get(state, "pos")), fmt).value
    ensures PointCodec.Parse(AsString(Get(state, "pos")), fmt).None? ==> r == a
  {
    match PointCodec.Parse(AsString(Get(state, "pos")), fmt)
    case Some(p) => LegacyAudible(p)
    case None => a
  }

  // ---------------------------------------------------------------------------
  // Construction

  /** `Ambiance.init(details:)`: `"inverted"` defaults to false; the position
      is read as `AbstractAudible.init(details:)` does. */
  function AmbianceInit(details: State, fmt: NumberFormat): (r: Ambiance)
    requires PosField.HasInitialPos(details, fmt)
    ensures r.inverted <==> AsBool(Get(details, "inverted")) == Some(true)
    ensures r.pos == PosField.InitialPos(details, fmt)
  {
    Ambiance(PosField.InitialPos(details, fmt), AsBool(Get(details, "inverted")).GetOr(false))
  }

  function LegacyAudibleInit(details: State, fmt: NumberFormat): (r: LegacyAudible)
    requires PosField.HasInitialPos(details, fmt)
    ensures r.pos == PosField.InitialPos(details, fmt)
  {
    LegacyAudible(PosField.InitialPos(details, fmt))
  }

  /** The entries of the list under `key`: none when the key is absent or the
      value is not an array of dictionaries. */
  function Entries(details: State, key: string): seq<State> {
    AsDictArray(Get(details, key)).GetOr([])
  }

  /** Every entry of both lists has a position the sources can start from
      (otherwise their initialisers trap). */
  predicate Buildable(details: State, fmt: NumberFormat) {
    && (forall i :: 0 <= i < |Entries(details, "ambiances")| ==> PosField.HasInitialPos(Entries(details, "ambiances")[i], fmt))
    && (forall i :: 0 <= i < |Entries(details, "audibles")| ==> PosField.HasInitialPos(Entries(details, "audibles")[i], fmt))
  }

  /** `Level.init(details:)`: one source per list entry, in order; the player
      at the boxed point under `"player"`/`"pos"` (and likewise
      `"direction"`), the origin when there is none; not yet running. */
  function LevelInit(details: State, fmt: NumberFormat): (l: Level)
    requires Buildable(details, fmt)
    ensures l.details == details && !l.running
    ensures |l.ambiances| == |Entries(details, "ambiances")|
    ensures forall i :: 0 <= i < |l.ambiances| ==> l.ambiances[i] == AmbianceInit(Entries(details, "ambiances")[i], fmt)
    ensures |l.audibles| == |Entries(details, "audibles")|
    ensures forall i :: 0 <= i < |l.audibles| ==> l.audibles[i].pos == PosField.InitialPos(Entries(details, "audibles")[i], fmt)
    ensures AsDictArray(Get(details, "ambiances")).None? ==> l.ambiances == []
    ensures AsDictArray(Get(details, "audibles")).None? ==> l.audibles == []
    ensures var pd := AsDict(Get(details, "player")).GetOr(map[]);
      && (AsPoint(Get(pd, "pos")).Some? ==> l.player.pos == AsPoint(Get(pd, "pos")).value)
      && (AsPoint(Get(pd, "pos")).None? ==> l.player.pos == Origin)
      && (AsPoint(Get(pd, "direction")).Some? ==> l.player.direction == AsPoint(Get(pd, "direction")).value)
      && (AsPoint(Get(pd, "direction")).None? ==> l.player.direction == Origin)
  {
    var pd := AsDict(Get(details, "player")).GetOr(map[]);
    var player := Player(AsPoint(Get(pd, "pos")).GetOr(Origin), AsPoint(Get(pd, "direction")).GetOr(Origin));
    var ads := Entries(details, "ambiances");
    var uds := Entries(details, "audibles");
    Level(details, player,
          seq(|ads|, i requires 0 <= i < |ads| && PosField.HasInitialPos(ads[i], fmt) => AmbianceInit(ads[i], fmt)),
          seq(|uds|, i requires 0 <= i < |uds| && PosField.HasInitialPos(uds[i], fmt) => LegacyAudibleInit(uds[i], fmt)),
          false)
  }

  // ---------------------------------------------------------------------------
  // Running

  /** `run()`: one perspective call per ambiance, then one per point source,
      all passing `run: !running`; afterwards the level is running. */
  function Run(l: Level): (r: (Level, seq<Perspective>))
    ensures r.0 == l.(running := true)
    ensures |r.1| == |l.ambiances| + |l.audibles|
    ensures forall i :: 0 <= i < |r.1| ==> r.1[i].run == !l.running
    ensures forall i :: 0 <= i < |l.ambiances| ==> r.1[i].source == AmbianceAt(i)
    ensures forall j :: 0 <= j < |l.audibles| ==> r.1[|l.ambiances| + j].source == AudibleAt(j)
  {
    var first := !l.running;
    var calls := seq(|l.ambiances|, (i: nat) => Perspective(AmbianceAt(i), first))
               + seq(|l.audibles|, (j: nat) => Perspective(AudibleAt(j), first));
    (l.(running := true), calls)
  }

  // ---------------------------------------------------------------------------
  // Lemmas

  /** Only the first `run()` starts the sources: it passes `run: true` to all
      of them, and every later call passes `false`. */
  lemma RunStartsOnce(details: State, fmt: NumberFormat)
    requires Buildable(details, fmt)
    ensures var (l1, first) := Run(LevelInit(details, fmt));
      var (l2, second) := Run(l1);
      && (forall i :: 0 <= i < |first| ==> first[i].run)
      && (forall i :: 0 <= i < |second| ==> !second[i].run)
      && l2.running && |first| == |second|
  {
  }

  /** An area source can never be registered with the scripting engine, whose
      registration needs a state. */
  lemma AmbianceNeverRegisters(a: Ambiance)
    ensures !AmbianceCollectState(a).Some?
  {
  }

  /** The older point source offers no script: registering it gives no
      active script, so no pass ever evaluates it. */
  lemma LegacyAudibleUnscripted(a: LegacyAudible, owner: Scripting.Handle, fmt: NumberFormat)
    ensures Scripting.NewRep(owner, LegacyCollectState(a, fmt)).activeScript == None
    ensures "script" !in LegacyCollectState(a, fmt).value
  {
  }

  /** Applying the collected state puts the source where `"x;y"` reads back,
      which is its own position when reading a rendered coordinate gives the
      coordinate back. */
  lemma LegacyApplyCollected(a: LegacyAudible, fmt: NumberFormat)
    requires PointCodec.RendersAsPiece(fmt, a.pos.x) && PointCodec.RendersAsPiece(fmt, a.pos.y)
    ensures LegacyApplyState(a, LegacyCollectState(a, fmt).value, fmt).pos
         == Point(fmt.floatValue(fmt.render(a.pos.x)), fmt.floatValue(fmt.render(a.pos.y)))
    ensures fmt.floatValue(fmt.render(a.pos.x)) == a.pos.x && fmt.floatValue(fmt.render(a.pos.y)) == a.pos.y ==>
      LegacyApplyState(a, LegacyCollectState(a, fmt).value, fmt) == a
  {
    PointCodec.RenderParses(a.pos, fmt);
  }
}
