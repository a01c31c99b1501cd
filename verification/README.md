# Entity scripting engine of the `jo` audio game, in Dafny

This project models the scripting core of `jo`, an audio game in which sound
sources move under small JavaScript behaviour scripts. It covers three parts:

- **The scripting registry and its throttled update pass** (`Scripting`,
  `ScriptRepresentation`). Entities are registered under an id. Each
  registration stores the entity's last state and the behaviour script named
  by that state's `"script"` entry, and binds an interpreter variable to the
  state. Every tenth `update` call evaluates `script(id, loop)` for every
  scripted entity. Each dictionary result becomes the entity's last state, is
  handed to the entity's `applyState`, and fires the update callback once.
- **The entity state contract** (`StateCollector`) of the sound sources. The
  current point source (`Audible.swift`) carries `pos` as an `{x, y}`
  dictionary plus its script name. The older point source and the area
  source (`Ambiance`) are declared in `Level.swift`. The model also covers
  how a `Level` builds its source lists and flags its first `run()`.
- **The `"x;y"` point codec** (`CGPoint.string()` / `CGPoint(string:)`),
  including Swift's `split`, which drops empty pieces.

Files and modules:

| file | module | models |
|---|---|---|
| `wrappers.dfy` | `Wrappers` | Swift optionals |
| `values.dfy` | `Values` | `[String: AnyObject]` states, `CGPoint`, the `as?` casts |
| `point_codec.dfy` | `PointCodec` | `split(separator:)`, `CGPoint.string()`, `CGPoint(string:)` |
| `pos_field.dfy` | `PosField` | the `"pos"` reading shared by `AbstractAudible.init` and `Audible.applyState` |
| `scripting.dfy` | `Scripting` | `ScriptRepresentation`, `Scripting` |
| `audibles.dfy` | `Audibles` | `Audible.swift` |
| `levels.dfy` | `Levels` | `Ambiance`, the older `Audible` and `Level` of `Level.swift`, with the `Player` of `Player.swift` as a plain record |

How the modelling works:

- **Pure functions.** Everything is a pure function over immutable values.
  Operations that mutate objects in the source return the new value.
- **The interpreter is a parameter.** JavaScriptCore evaluation is an
  `Evaluator` parameter. It maps a script name, the object's name, all of
  the interpreter's object variables and the loop counter to the returned
  dictionary, or to none. A script may read any variable, not only its own
  object's (a follower script reads the player's). The interpreter's object
  variables are a map from name to state.
- **Entities live outside the engine.** A representation holds only a
  `Handle` to its entity. An `update` returns, as `Effect`s, each
  `applyState` plus callback it performs, in order.
- **Iteration order is a parameter.** Swift does not specify a dictionary's
  iteration order, so an `order` parameter lists each registry key exactly
  once. The proved pass properties hold for every such order.
- **Numbers stay abstract.** A coordinate is a `Number` that is never
  computed on. Writing and reading one (`"\(x)"`, `NSString.floatValue`) are
  the two functions of a `NumberFormat` parameter.
- **Traps are preconditions.** A Swift trap (a force unwrap, an `as!` cast,
  `Int` overflow) is a `requires`. Every fallible `as?` cast is modelled on
  its failure path too.

What the code does, and the model with it:

- **No worker or queue.** Evaluation is synchronous inside `update`; the
  code has no worker thread, task queue, shutdown, unregistration or params
  binding.
- **Replace on re-registration.** Registering an id that is already present
  replaces its representation.
- **`activeScript` never changes.** It is a `let` in `ScriptRepresentation`,
  fixed at creation.
- **The first pass is on call 10.** The counter starts at 0 and is
  incremented before the test, so passes run on calls 10, 20, …
- **`createRepresentation` does not exist.** `Audible.init` calls
  `createRepresentation(for:params:object:)`, which `Scripting.swift` does
  not define. It is modelled as `representation(for:object:)`, and `params`
  has no effect.

## Model

| member | source | states |
|---|---|---|
| Scripting.NewRep | jo/Model/Scripting.swift:16-20 | needs a state from `collectState()`; the last state is that state; the active script is present iff its `"script"` entry is a string, and is then that string |
| Scripting.Representation | jo/Model/Scripting.swift:42-50 | registering `id` makes the keys old keys ∪ {id}; it stores a new representation under `id` and leaves every other entry unchanged; it binds the variable `id` to the state and no other variable; the counter is unchanged; it returns the bound state |
| Scripting.UpdateRepresentation | jo/Model/Scripting.swift:51-58 | rebinds only the variable `id` to the entity's current state; the registry, including every last state, and the counter are untouched |
| Scripting.Evaluate | jo/Model/Scripting.swift:62-67 | evaluating a script on an object name gives the interpreter's answer for that script, that name, the current variables and the current counter; for a registered entry driven by that script it is exactly the outcome a pass at the current counter records for it |
| Scripting.EvaluateSeesRegisteredState | jo/Model/Scripting.swift:45-47 | after registration, the variable named by the id holds exactly the registered state, and evaluating a script on the id runs against those variables at the current counter |
| Scripting.BindingsStayCovered | jo/Model/Scripting.swift:42-58 | every registry key has a bound variable, and registering, rebinding and updating keep it so; every object a pass evaluates names a bound variable |
| Scripting.Update | jo/Model/Scripting.swift:70-83 | the counter grows by exactly 1; a call whose new counter is not a multiple of 10 changes nothing else and has no calls or effects; otherwise the new registry equals the order-free reference where each entry is refreshed by its own evaluation; keys, owners and active scripts never change |
| Scripting.Pass | jo/Model/Scripting.swift:73-81 | a pass keeps the key set and every entry's owner and active script |
| Scripting.PassCollection | jo/Model/Scripting.swift:73-81 | the registry after a pass does not depend on the iteration order: listed entries are refreshed, the rest are unchanged |
| Scripting.PassCallsShape | jo/Model/Scripting.swift:62-66 | each call of a pass uses the pass's tick and the entry's own active script |
| Scripting.PassCallNames | jo/Model/Scripting.swift:73-75 | a pass evaluates exactly the listed entries that have an active script, each once |
| Scripting.PassEffectsShape | jo/Model/Scripting.swift:75-78 | each effect goes to the entry's owner and carries exactly the dictionary its script returned |
| Scripting.PassEffectIds | jo/Model/Scripting.swift:74-79 | a pass yields effects for exactly the listed entries whose evaluation succeeded, each once |
| Scripting.UpdateCalls | jo/Model/Scripting.swift:63-75 | every script in one pass receives the same positive multiple of 10; a pass evaluates exactly the scripted entries, once each |
| Scripting.UpdateEffects | jo/Model/Scripting.swift:74-79 | for each success, `applyState` receives exactly the result, the last state becomes it, and one callback fires with that id; callbacks per pass equal the number of succeeding entries; every other entry keeps its representation and gets neither |
| Scripting.UpdateKeepsActiveScript | jo/Model/Scripting.swift:15-19 | after registration and an update, the active script is still the one read at registration; the last state is either the registered state or the script's result |
| Scripting.DueCountClosedForm | jo/Model/Scripting.swift:71-72 | the number of counter values among k+1 … k+n that are multiples of 10 is ⌊(k+n)/10⌋ − ⌊k/10⌋ |
| Scripting.PassCadence | jo/Model/Scripting.swift:71-72 | any 10 consecutive counter values contain exactly one multiple of 10; 1 … 9 contain none |
| Scripting.UpdateCallCount | jo/Model/Scripting.swift:70-75 | one update evaluates every scripted entry when its new counter is a multiple of 10 and nothing otherwise; the set of scripted entries is unchanged |
| Scripting.UpdateTimes | jo/Model/Scripting.swift:70-75 | n update calls advance the counter by n and keep the key set and the scripted entries; the i-th call evaluates all scripted entries iff it brings the counter to a multiple of 10, and none otherwise |
| Scripting.DueCountCounts | jo/Model/Scripting.swift:70-75 | in any record of update calls whose evaluations follow the counter, the calls that evaluate scripts are exactly as many as the counter values reached that are multiples of 10 |
| Scripting.EvaluatingCallCount | jo/Model/Scripting.swift:70-75 | with something scripted, n update calls from counter k evaluate scripts on exactly ⌊(k+n)/10⌋ − ⌊k/10⌋ of them |
| Scripting.EvaluatingCadence | jo/Model/Scripting.swift:70-75 | with something scripted, any 10 consecutive update calls evaluate scripts on exactly one call, and from a fresh counter none of the first 9 calls does |
| Scripting.OneEvaluatingCallInTen | jo/Model/Scripting.swift:70-75 | with something scripted, exactly one of any 10 consecutive update calls evaluates scripts, at the position fixed by the starting counter |
| Scripting.RegistrationScenario | joTests/ScriptingTest.swift:36-47 | registering `{"state": "value"}` as `entity` binds a value whose `"state"` is `"value"`; the entity has no active script, so no pass evaluates it; evaluating on it passes that state and counter 0 |
| PointCodec.Split | jo/Model/Level.swift:36 | every piece `split` returns is non-empty and contains no `;` |
| PointCodec.SplitDropsEmptyFields | jo/Model/Level.swift:36 | the pieces `split` returns are exactly the input's `;`-separated fields with the empty fields dropped, in order |
| PointCodec.SplitJoinAny | jo/Model/Level.swift:36 | joining any `;`-free fields with `;` and splitting gives back exactly the non-empty fields, in order |
| PointCodec.JoinRuns | jo/Model/Level.swift:36 | the input's `;`-separated fields, joined with `;`, give the input back |
| PointCodec.SplitJoin | jo/Model/Level.swift:36 | splitting pieces joined with `;` gives the pieces back |
| PointCodec.SplitKeepsContent | jo/Model/Level.swift:36 | the pieces, concatenated, are the input with its `;` removed |
| PointCodec.Parse | jo/Model/Level.swift:32-43 | a point exists iff the string is present and splits into at least two pieces; x is read from the first piece and y from the second |
| PointCodec.ParseExamples | jo/Model/Level.swift:32-39 | `"5;"`, `";5"` and a missing string are rejected; `"1;;2"` is accepted as (1, 2) |
| PointCodec.ParseIgnoresExtraPieces | jo/Model/Level.swift:40-42 | pieces after the second do not affect the result |
| PointCodec.Render | jo/Model/Level.swift:31 | when neither coordinate's text is empty or holds a `;`, splitting `string()` gives back exactly the two coordinate texts, in order |
| PointCodec.RenderParses | jo/Model/Level.swift:31-43 | when each rendered coordinate is non-empty and has no `;`, the output of `string()` splits into exactly those two renderings and always parses |
| PointCodec.RenderParseIdentity | jo/Model/Level.swift:31-43 | if reading a rendered coordinate gives the coordinate back, then parsing `string()` returns the same point |
| PosField.DecodePos | jo/Model/Audible.swift:35-41 | a string `"pos"` takes precedence and traps unless it parses; otherwise a dictionary of numbers traps unless it has `"x"` and `"y"`, and gives exactly that point; anything else is no position |
| PosField.InitialPos | jo/Model/AbstractAudible.swift:18-23 | the starting position is the parsed string, or else the `x`/`y` of the numbers dictionary |
| Audibles.CollectState | jo/Model/Audible.swift:30-33 | the state always exists and has exactly the keys `pos` and `script`; `pos` is the `{x, y}` dictionary and `script` is the script name |
| Audibles.ApplyState | jo/Model/Audible.swift:34-45 | a usable `pos` sets the position (a string first, then a dictionary); without one the position is kept; a string `script` replaces the script name, independently of `pos`; the id never changes |
| Audibles.Init | jo/Model/Audible.swift:15-19 | needs string `id` and `script` entries and a decodable position; registers the source under its id with its collected state and with its script name as the active script, binds the id's variable to that state, and leaves every other entry and variable and the counter unchanged |
| Audibles.ApplyCollected | jo/Model/Audible.swift:31-43 | `applyState(collectState())` leaves the source unchanged |
| Audibles.RegisteredWithOwnScript | jo/Model/Audible.swift:31 | every registered source gets its own script name as its active script |
| Audibles.StringPosWins | jo/Model/Audible.swift:35-36 | with a string `pos`, applying is possible iff it parses, and the position becomes the parsed point |
| Audibles.DictPosExact | jo/Model/Audible.swift:38-39 | with a `{x, y}` numbers dictionary, the position becomes exactly those values |
| Audibles.NothingToApply | jo/Model/Audible.swift:34-45 | with no usable `pos` and no string `script`, the source is unchanged |
| Levels.AmbianceCollectState | jo/Model/Level.swift:59-61 | an area source never yields a state |
| Levels.AmbianceApplyState | jo/Model/Level.swift:62-63 | an area source ignores applied states |
| Levels.AmbianceNeverRegisters | jo/Model/Level.swift:58-64 | an area source can never meet registration's need for a state |
| Levels.LegacyCollectState | jo/Model/Level.swift:83-86 | the older point source's state has exactly one key, `pos`, which holds the `"x;y"` text |
| Levels.LegacyApplyState | jo/Model/Level.swift:87-91 | the position changes iff `pos` is a string that parses, and then becomes the parsed point; otherwise the source is unchanged |
| Levels.LegacyAudibleUnscripted | jo/Model/Level.swift:83-86 | the older point source's state has no `script`, so registering it gives no active script |
| Levels.LegacyApplyCollected | jo/Model/Level.swift:83-91 | applying the collected state moves the source to what its `"x;y"` reads back as, which is its own position when rendering round-trips |
| Levels.LegacyAudibleInit | jo/Model/Level.swift:76-80 | the older point source only decodes its starting position, as every sound source does at start-up |
| Levels.AmbianceInit | jo/Model/Level.swift:49-51 | `inverted` holds iff the entry is the boolean true, defaulting to false; the position is decoded as at start-up |
| Levels.LevelInit | jo/Model/Level.swift:109-128 | builds one source per entry of `ambiances` and `audibles`, in order; a list is empty when its key is absent or ill-typed; the player's position and direction are the boxed `pos` and `direction` points, each else the origin; the level is not running |
| Levels.Run | jo/Model/Level.swift:129-133 | makes one perspective call per area source, then one per point source, all with `run = !running`; afterwards the level is running and nothing else changes |
| Levels.RunStartsOnce | jo/Model/Level.swift:129-133 | the first `run()` passes `true` to every source and the second passes `false` |

## Left out

- JavaScriptCore: the interpreter and its start-up are not modelled. This covers `console.log` and the loading of scripts into globals (`Scripting.init`). Evaluation is the `Evaluator` parameter.
- Script side effects: a script can mutate interpreter globals, for example the object it receives. The model treats evaluation as pure, so the interpreter's variables are unchanged by a pass.
- JSON: serialisation is taken as faithful, so a bound variable holds the state itself. The `try!` trap on values JSON cannot represent (NaN, boxed points) is not modelled. Neither is a failing UTF-8 conversion, which would skip the binding.
- Identifiers: ids are assumed to be valid JavaScript identifiers. An id that is not would make the bootstrap code fail to evaluate.
- Script bodies: the scripts (`rolling.js`, `follower.js`) and their test are floating-point motion code.
- Audio: gain and pan maths are not modelled. This covers `volumeScale`, `dist`, every `applyPlayerPerspective`, and `Ambiance.swift`. `Level.run` records each perspective call as a `(source, run)` pair.
- `AbstractAudible.init`: the `"url"` entry, bundle lookup and `AVAudioPlayer` creation (with their traps) are I/O. Only its position decoding is modelled.
- Bridging casts: `as? Bool` and `as? CGFloat` on numbers that bridge across types are not modelled. Only the `Bool` and `Num` values themselves pass these casts.
- Everything else: UI, level loading, `AudioManager`, `LevelManager` and the bundle consistency tests are not modelled. `Player` is a plain record.
- PointCodec.Split: splits on the code point `;` rather than on Swift `Character`s, which are grapheme clusters compared by canonical equivalence. So U+037E (GREEK QUESTION MARK, canonically equivalent to `;`) is not a separator here, and a `;` followed by a combining mark is one here but not in Swift.
- Re-entrancy: `applyState` and the update callback are assumed not to call back into the engine (register, rebind or update) during a pass. The order-independence of a pass rests on this.
- Scripting.Update: loop overflow is a precondition (`loop < Int.max`), because Swift's `+=` traps rather than wraps.
