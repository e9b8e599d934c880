# Story engine model

A Dafny model of the interactive-fiction engine in a mobile storytelling app. It covers three parts:

- the stateless engine `gameEngine` (`src/engine/GameEngine.js`). It initialises variables, evaluates `variable`/`inventory` conditions and applies effect sets to copies of the player's variables and inventory;
- the stateful engine `AdvancedGameEngine` (`src/engine/AdvancedGameEngine.js`). It adds achievements, `show_if`/`enable_if` choice gating, choice costs, node entry with a visit history, snapshot and restore, and the text interpolator;
- the app-state reducer `gameReducer` and `initialState` (`src/context/GameContext.js`).

Files and modules:

| file | module | contents |
|---|---|---|
| `wrappers.dfy` | `Wrappers` | `Option` and `Result` |
| `values.dfy` | `Values` | variable values and the JavaScript operations on them: truthiness, `String(v)`, `===`, ordering, `includes`, `+ - *` |
| `sequences.dfy` | `Sequences` | list operations: remove every occurrence (`filter`), remove the first occurrence (`indexOf` + `splice`), subsequences |
| `story.dfy` | `Story` | the story document: nodes, choices, conditions, effect sets, costs |
| `game_engine.dfy` | `GameEngine` | the stateless engine |
| `interpolation.dfy` | `Interpolation` | the three regex passes of `processText`, and a single-pass reference reading of templates |
| `advanced_engine.dfy` | `AdvancedEngine` | the stateful engine |
| `game_context.dfy` | `GameContext` | the reducer |

Modelling choices:

- Each engine method is a pure function. It takes the engine record before the call and returns the record after it.
- A method that can throw returns `Result` or `Step`. `Step` holds the engine as the throw leaves it, plus how the call ended.
- Absent JSON fields are `Option`s.
- An absent effect or cost list acts like an empty one, so those fields are plain (possibly empty) lists and maps.
- Variable values are `Num(int) | Str | Bool | NaN`.

Where the code and the documented design differ, the model follows the code. The one exception is the unlocking of achievements: its defect is logged under "## Findings", and the engine uses the corrected unlock. The places where the model follows the code:

- `makeChoice` applies the choice's effects **before** its costs (`AdvancedGameEngine.js:65-72`).
- When the target node is missing, the throw comes **after** those effects and costs have been applied. The state is therefore not rolled back (`AdvancedEngine.MakeChoice`).
- `makeChoice` receives the choice object itself, so there is no "choice not found" error.
- The node that `loadNode` enters is `{id: nodeId, ...node}`. A node's own `id` field overrides the key it was entered under (`AdvancedEngine.Entered`).
- `loadGameState` does not await `loadNode`. An unknown saved node is dropped silently, and the restored fields stay restored.

## Model

| member | source | states |
|---|---|---|
| GameEngine.InitializeVariables | src/engine/GameEngine.js:3-9 | the result's keys are exactly the defined names; each maps to its definition's `initial_value` |
| GameEngine.EvaluateVariableCondition | src/engine/GameEngine.js:28-42 | `==` holds iff the variable is defined and equal to the non-NaN literal, and `!=` is its negation; ordering operators are false on an undefined variable and are integer comparisons on numbers; `contains` holds iff `String(target)` occurs in `String(value)` at some position; an unknown operator gives true |
| GameEngine.EvaluateInventoryCondition | src/engine/GameEngine.js:44-50 | `has` iff the item is in the inventory, `not_has` iff it is not, an unknown operator gives true |
| GameEngine.AllHold | src/engine/GameEngine.js:14-25 | `every` scans the list and is true iff every condition holds; non-variable, non-inventory types pass |
| GameEngine.EvaluateConditions | src/engine/GameEngine.js:11-26 | an absent list passes; a present list passes iff every condition in it holds |
| GameEngine.ConditionHolds | src/engine/GameEngine.js:15-24 | dispatch on `type`: `variable ==` holds iff the variable is defined and equal to the non-NaN literal; `inventory has`/`not_has` is membership/non-membership; any other type, `achievement` included, passes (see `EvaluateVariableCondition` and `EvaluateInventoryCondition` for the full operator cases) |
| GameEngine.EvaluateConditionsSplit | src/engine/GameEngine.js:14-25 | a list passes iff both halves of it pass (the conjunction is over all conditions) |
| GameEngine.ModifyValue | src/engine/GameEngine.js:62-75 | an unknown operation sets the operand; `add`/`subtract`/`multiply` on a falsy current value work on 0; on numbers they are integer `+ - *` |
| GameEngine.ApplyModifications | src/engine/GameEngine.js:60-77 | each modified variable gets its modification applied to its current value; untouched variables keep their values; keys are the union |
| GameEngine.ProcessEffects | src/engine/GameEngine.js:52-88 | `set_variables` overwrite first and `modify_variables` act on the post-set value; other variables are unchanged. The new inventory is a subsequence of old + added; an item is in it iff it was there or added and is not listed for removal; items not removed keep their counts |
| GameEngine.AddInventoryAppends | src/engine/GameEngine.js:79-81 | without removals the added items end the inventory, in order |
| GameEngine.SetVariablesIdempotent | src/engine/GameEngine.js:56-58 | an effect set with only `set_variables` is idempotent |
| GameEngine.ModifyUnsetAdds | src/engine/GameEngine.js:62-65 | `add` on a variable never set yields the operand (absent counts as 0) |
| Sequences.RemoveAll | src/engine/GameEngine.js:83-85 | `filter` keeps order (a subsequence), keeps exactly the unlisted items, and keeps their counts |
| Sequences.RemoveFirst | src/engine/AdvancedGameEngine.js:199-202 | `indexOf` + `splice` removes the first occurrence and only it; an absent item leaves the list unchanged |
| Sequences.RemoveEach | src/engine/AdvancedGameEngine.js:197-204 | removing each cost item in turn removes the multiset of cost items; the result is a subsequence and shrinks by at most the number of items |
| Sequences.RemoveEachOne | src/engine/AdvancedGameEngine.js:198-202 | for a single listed item, exactly its first occurrence is removed (as `RemoveFirst`) |
| Sequences.RemoveEachAppend | src/engine/AdvancedGameEngine.js:197-204 | the items are removed in list order, each from what the earlier ones left: removing `a + b` is removing `a`, then `b` |
| Sequences.RemoveEachTakesFirstCopy | src/engine/AdvancedGameEngine.js:199-201 | removing `a` from `[a, b, a]` leaves `[b, a]`: the first copy goes, not a later one |
| Sequences.RemoveAllVersusRemoveEach | src/engine/AdvancedGameEngine.js:168-171 | on `[x, x]`, removal by `remove_inventory` leaves `[]` while removal by cost leaves `[x]` |
| Values.FalsyValues | src/engine/AdvancedGameEngine.js:260-261 | the values that count as false are exactly `undefined`, `0`, `""`, `false` and NaN |
| Values.OrZero | src/engine/GameEngine.js:61 | the `0` default of `currentValue`: a truthy value is kept and every falsy one becomes `0` |
| Values.StrictEqualsIdentity | src/engine/GameEngine.js:32-33 | `===` holds only between a value and itself; NaN equals nothing, itself included, and `undefined` equals no literal |
| Values.ToText | src/engine/GameEngine.js:39 | `String(v)`: a string is itself, a number prints as a numeral that reads back as that number, other values contain no `{` |
| Values.IncludesIffOccurs | src/engine/GameEngine.js:39 | `includes` holds iff the needle occurs at some position |
| Values.Arith | src/engine/GameEngine.js:65-71 | `+` concatenates when a side is a string; numbers combine as integers; a side that is not numeric makes NaN |
| Values.IntToStringRoundTrip | src/engine/AdvancedGameEngine.js:255 | `length.toString()` is injective: it reads back as the number printed |
| AdvancedEngine.EvaluateConditions | src/engine/AdvancedGameEngine.js:96-111 | `every` over a present list: true iff every condition holds, `achievement` conditions included (an absent list is never passed in; the caller guards it) |
| AdvancedEngine.ConditionHolds | src/engine/AdvancedGameEngine.js:98-109 | an `achievement` condition holds iff its id is unlocked; every other condition is decided exactly as the stateless engine decides it, so an unknown type passes |
| AdvancedEngine.AchievementConditionHolds | src/engine/AdvancedGameEngine.js:103-104 | an `achievement` condition holds iff that id is unlocked |
| AdvancedEngine.AgreesWithStatelessEngine | src/engine/AdvancedGameEngine.js:96-135 | without `achievement` conditions the stateful evaluator agrees with the stateless one |
| AdvancedEngine.IsChoiceAvailable | src/engine/AdvancedGameEngine.js:78-94 | a choice without conditions is available; otherwise `show_if` and `enable_if` are each checked only when present, and the choice is available iff every condition of `show_if` followed by `enable_if` holds |
| AdvancedEngine.UnlockAsWritten | src/engine/AdvancedGameEngine.js:175-179 | the existing list is kept as a prefix; every appended id was not unlocked before the call; the appended ids are a subsequence of the listed ones, in list order, and each new id is appended as many times as it is listed |
| AdvancedEngine.UnlockAsWrittenDuplicates | src/engine/AdvancedGameEngine.js:175-179 | unlocking `["gold", "gold"]` from nothing yields a list with a repeated id |
| AdvancedEngine.Unlock | src/engine/AdvancedGameEngine.js:175-179 | the existing list is kept as a prefix; an id is unlocked afterwards iff it was before or is listed; every appended id was not unlocked before, even when the old list has repeats; the appended ids are repeat-free and a subsequence of the listed ones, in list order; a repeat-free list stays repeat-free |
| AdvancedEngine.UnlockOne | src/engine/AdvancedGameEngine.js:175-179 | one listed id is appended iff it is not unlocked yet |
| AdvancedEngine.UnlockAppend | src/engine/AdvancedGameEngine.js:175-179 | the listed ids are taken in order: unlocking `u + v` is unlocking `u`, then `v` |
| AdvancedEngine.UnlockKeepsListOrder | src/engine/AdvancedGameEngine.js:175-179 | unlocking `[x, y, x]` from nothing gives `[x, y]`: ids are appended in the order they are first listed |
| AdvancedEngine.UnlockMatchesAsWritten | src/engine/AdvancedGameEngine.js:175-179 | when the listed ids have no repeats, the corrected unlock equals the code as written |
| AdvancedEngine.ProcessEffects | src/engine/AdvancedGameEngine.js:137-186 | variables and inventory change exactly as in the stateless engine. Achievements keep their prefix and gain exactly the listed ids; the appended ids are new, repeat-free and in list order, and a repeat-free list stays repeat-free (the corrected unlock). Story, current node and history are unchanged |
| AdvancedEngine.ProcessEffectsAsWritten | src/engine/AdvancedGameEngine.js:174-180 | when the ids to unlock have no repeats, the achievements are exactly those of the code as written |
| AdvancedEngine.Deduct | src/engine/AdvancedGameEngine.js:192 | a number drops by the cost; a falsy value counts as 0, so it becomes minus the cost (no floor) |
| AdvancedEngine.DeductCosts | src/engine/AdvancedGameEngine.js:190-194 | each listed variable drops by its cost; the others keep their values |
| AdvancedEngine.ProcessCosts | src/engine/AdvancedGameEngine.js:188-205 | variables as in `DeductCosts`. The inventory loses the multiset of cost items, stays a subsequence and shrinks by at most their number. Nothing else changes |
| AdvancedEngine.ProcessCostsOneItem | src/engine/AdvancedGameEngine.js:197-204 | a cost of one item removes the first copy of it from the inventory, and nothing else |
| AdvancedEngine.ProcessCostsInOrder | src/engine/AdvancedGameEngine.js:197-204 | cost items are taken in list order: paying `first + second` leaves the inventory that paying `first` and then `second` leaves |
| AdvancedEngine.CostOfAbsentItems | src/engine/AdvancedGameEngine.js:199-202 | cost items the player lacks are skipped and the inventory is unchanged |
| AdvancedEngine.CostTakesOneCopy | src/engine/AdvancedGameEngine.js:168-171 | a cost takes one copy of an item, `remove_inventory` takes all copies |
| AdvancedEngine.NewEngine | src/engine/AdvancedGameEngine.js:6-15 | the constructor keeps the story and starts with no current node and empty variables, inventory, history and achievements; that engine is consistent and repeat-free |
| AdvancedEngine.Enter | src/engine/AdvancedGameEngine.js:37-38 | the stored node becomes current, under its own `id` field when it has one and under the key otherwise; the key is appended to the history; variables, inventory, achievements and story are untouched |
| AdvancedEngine.LoadNode | src/engine/AdvancedGameEngine.js:31-43 | an unknown id fails with `NodeNotFound` and nothing changes. Otherwise the node becomes current under its own id or the key, the key is appended to the history, and the node's effects are applied after that |
| AdvancedEngine.LoadNodeConsistent | src/engine/AdvancedGameEngine.js:37 | when nodes' own ids agree with their keys, the current id is the key entered and names the current node |
| AdvancedEngine.PayForChoice | src/engine/AdvancedGameEngine.js:64-72 | effects then costs leave story, current node and history alone |
| AdvancedEngine.MakeChoice | src/engine/AdvancedGameEngine.js:58-76 | an unavailable choice throws with no change. Otherwise effects, then costs, then entering the target; the history gains the target. A missing target throws with effects and costs already applied |
| AdvancedEngine.LoadNodeKeepsWellKept | src/engine/AdvancedGameEngine.js:31-43 | when nodes' own ids agree with their keys, entering a node leaves the current node equal to the story's node under the current id, and keeps the achievements repeat-free |
| AdvancedEngine.PayForChoiceKeepsWellKept | src/engine/AdvancedGameEngine.js:64-72 | paying for a choice keeps the current node consistent with the story and the achievements repeat-free |
| AdvancedEngine.MakeChoiceKeepsWellKept | src/engine/AdvancedGameEngine.js:58-76 | on every path (refused, missing target, entered), making a choice keeps the current node consistent with the story and the achievements repeat-free |
| AdvancedEngine.StartNode | src/engine/AdvancedGameEngine.js:25 | `start_node` unless absent or empty, else `"start"`; never empty |
| AdvancedEngine.InitializeGame | src/engine/AdvancedGameEngine.js:17-29 | the defined variables take their initial values and the others keep theirs. Then the start node is loaded into that engine: the result is exactly `LoadNode` of it, with the start key appended to the history. A missing start node throws with only the variables set |
| AdvancedEngine.InitializeGameKeepsWellKept | src/engine/AdvancedGameEngine.js:17-29 | starting a game keeps the current node consistent with the story and the achievements repeat-free |
| AdvancedEngine.GetGameState | src/engine/AdvancedGameEngine.js:273-282 | the snapshot's `currentNode` is the current node's id, and absent when no node is current. It carries the four player fields and the given timestamp |
| AdvancedEngine.Restore | src/engine/AdvancedGameEngine.js:285-288 | each of variables, inventory, history and achievements becomes the saved value when present and empty when missing; story and current node are kept |
| AdvancedEngine.LoadGameState | src/engine/AdvancedGameEngine.js:284-293 | the player fields are restored (missing ones empty). A named, known node is then loaded into the restored engine: the result is exactly `LoadNode` of it, so the history is the saved one plus that node and the node's effects apply. An empty or unknown node leaves just the restored fields |
| AdvancedEngine.SaveRestoreRoundTrip | src/engine/AdvancedGameEngine.js:273-293 | save then restore gives back the player's state with the current node entered again: history gains its id once more and its effects re-apply; without node effects it is the saved engine with one more history entry |
| AdvancedEngine.ProcessText | src/engine/AdvancedGameEngine.js:246-247 | absent or empty text gives `""` |
| AdvancedEngine.ProcessTextPlain | src/engine/AdvancedGameEngine.js:246-262 | text without `{` comes back unchanged |
| AdvancedEngine.ProcessTextPlaceholder | src/engine/AdvancedGameEngine.js:250-252 | `{name}` becomes the variable's text when defined and stays literal otherwise |
| AdvancedEngine.ProcessTextRendersTemplate | src/engine/AdvancedGameEngine.js:246-262 | on templates whose pieces the passes can tell apart, the three passes equal the single-pass rendering of the pieces |
| Interpolation.PassesRenderTemplate | src/engine/AdvancedGameEngine.js:249-262 | pass 1 turns each piece into its pass-1 text, pass 2 into its pass-2 text, pass 3 into its rendering, piece by piece |
| Interpolation.SubstituteVariables | src/engine/AdvancedGameEngine.js:250-252 | pass 1 leaves text with no `{` unchanged; its step at a placeholder is `SubstitutePlaceholder`, and `SubstituteNoVariables`, `SubstituteSkipsBlock` and `PassesRenderTemplate` characterise it further |
| Interpolation.SubstitutePlaceholder | src/engine/AdvancedGameEngine.js:250-252 | pass 1 replaces a `{word}` placeholder by the value's text if defined, else keeps it, and resumes after it |
| Interpolation.SubstituteNoVariables | src/engine/AdvancedGameEngine.js:250-252 | with no variables pass 1 is the identity |
| Interpolation.ReplaceCount | src/engine/AdvancedGameEngine.js:255 | pass 2 leaves text with no `{` unchanged; `ReplaceCountToken`, `ReplaceCountSkipsPlaceholder` and `ReplaceCountSkipsBlock` give its steps |
| Interpolation.ReplaceCountToken | src/engine/AdvancedGameEngine.js:255 | pass 2 replaces `{inventory_count}` by the count and resumes after it |
| Interpolation.ReplaceCountSkipsPlaceholder | src/engine/AdvancedGameEngine.js:255 | pass 2 leaves every other placeholder alone |
| Interpolation.ResolveConditionals | src/engine/AdvancedGameEngine.js:258-262 | pass 3 leaves text with no `{` unchanged; `ResolveConditionalsBlock` and `ResolveConditionalsSkipsPlaceholder` give its steps |
| Interpolation.ResolveConditionalsBlock | src/engine/AdvancedGameEngine.js:258-262 | pass 3 turns `{if:name}body{/if}` into the body when the variable is truthy and into nothing otherwise |
| Interpolation.ResolveConditionalsSkipsPlaceholder | src/engine/AdvancedGameEngine.js:258 | a `{name}` placeholder is not a block and passes pass 3 |
| Interpolation.SubstituteSkipsBlock | src/engine/AdvancedGameEngine.js:250 | a conditional block is untouched by pass 1 |
| Interpolation.ReplaceCountSkipsBlock | src/engine/AdvancedGameEngine.js:255 | a conditional block is untouched by pass 2 |
| Interpolation.IfBlockAtMatches | src/engine/AdvancedGameEngine.js:258 | a matched block is a word name and a `{`-free body spelled out at the start of the text |
| Interpolation.IfBlockAtOf | src/engine/AdvancedGameEngine.js:258 | every spelled-out block with a word name and `{`-free body is matched |
| Interpolation.PlaceholderAtMatches | src/engine/AdvancedGameEngine.js:250 | a matched placeholder is a word name in braces at the start of the text |
| Interpolation.PlaceholderAtOf | src/engine/AdvancedGameEngine.js:250 | every word name in braces is matched as a placeholder |
| AdvancedEngine.TorchStart | src/engine/AdvancedGameEngine.js:17-43 | starting the two-node story sets `gold` to 0, enters `start` and picks up the torch |
| AdvancedEngine.TorchDescend | src/engine/AdvancedGameEngine.js:58-76 | taking the gated choice ends at `end` with 3 gold, no torch, the `explorer` achievement and history `start, end` |
| AdvancedEngine.TorchRefused | src/engine/AdvancedGameEngine.js:58-62 | without the torch the choice is refused and nothing changes |
| AdvancedEngine.TorchRestore | src/engine/AdvancedGameEngine.js:284-293 | restoring a save at `end` with history `start, end` re-enters `end`: history `start, end, end` |
| GameContext.InitialState | src/context/GameContext.js:8-14 | empty library, no game, empty game state, not loading, no error |
| GameContext.Reduce | src/context/GameContext.js:16-35 | each action changes only its field. `SET_ERROR` also clears `loading`. `ADD_TO_LIBRARY` appends one game after the unchanged prefix. `LOAD_GAME` sets the game and empties the game state. `UPDATE_GAME_STATE` merges with payload keys winning and other keys kept. `SAVE_GAME_PROGRESS` and unknown actions return an equal state |
| GameContext.AddAllAppends | src/context/GameContext.js:24-25 | adding games one by one appends them in order and changes nothing else |
| GameContext.UpdatesCompose | src/context/GameContext.js:28-29 | two merges equal one merge of the second payload over the first |
| GameContext.UpdateIdempotent | src/context/GameContext.js:28-29 | repeating a merge changes nothing more |
| GameContext.LoadThenRestore | src/context/GameContext.js:26-29 | loading a game then merging its saved state leaves exactly that state |
| GameContext.LoadLibrarySucceeds | src/context/GameContext.js:44-55 | the successful library read leaves the stored library, loading off, the rest unchanged |
| GameContext.LoadLibraryFails | src/context/GameContext.js:44-55 | the failed library read keeps the library and records the error, loading off |

## Findings

| source | as written | input that shows it | evidently intended | confidence | as-written member | corrected member |
|---|---|---|---|---|---|---|
| src/engine/AdvancedGameEngine.js:175-179 | `unlock_achievements` is filtered against the achievement list as it was before the call, so an id listed twice passes the filter twice and is appended (and announced) twice | achievements `[]`, `unlock_achievements: ["gold", "gold"]` gives `["gold", "gold"]` | each id is unlocked at most once and the achievement list stays free of repeats | not executed; high, the result follows from the filter's argument alone | AdvancedEngine.UnlockAsWritten (shown by AdvancedEngine.UnlockAsWrittenDuplicates) | AdvancedEngine.Unlock (used by AdvancedEngine.ProcessEffects; AdvancedEngine.UnlockMatchesAsWritten shows the two agree on lists without repeats) |

## Left out

- `random` conditions and the `{random:...}` text pass: they draw from `Math.random` with floating-point probabilities. `OtherCondition` stands for every other condition type and does not cover `random`. `ProcessText` stops after the conditional-block pass.
- AdvancedEngine.ProcessEffects: it unlocks with the corrected `Unlock`, not with the code as written. An id listed twice in one `unlock_achievements` (achievements `[]`, list `["a", "a"]`) is unlocked once, where the code appends it twice. This is the defect logged under "## Findings". `LoadNode`, `MakeChoice`, `InitializeGame` and `LoadGameState` build on it and inherit the difference. `AdvancedEngine.ProcessEffectsAsWritten` shows the two agree whenever the list has no repeats.
- Concurrency: the `async` methods (`initializeGame`, `loadNode`, `makeChoice`, `processEffects`) are each one atomic step. `makeChoice` can suspend at `await this.processEffects(...)` (line 66) before `processCosts` runs, and `processEffects` can suspend while showing achievements (line 183). Callers are assumed to await each call, so no other call interleaves.
- The array form of `conditions` in the stateful engine: `isChoiceAvailable` reads only `choice.conditions.show_if` and `choice.conditions.enable_if` (`AdvancedGameEngine.js:79-93`). A choice whose `conditions` is the stateless engine's plain list has neither field there and is always available. The model stands for that case with `Gates(None, None)`.
- Audio (`playAudio`, `cleanup`), haptics, and the console and haptic side effects of `showAchievement`: these are platform calls. Unlocking is modelled as the state change alone.
- The engine's `settings` object: it only switches audio and haptics.
- The timestamp in `getGameState`: the clock reading is a parameter.
- Aliasing: `getGameState` returns the engine's own arrays and objects, and `loadGameState` adopts the caller's (`AdvancedGameEngine.js:285-288`), so a later `push` by either side changes the other's state. The model copies values.
- Numbers are integers. Floating-point arithmetic, fractional values and `Infinity` are not modelled.
- `Values.ToNumber`: only numbers, booleans and the empty string convert. A numeric string such as `"5"` counts as not numeric, so subtract and multiply on it give NaN (add concatenates, as in JavaScript) and ordering on it is false.
- `Values.Ordered`: ordering operators compare numbers, booleans and the empty string (which converts to 0) only. JavaScript's lexicographic comparison of two strings is not modelled; the model answers false.
- Variables whose value is `undefined`, `null`, objects or arrays: a `Value` is a number, string, boolean or NaN. An absent variable is `None`.
- Keys inherited through the object prototype (`{constructor}` in text, a node named `toString`) are not modelled. Maps hold only the document's own keys.
- GameEngine.EvaluateConditions: a condition list that is present but not an array counts as absent, since the document types hold lists only.
- `initializeGame`'s `true` result and `makeChoice`'s and `loadNode`'s returned node: the returned node is `engine.current` of the resulting engine.
- The provider part of `src/context/GameContext.js` (`GameProvider`, AsyncStorage, `Date.now` ids): this is I/O. Only the dispatch sequence of the library read is stated, as a lemma about the reducer.
