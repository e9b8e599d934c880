/** The stateful engine. The engine object's fields become an immutable `Engine` record and
    every method a function from the engine before the call to the engine after it. A method
    that throws yields a `Step`: the engine as the throw leaves it, with the error. */
module AdvancedEngine {
  import opened Wrappers
  import opened Values
  import opened Sequences
  import opened Story
  import GameEngine
  import opened Interpolation

  /** `currentNode`: the node entered, tagged with an id. The node's own `id` field, when it
      has one, overrides the key it was entered under. */
  datatype Entered = Entered(id: string, node: Node)

  datatype Engine = Engine(
    story: StoryDocument,
    current: Option<Entered>,
    variables: map<string, Value>,
    inventory: seq<string>,
    history: seq<string>,
    achievements: seq<string>)

  datatype EngineError = NodeNotFound(id: string) | ChoiceNotAvailable

  datatype Outcome = Completed | Threw(error: EngineError)

  /** The engine after a call that may throw, and how the call ended. */
  datatype Step = Step(engine: Engine, outcome: Outcome)

  /** A freshly constructed engine: nothing entered, no variables, empty lists. */
  function NewEngine(story: StoryDocument): (e: Engine)
    ensures e.story == story && e.current.None?
    ensures |e.variables| == 0 && |e.inventory| == 0 && |e.history| == 0 && |e.achievements| == 0
    ensures WellKept(e)
  {
    Engine(story, None, map[], [], [], [])
  }

  // ---------------------------------------------------------------------------
  // Conditions

  /** One condition, with `achievement` conditions answered from the unlocked list. */
  function ConditionHolds(e: Engine, c: Condition): (r: bool)
    ensures c.AchievementCondition? ==> (r <==> c.achievement in e.achievements)
    ensures !c.AchievementCondition? ==> r == GameEngine.ConditionHolds(c, e.variables, e.inventory)
  {
    match c
    case VariableCondition(name, op, target) => GameEngine.EvaluateVariableCondition(name, op, target, e.variables)
    case InventoryCondition(test, item) => GameEngine.EvaluateInventoryCondition(test, item, e.inventory)
    case AchievementCondition(a) => a in e.achievements
    case OtherCondition(_) => true
  }

  /** `evaluateConditions`: `conditions.every(...)`, scanning left to right. The list must be
      present; callers check that first. */
  function EvaluateConditions(e: Engine, conditions: seq<Condition>): (r: bool)
    ensures r <==> forall i :: 0 <= i < |conditions| ==> ConditionHolds(e, conditions[i])
  {
    if conditions == [] then true else ConditionHolds(e, conditions[0]) && EvaluateConditions(e, conditions[1..])
  }

  /** An `achievement` condition holds exactly when that achievement is unlocked. */
  lemma AchievementConditionHolds(e: Engine, a: string)
    ensures EvaluateConditions(e, [AchievementCondition(a)]) <==> a in e.achievements
  {
    assert [AchievementCondition(a)][0] == AchievementCondition(a);
  }

  /** On lists without `achievement` conditions both engines agree. */
  lemma AgreesWithStatelessEngine(e: Engine, conditions: seq<Condition>)
    requires forall i :: 0 <= i < |conditions| ==> !conditions[i].AchievementCondition?
    ensures EvaluateConditions(e, conditions) == GameEngine.EvaluateConditions(Some(conditions), e.variables, e.inventory)
  {
    forall i | 0 <= i < |conditions|
      ensures ConditionHolds(e, conditions[i]) == GameEngine.ConditionHolds(conditions[i], e.variables, e.inventory)
    {
    }
  }

  /** Every gating condition of a choice, `show_if` first. */
  function Gating(choice: Choice): seq<Condition> {
    match choice.conditions
    case None => []
    case Some(g) => g.showIf.GetOr([]) + g.enableIf.GetOr([])
  }

  /** The gates of a choice pass together exactly when all their conditions hold. */
  lemma GatesSplit(e: Engine, show: seq<Condition>, enable: seq<Condition>)
    ensures (EvaluateConditions(e, show) && EvaluateConditions(e, enable)) <==>
            forall i :: 0 <= i < |show + enable| ==> ConditionHolds(e, (show + enable)[i])
  {
    if EvaluateConditions(e, show) && EvaluateConditions(e, enable) {
      forall i | 0 <= i < |show + enable|
        ensures ConditionHolds(e, (show + enable)[i])
      {
        if i >= |show| {
          assert (show + enable)[i] == enable[i - |show|];
        }
      }
    }
    if forall i :: 0 <= i < |show + enable| ==> ConditionHolds(e, (show + enable)[i]) {
      forall i | 0 <= i < |show|
        ensures ConditionHolds(e, show[i])
      {
        assert (show + enable)[i] == show[i];
      }
      forall i | 0 <= i < |enable|
        ensures ConditionHolds(e, enable[i])
      {
        assert (show + enable)[|show| + i] == enable[i];
      }
    }
  }

  /** `isChoiceAvailable`: without conditions a choice is available; otherwise `show_if`
      and then `enable_if`, each only when present, must pass. */
  function IsChoiceAvailable(e: Engine, choice: Choice): (r: bool)
    ensures choice.conditions.None? ==> r
    ensures r <==> forall i :: 0 <= i < |Gating(choice)| ==> ConditionHolds(e, Gating(choice)[i])
  {
    match choice.conditions
    case None => true
    case Some(g) =>
      GatesSplit(e, g.showIf.GetOr([]), g.enableIf.GetOr([]));
      assert Gating(choice) == g.showIf.GetOr([]) + g.enableIf.GetOr([]);
      if g.showIf.Some? && !EvaluateConditions(e, g.showIf.value) then false
      else if g.enableIf.Some? && !EvaluateConditions(e, g.enableIf.value) then false
      else true
  }

  // ---------------------------------------------------------------------------
  // Achievements

  /** `unlock_achievements` as written: the listed ids not unlocked before the call are
      appended, all of them, so an id listed twice is appended twice. */
  function UnlockAsWritten(achievements: seq<string>, unlock: seq<string>): (r: seq<string>)
    ensures |achievements| <= |r| && r[..|achievements|] == achievements
    ensures forall a :: a in r <==> a in achievements || a in unlock
    ensures forall i :: |achievements| <= i < |r| ==> r[i] !in achievements
    ensures IsSubsequence(r[|achievements|..], unlock)
    ensures forall a :: a !in achievements ==> multiset(r[|achievements|..])[a] == multiset(unlock)[a]
  {
    var added := RemoveAll(unlock, achievements);
    assert (achievements + added)[|achievements|..] == added;
    achievements + added
  }

  /** An achievement listed twice is unlocked twice. */
  lemma UnlockAsWrittenDuplicates()
    ensures UnlockAsWritten([], ["gold", "gold"]) == ["gold", "gold"]
    ensures !NoDuplicates(UnlockAsWritten([], ["gold", "gold"]))
  {
    assert ["gold", "gold"][1..] == ["gold"];
    assert ["gold"][1..] == [];
    var r := UnlockAsWritten([], ["gold", "gold"]);
    assert r[0] == r[1];
  }

  /** Unlocking, one listed id at a time: an id is appended only when not yet unlocked. */
  function Unlock(achievements: seq<string>, unlock: seq<string>): (r: seq<string>)
    ensures |achievements| <= |r| && r[..|achievements|] == achievements
    ensures forall a :: a in r <==> a in achievements || a in unlock
    ensures forall i :: |achievements| <= i < |r| ==> r[i] !in achievements
    ensures IsSubsequence(r[|achievements|..], unlock)
    ensures NoDuplicates(r[|achievements|..])
    ensures NoDuplicates(achievements) ==> NoDuplicates(r)
    decreases |unlock|
  {
    if unlock == [] then achievements
    else
      var next := if unlock[0] in achievements then achievements else achievements + [unlock[0]];
      var r := Unlock(next, unlock[1..]);
      assert unlock == [unlock[0]] + unlock[1..];
      assert r[..|achievements|] == r[..|next|][..|achievements|];
      UnlockSuffixStep(achievements, unlock, next, r);
      r
  }

  /** The suffix facts of `Unlock` carry over from the rest of the list to the whole list. */
  lemma UnlockSuffixStep(achievements: seq<string>, unlock: seq<string>, next: seq<string>, r: seq<string>)
    requires unlock != []
    requires next == if unlock[0] in achievements then achievements else achievements + [unlock[0]]
    requires |next| <= |r| && r[..|next|] == next
    requires forall i :: |next| <= i < |r| ==> r[i] !in next
    requires IsSubsequence(r[|next|..], unlock[1..])
    requires NoDuplicates(r[|next|..])
    ensures forall i :: |achievements| <= i < |r| ==> r[i] !in achievements
    ensures IsSubsequence(r[|achievements|..], unlock)
    ensures NoDuplicates(r[|achievements|..])
  {
    var added := r[|achievements|..];
    if unlock[0] in achievements {
      SubsequenceSkip(added, unlock);
    } else {
      var x := unlock[0];
      assert r[|achievements|] == next[|achievements|] == x;
      assert added == [x] + r[|next|..];
      assert added[0] == x && added[1..] == r[|next|..];
      forall i | |achievements| <= i < |r|
        ensures r[i] !in achievements
      {
        if i == |achievements| {
        } else {
          assert r[i] !in next;
        }
      }
      forall i, j | 0 <= i < j < |added|
        ensures added[i] != added[j]
      {
        if i == 0 {
          assert added[j] == r[|achievements| + j];
          assert added[j] !in next;
        }
      }
    }
  }

  /** A single listed id is appended exactly when it is not yet unlocked. */
  lemma UnlockOne(achievements: seq<string>, x: string)
    ensures Unlock(achievements, [x]) == if x in achievements then achievements else achievements + [x]
  {
    assert [x][1..] == [];
  }

  /** Unlocking the ids of `u + v` is unlocking those of `u`, then those of `v`: the ids are
      taken in list order, each checked against what the earlier ones unlocked. */
  lemma {:induction false} UnlockAppend(achievements: seq<string>, u: seq<string>, v: seq<string>)
    ensures Unlock(achievements, u + v) == Unlock(Unlock(achievements, u), v)
    decreases |u|
  {
    if u == [] {
      assert u + v == v;
    } else {
      assert (u + v)[0] == u[0];
      assert (u + v)[1..] == u[1..] + v;
      var next := if u[0] in achievements then achievements else achievements + [u[0]];
      UnlockAppend(next, u[1..], v);
    }
  }

  /** After `x`, the list `[y, x]` appends only `y`. */
  lemma UnlockRepeatSkipped(x: string, y: string)
    requires x != y
    ensures Unlock([x], [y, x]) == [x, y]
  {
    var xs, ys, xy := [x], [y], [x, y];
    UnlockOne(xs, y);
    assert xs + ys == xy;
    UnlockOne(xy, x);
    UnlockAppend(xs, ys, xs);
    assert ys + xs == [y, x];
  }

  /** Ids are appended in the order of their first listing: unlocking `[x, y, x]` gives
      `[x, y]`, not `[y, x]`. */
  lemma UnlockKeepsListOrder(x: string, y: string)
    requires x != y
    ensures Unlock([], [x, y, x]) == [x, y]
  {
    UnlockAppend([], [x], [y, x]);
    assert [x] + [y, x] == [x, y, x];
    UnlockOne([], x);
    assert [] + [x] == [x];
    UnlockRepeatSkipped(x, y);
  }

  /** The inductive step on a listed id that is already unlocked. */
  lemma UnlockStepKnown(achievements: seq<string>, unlock: seq<string>)
    requires unlock != [] && unlock[0] in achievements
    requires Unlock(achievements, unlock[1..]) == UnlockAsWritten(achievements, unlock[1..])
    ensures Unlock(achievements, unlock) == UnlockAsWritten(achievements, unlock)
  {
    assert RemoveAll(unlock, achievements) == RemoveAll(unlock[1..], achievements);
  }

  /** Unlocking a new id appends it, then goes on with the rest of the list. */
  lemma UnlockAppends(achievements: seq<string>, unlock: seq<string>)
    requires unlock != [] && unlock[0] !in achievements
    ensures Unlock(achievements, unlock) == Unlock(achievements + [unlock[0]], unlock[1..])
  {
  }

  /** When the list to unlock has no repeats, the code as written already does the right thing. */
  lemma {:induction false} UnlockMatchesAsWritten(achievements: seq<string>, unlock: seq<string>)
    requires NoDuplicates(unlock)
    ensures Unlock(achievements, unlock) == UnlockAsWritten(achievements, unlock)
    decreases |unlock|
  {
    if unlock != [] {
      NoDuplicatesTail(unlock);
      if unlock[0] in achievements {
        UnlockMatchesAsWritten(achievements, unlock[1..]);
        UnlockStepKnown(achievements, unlock);
      } else {
        var x, tail := unlock[0], unlock[1..];
        UnlockMatchesAsWritten(achievements + [x], tail);
        UnlockAppends(achievements, unlock);
        RemoveAllKeepsHead(unlock, achievements);
        RemoveAllIgnoresAbsent(tail, achievements, x);
        ConcatStep(achievements, x, RemoveAll(tail, achievements),
                   Unlock(achievements, unlock), UnlockAsWritten(achievements, unlock));
      }
    }
  }

  // ---------------------------------------------------------------------------
  // Effects and costs

  /** `processEffects`: the variable and inventory changes of the stateless engine, then
      achievement unlocking. Nothing else changes. */
  function ProcessEffects(e: Engine, effects: EffectSet): (r: Engine)
    ensures var base := GameEngine.ProcessEffects(effects, e.variables, e.inventory);
            r.variables == base.newVars && r.inventory == base.newInventory
    ensures |e.achievements| <= |r.achievements| && r.achievements[..|e.achievements|] == e.achievements
    ensures forall a :: a in r.achievements <==> a in e.achievements || a in effects.unlockAchievements
    ensures forall i :: |e.achievements| <= i < |r.achievements| ==> r.achievements[i] !in e.achievements
    ensures IsSubsequence(r.achievements[|e.achievements|..], effects.unlockAchievements)
    ensures NoDuplicates(r.achievements[|e.achievements|..])
    ensures NoDuplicates(e.achievements) ==> NoDuplicates(r.achievements)
    ensures r.story == e.story && r.current == e.current && r.history == e.history
  {
    var base := GameEngine.ProcessEffects(effects, e.variables, e.inventory);
    Engine(e.story, e.current, base.newVars, base.newInventory, e.history,
           Unlock(e.achievements, effects.unlockAchievements))
  }

  /** When the ids to unlock have no repeats, `processEffects` unlocks exactly as the code
      is written. */
  lemma ProcessEffectsAsWritten(e: Engine, effects: EffectSet)
    requires NoDuplicates(effects.unlockAchievements)
    ensures ProcessEffects(e, effects).achievements == UnlockAsWritten(e.achievements, effects.unlockAchievements)
  {
    UnlockMatchesAsWritten(e.achievements, effects.unlockAchievements);
  }

  /** `(current || 0) - cost` for one variable. */
  function Deduct(current: Option<Value>, cost: int): (r: Value)
    ensures current.Some? && current.value.Num? ==> r == Num(current.value.n - cost)
    ensures !Truthy(current) ==> r == Num(-cost)
  {
    Arith(Subtract, OrZero(current), Num(cost))
  }

  /** The variable half of `processCosts`: each listed variable drops by its cost. */
  function DeductCosts(vars: map<string, Value>, costs: map<string, int>): (r: map<string, Value>)
    ensures r.Keys == vars.Keys + costs.Keys
    ensures forall name :: name in costs ==> r[name] == Deduct(Lookup(vars, name), costs[name])
    ensures forall name :: name in vars && name !in costs ==> r[name] == vars[name]
  {
    map name | name in vars.Keys + costs.Keys ::
      if name in costs then Deduct(Lookup(vars, name), costs[name]) else vars[name]
  }

  /** `processCosts`: each listed variable drops by its cost, with no floor, then each
      listed item loses its first occurrence, if any. */
  function ProcessCosts(e: Engine, cost: Cost): (r: Engine)
    ensures r.variables == DeductCosts(e.variables, cost.variables)
    ensures multiset(r.inventory) == multiset(e.inventory) - multiset(cost.inventory)
    ensures IsSubsequence(r.inventory, e.inventory)
    ensures |e.inventory| - |cost.inventory| <= |r.inventory| <= |e.inventory|
    ensures r.story == e.story && r.current == e.current && r.history == e.history && r.achievements == e.achievements
  {
    Engine(e.story, e.current, DeductCosts(e.variables, cost.variables), RemoveEach(e.inventory, cost.inventory),
           e.history, e.achievements)
  }

  /** A cost naming items the player does not carry leaves the inventory as it was. */
  lemma CostOfAbsentItems(e: Engine, cost: Cost)
    requires forall i :: 0 <= i < |cost.inventory| ==> cost.inventory[i] !in e.inventory
    ensures ProcessCosts(e, cost).inventory == e.inventory
  {
    RemoveEachAbsent(e.inventory, cost.inventory);
  }

  /** A cost of one item takes the first copy of it, if any. */
  lemma ProcessCostsOneItem(e: Engine, variables: map<string, int>, item: string)
    ensures ProcessCosts(e, Cost(variables, [item])).inventory == RemoveFirst(e.inventory, item)
  {
    RemoveEachOne(e.inventory, item);
  }

  /** The listed items are taken in order, each from what the earlier ones left. */
  lemma ProcessCostsInOrder(e: Engine, first: seq<string>, second: seq<string>)
    ensures ProcessCosts(e, Cost(map[], first + second)).inventory ==
            ProcessCosts(ProcessCosts(e, Cost(map[], first)), Cost(map[], second)).inventory
  {
    RemoveEachAppend(e.inventory, first, second);
  }

  /** A cost takes one copy of an item, where `remove_inventory` takes every copy. */
  lemma CostTakesOneCopy(e: Engine, item: string)
    requires e.inventory == [item, item]
    ensures ProcessCosts(e, Cost(map[], [item])).inventory == [item]
    ensures ProcessEffects(e, EffectSet(map[], map[], [], [item], [])).inventory == []
  {
    RemoveAllVersusRemoveEach(item);
    RemovalTakesAllCopies(e, item);
  }

  /** `remove_inventory` of an item held twice leaves neither copy. */
  lemma RemovalTakesAllCopies(e: Engine, item: string)
    requires e.inventory == [item, item]
    ensures ProcessEffects(e, EffectSet(map[], map[], [], [item], [])).inventory == []
  {
    var effects := EffectSet(map[], map[], [], [item], []);
    var base := GameEngine.ProcessEffects(effects, e.variables, e.inventory);
    assert base.newInventory == RemoveAll(e.inventory + [], [item]);
    assert e.inventory + [] == [item, item];
    RemoveAllVersusRemoveEach(item);
  }

  // ---------------------------------------------------------------------------
  // Entering nodes and choosing

  /** The engine just after entering the node at key `id`, before its effects. */
  function Enter(e: Engine, id: string): (r: Engine)
    requires id in e.story.nodes
    ensures r.current.Some? && r.current.value.node == e.story.nodes[id]
    ensures e.story.nodes[id].id.None? ==> r.current.value.id == id
    ensures e.story.nodes[id].id.Some? ==> r.current.value.id == e.story.nodes[id].id.value
    ensures r.history == e.history + [id]
    ensures r.story == e.story && r.variables == e.variables && r.inventory == e.inventory
    ensures r.achievements == e.achievements
  {
    var node := e.story.nodes[id];
    e.(current := Some(Entered(node.id.GetOr(id), node)), history := e.history + [id])
  }

  /** `loadNode`: an unknown id throws before anything changes; otherwise the node becomes
      current, its key is appended to the history, and then its effects apply. */
  function LoadNode(e: Engine, id: string): (r: Result<Engine, EngineError>)
    ensures id !in e.story.nodes <==> r == Failure(NodeNotFound(id))
    ensures r.Success? ==>
              var node := e.story.nodes[id];
              && r.value.story == e.story
              && r.value.current == Some(Entered(node.id.GetOr(id), node))
              && r.value.history == e.history + [id]
              && r.value == (if node.effects.Some? then ProcessEffects(Enter(e, id), node.effects.value) else Enter(e, id))
  {
    if id !in e.story.nodes then Failure(NodeNotFound(id))
    else
      var node := e.story.nodes[id];
      var entered := Enter(e, id);
      Success(if node.effects.Some? then ProcessEffects(entered, node.effects.value) else entered)
  }

  /** Every node's own `id` field, when present, is the key it is stored under. */
  predicate OwnIdsAgree(story: StoryDocument) {
    forall key :: key in story.nodes && story.nodes[key].id.Some? ==> story.nodes[key].id.value == key
  }

  /** The current node is the story's node under the current id. */
  predicate Consistent(e: Engine) {
    e.current.Some? ==> e.current.value.id in e.story.nodes && e.story.nodes[e.current.value.id] == e.current.value.node
  }

  /** Entering a node keeps the engine consistent when nodes' own ids agree with their keys. */
  lemma LoadNodeConsistent(e: Engine, id: string)
    requires OwnIdsAgree(e.story) && id in e.story.nodes
    ensures LoadNode(e, id).value.current.value.id == id
    ensures Consistent(LoadNode(e, id).value)
  {
  }

  /** The choice's effects, then its costs. */
  function PayForChoice(e: Engine, choice: Choice): (r: Engine)
    ensures r.story == e.story && r.current == e.current && r.history == e.history
  {
    var afterEffects := if choice.effects.Some? then ProcessEffects(e, choice.effects.value) else e;
    if choice.cost.Some? then ProcessCosts(afterEffects, choice.cost.value) else afterEffects
  }

  /** `makeChoice`: an unavailable choice throws with nothing changed. Otherwise the effects
      and the costs apply and the target is entered; a missing target throws after the
      effects and costs have already applied. */
  function MakeChoice(e: Engine, choice: Choice): (r: Step)
    ensures !IsChoiceAvailable(e, choice) ==> r == Step(e, Threw(ChoiceNotAvailable))
    ensures IsChoiceAvailable(e, choice) && choice.target !in e.story.nodes ==>
              r == Step(PayForChoice(e, choice), Threw(NodeNotFound(choice.target)))
    ensures IsChoiceAvailable(e, choice) && choice.target in e.story.nodes ==>
              && r.outcome == Completed
              && r.engine == LoadNode(PayForChoice(e, choice), choice.target).value
              && r.engine.history == e.history + [choice.target]
    ensures r.engine.story == e.story
  {
    if !IsChoiceAvailable(e, choice) then Step(e, Threw(ChoiceNotAvailable))
    else
      var paid := PayForChoice(e, choice);
      match LoadNode(paid, choice.target)
      case Success(next) => Step(next, Completed)
      case Failure(error) => Step(paid, Threw(error))
  }

  /** An engine whose current node is the story's node under the current id, and whose
      achievement list has no repeats. */
  predicate WellKept(e: Engine) {
    Consistent(e) && NoDuplicates(e.achievements)
  }

  /** Entering a node keeps the engine well kept when nodes' own ids agree with their keys. */
  lemma LoadNodeKeepsWellKept(e: Engine, id: string)
    requires OwnIdsAgree(e.story) && NoDuplicates(e.achievements) && id in e.story.nodes
    ensures WellKept(LoadNode(e, id).value)
  {
    LoadNodeConsistent(e, id);
    var entered := Enter(e, id);
    assert entered.achievements == e.achievements;
  }

  /** Paying for a choice keeps the engine well kept. */
  lemma PayForChoiceKeepsWellKept(e: Engine, choice: Choice)
    requires WellKept(e)
    ensures WellKept(PayForChoice(e, choice))
  {
    var afterEffects := if choice.effects.Some? then ProcessEffects(e, choice.effects.value) else e;
    assert WellKept(afterEffects);
  }

  /** Whatever the choice, `makeChoice` keeps the engine well kept: the current node stays
      the story's node under its id and no achievement is unlocked twice. */
  lemma MakeChoiceKeepsWellKept(e: Engine, choice: Choice)
    requires OwnIdsAgree(e.story) && WellKept(e)
    ensures WellKept(MakeChoice(e, choice).engine)
  {
    if IsChoiceAvailable(e, choice) {
      PayForChoiceKeepsWellKept(e, choice);
      if choice.target in e.story.nodes {
        LoadNodeKeepsWellKept(PayForChoice(e, choice), choice.target);
      }
    }
  }

  /** `start_node`, unless absent or empty, else `"start"`. */
  function StartNode(story: StoryDocument): (id: string)
    ensures id != ""
    ensures story.startNode.Some? && story.startNode.value != "" ==> id == story.startNode.value
  {
    if story.startNode.Some? && story.startNode.value != "" then story.startNode.value else "start"
  }

  /** `initializeGame`: the defined variables take their initial values (others keep theirs),
      then the start node is entered; a missing start node throws after the variables are set. */
  function InitializeGame(e: Engine): (r: Step)
    ensures var defs := e.story.variables.GetOr(map[]);
            var start := StartNode(e.story);
            var initialised := e.(variables := e.variables + GameEngine.InitializeVariables(defs));
            && (start !in e.story.nodes ==> r == Step(initialised, Threw(NodeNotFound(start))))
            && (start in e.story.nodes ==> r == Step(LoadNode(initialised, start).value, Completed))
            && (start !in e.story.nodes ==>
                  && r.outcome == Threw(NodeNotFound(start))
                  && r.engine.current == e.current && r.engine.history == e.history
                  && (forall name :: name in defs ==> name in r.engine.variables && r.engine.variables[name] == defs[name].initialValue))
            && (start in e.story.nodes ==>
                  && r.outcome == Completed
                  && r.engine.history == e.history + [start]
                  && r.engine.current.Some?)
            && (start in e.story.nodes && e.story.nodes[start].effects.None? ==>
                  && (forall name :: name in defs ==> name in r.engine.variables && r.engine.variables[name] == defs[name].initialValue)
                  && (forall name :: name in e.variables && name !in defs ==> name in r.engine.variables && r.engine.variables[name] == e.variables[name]))
  {
    var defs := e.story.variables.GetOr(map[]);
    var withVariables := e.(variables := e.variables + GameEngine.InitializeVariables(defs));
    match LoadNode(withVariables, StartNode(e.story))
    case Success(next) => Step(next, Completed)
    case Failure(error) => Step(withVariables, Threw(error))
  }

  /** Starting a game keeps the engine well kept. */
  lemma InitializeGameKeepsWellKept(e: Engine)
    requires OwnIdsAgree(e.story) && WellKept(e)
    ensures WellKept(InitializeGame(e).engine)
  {
    var defs := e.story.variables.GetOr(map[]);
    var initialised := e.(variables := e.variables + GameEngine.InitializeVariables(defs));
    if StartNode(e.story) in e.story.nodes {
      LoadNodeKeepsWellKept(initialised, StartNode(e.story));
    }
  }

  // ---------------------------------------------------------------------------
  // Saving and restoring

  /** A saved game. A field read back from storage may be missing. */
  datatype Snapshot = Snapshot(
    currentNode: Option<string>,
    variables: Option<map<string, Value>>,
    inventory: Option<seq<string>>,
    history: Option<seq<string>>,
    achievements: Option<seq<string>>,
    timestamp: Option<string>)

  /** `getGameState`, with the clock reading passed in. */
  function GetGameState(e: Engine, timestamp: string): (s: Snapshot)
    ensures s.currentNode.Some? <==> e.current.Some?
    ensures e.current.Some? ==> s.currentNode == Some(e.current.value.id)
    ensures s.timestamp == Some(timestamp)
    ensures s.variables == Some(e.variables) && s.inventory == Some(e.inventory)
    ensures s.history == Some(e.history) && s.achievements == Some(e.achievements)
  {
    Snapshot(
      if e.current.Some? then Some(e.current.value.id) else None,
      Some(e.variables), Some(e.inventory), Some(e.history), Some(e.achievements), Some(timestamp))
  }

  /** The four player fields of a snapshot, missing ones empty; the current node is kept. */
  function Restore(e: Engine, s: Snapshot): (r: Engine)
    ensures r.story == e.story && r.current == e.current
    ensures s.variables.Some? ==> r.variables == s.variables.value
    ensures s.variables.None? ==> |r.variables| == 0
    ensures s.inventory.Some? ==> r.inventory == s.inventory.value
    ensures s.inventory.None? ==> |r.inventory| == 0
    ensures s.history.Some? ==> r.history == s.history.value
    ensures s.history.None? ==> |r.history| == 0
    ensures s.achievements.Some? ==> r.achievements == s.achievements.value
    ensures s.achievements.None? ==> |r.achievements| == 0
  {
    e.(variables := s.variables.GetOr(map[]),
       inventory := s.inventory.GetOr([]),
       history := s.history.GetOr([]),
       achievements := s.achievements.GetOr([]))
  }

  /** `loadGameState`: restores the player fields, then re-enters the saved node when one
      is named. Re-entering is not awaited, so an unknown node is dropped silently and the
      current node stays as it was. */
  function LoadGameState(e: Engine, s: Snapshot): (r: Engine)
    ensures r.story == e.story
    ensures (s.currentNode.None? || s.currentNode == Some("")) ==> r == Restore(e, s)
    ensures s.currentNode.Some? && s.currentNode.value != "" && s.currentNode.value !in e.story.nodes ==>
              r == Restore(e, s)
    ensures s.currentNode.Some? && s.currentNode.value in e.story.nodes && s.currentNode.value != "" ==>
              && r == LoadNode(Restore(e, s), s.currentNode.value).value
              && r.history == s.history.GetOr([]) + [s.currentNode.value]
  {
    var restored := Restore(e, s);
    if s.currentNode.Some? && s.currentNode.value != "" then
      match LoadNode(restored, s.currentNode.value)
      case Success(next) => next
      case Failure(_) => restored
    else restored
  }

  /** Saving and restoring into an engine on the same story gives back the player's state,
      except that the current node is entered again: its key is appended to the history
      once more and its effects apply a second time. */
  lemma SaveRestoreRoundTrip(e: Engine, target: Engine, timestamp: string)
    requires target.story == e.story && Consistent(e) && OwnIdsAgree(e.story)
    ensures var r := LoadGameState(target, GetGameState(e, timestamp));
            && (e.current.None? ==> r == e.(current := target.current))
            && (e.current.Some? && e.current.value.id != "" ==>
                  && r == LoadNode(e, e.current.value.id).value
                  && r.current == e.current
                  && r.history == e.history + [e.current.value.id])
            && (e.current.Some? && e.current.value.id != "" && e.current.value.node.effects.None? ==>
                  r == e.(history := e.history + [e.current.value.id]))
  {
    var s := GetGameState(e, timestamp);
    assert Restore(target, s) == e.(current := target.current);
    if e.current.Some? && e.current.value.id != "" {
      var id := e.current.value.id;
      LoadNodeConsistent(e, id);
      assert Enter(e.(current := target.current), id) == Enter(e, id);
    }
  }

  // ---------------------------------------------------------------------------
  // Text

  /** `processText`: absent or empty text gives `""`; otherwise the variable, inventory-count
      and conditional-block passes run in that order. */
  function ProcessText(e: Engine, text: Option<string>): (r: string)
    ensures text.None? || text == Some("") ==> r == ""
  {
    if text.None? || text.value == "" then ""
    else
      var count := IntToString(|e.inventory|);
      ResolveConditionals(ReplaceCount(SubstituteVariables(text.value, e.variables), count), e.variables)
  }

  /** Text without `{` comes back unchanged. */
  lemma ProcessTextPlain(e: Engine, t: string)
    requires '{' !in t
    ensures ProcessText(e, Some(t)) == t
  {
    var count := IntToString(|e.inventory|);
    SubstituteVariablesPrefix(t, [], e.variables);
    ReplaceCountPrefix(t, [], count);
    ResolveConditionalsPrefix(t, [], e.variables);
    assert t + [] == t;
  }

  /** On a template the three passes can tell apart, `processText` renders every piece
      in place: defined placeholders become values, undefined ones stay literal,
      `{inventory_count}` becomes the item count and blocks are kept or dropped. */
  lemma ProcessTextRendersTemplate(e: Engine, ps: seq<Piece>)
    requires forall i :: 0 <= i < |ps| ==> WellFormedPiece(ps[i], e.variables)
    ensures ProcessText(e, Some(TemplateText(ps))) == Render(ps, e.variables, IntToString(|e.inventory|))
  {
    var count := IntToString(|e.inventory|);
    assert forall i :: 0 <= i < |count| ==> count[i] != '{';
    PassesRenderTemplate(ps, e.variables, count);
    if TemplateText(ps) == "" {
      SubstituteNoVariables([]);
      assert SubstituteVariables([], e.variables) == [];
    }
  }

  /** A lone placeholder becomes the variable's text when it is defined and stays as it is
      otherwise. */
  lemma ProcessTextPlaceholder(e: Engine, name: string)
    requires IsWord(name) && name != "inventory_count"
    requires name in e.variables ==> '{' !in ToText(Some(e.variables[name]))
    ensures ProcessText(e, Some("{" + name + "}")) ==
            if name in e.variables then ToText(Some(e.variables[name])) else "{" + name + "}"
  {
    var p := Placeholder(name);
    SinglePiece(p, e.variables, IntToString(|e.inventory|));
    ProcessTextRendersTemplate(e, [p]);
  }

  // ---------------------------------------------------------------------------
  // A short play-through

  /** The one choice of the start node below: shown only to a player with a torch, it sets
      `gold` to 5, unlocks `explorer`, costs 2 gold and the torch, and leads to `end`. */
  function Descend(): Choice {
    Choice("descend", "Go deeper", "end",
      Some(Gates(Some([InventoryCondition(Has, "torch")]), None)),
      Some(EffectSet(map["gold" := Num(5)], map[], [], [], ["explorer"])),
      Some(Cost(map["gold" := 2], ["torch"])))
  }

  function CaveNode(): Node {
    Node(None, Some("Cave"), None, [Descend()], Some(EffectSet(map[], map[], ["torch"], [], [])))
  }

  function DaylightNode(): Node {
    Node(None, Some("Daylight"), None, [], None)
  }

  /** A two-node story: entering `start` hands the player a torch; `gold` starts at 0. */
  function TorchStory(): StoryDocument {
    StoryDocument(map["start" := CaveNode(), "end" := DaylightNode()], None,
                  Some(map["gold" := VariableDefinition(Num(0))]))
  }

  /** The engine once the torch story has started. */
  function TorchStarted(): Engine {
    Engine(TorchStory(), Some(Entered("start", CaveNode())), map["gold" := Num(0)], ["torch"], ["start"], [])
  }

  /** Starting the torch story sets `gold` to 0, enters `start` and picks up the torch. */
  lemma TorchStart()
    ensures InitializeGame(NewEngine(TorchStory())) == Step(TorchStarted(), Completed)
  {
    TorchStartVariables();
    TorchEntersStart();
  }

  /** The torch story's variable definitions give `gold` the value 0, and it starts at `start`. */
  lemma TorchStartVariables()
    ensures StartNode(TorchStory()) == "start"
    ensures NewEngine(TorchStory()).variables + GameEngine.InitializeVariables(TorchStory().variables.GetOr(map[])) ==
            map["gold" := Num(0)]
  {
  }

  /** Entering `start` with `gold` at 0 picks up the torch. */
  lemma TorchEntersStart()
    ensures LoadNode(NewEngine(TorchStory()).(variables := map["gold" := Num(0)]), "start") == Success(TorchStarted())
  {
    var withGold := NewEngine(TorchStory()).(variables := map["gold" := Num(0)]);
    var entered := Enter(withGold, "start");
    assert entered == Engine(TorchStory(), Some(Entered("start", CaveNode())), map["gold" := Num(0)], [], ["start"], []);
    RemoveAllNothing(["torch"]);
    assert [] + ["torch"] == ["torch"];
    assert ProcessEffects(entered, CaveNode().effects.value) == TorchStarted();
  }

  /** The choice's effects: `gold` becomes 5 and `explorer` is unlocked. */
  lemma TorchDescendEffects()
    ensures ProcessEffects(TorchStarted(), Descend().effects.value) ==
            TorchStarted().(variables := map["gold" := Num(5)], achievements := ["explorer"])
  {
    RemoveAllNothing(["torch"]);
    assert ["torch"] + [] == ["torch"];
    assert Unlock([], ["explorer"]) == ["explorer"] by {
      assert ["explorer"][1..] == [];
    }
  }

  /** The choice's cost: 2 gold and the torch. */
  lemma TorchDescendCost()
    ensures ProcessCosts(TorchStarted().(variables := map["gold" := Num(5)], achievements := ["explorer"]), Descend().cost.value) ==
            TorchStarted().(variables := map["gold" := Num(3)], inventory := [], achievements := ["explorer"])
  {
    assert RemoveEach(["torch"], ["torch"]) == [] by {
      assert RemoveFirst(["torch"], "torch") == [];
      assert ["torch"][1..] == [];
    }
  }

  /** The engine once the choice is paid for, before `end` is entered. */
  function TorchPaid(): Engine {
    TorchStarted().(variables := map["gold" := Num(3)], inventory := [], achievements := ["explorer"])
  }

  /** With the torch the choice is available. */
  lemma TorchAvailable()
    ensures IsChoiceAvailable(TorchStarted(), Descend())
  {
    assert Gating(Descend()) == [InventoryCondition(Has, "torch")];
  }

  /** Paying for the choice: effects, then cost. */
  lemma TorchPays()
    ensures PayForChoice(TorchStarted(), Descend()) == TorchPaid()
  {
    TorchDescendEffects();
    TorchDescendCost();
  }

  /** Entering `end`, a node without effects. */
  lemma TorchEntersEnd()
    ensures LoadNode(TorchPaid(), "end") ==
            Success(Engine(TorchStory(), Some(Entered("end", DaylightNode())), map["gold" := Num(3)], [], ["start", "end"], ["explorer"]))
  {
    assert ["start"] + ["end"] == ["start", "end"];
  }

  /** Taking the choice with the torch ends at `end` with 3 gold, no torch and `explorer`. */
  lemma TorchDescend()
    ensures MakeChoice(TorchStarted(), Descend()) ==
            Step(Engine(TorchStory(), Some(Entered("end", DaylightNode())), map["gold" := Num(3)], [], ["start", "end"], ["explorer"]),
                 Completed)
  {
    TorchAvailable();
    TorchPays();
    TorchEntersEnd();
  }

  /** Without the torch the choice is refused and nothing changes. */
  lemma TorchRefused()
    ensures MakeChoice(TorchStarted().(inventory := []), Descend()) ==
            Step(TorchStarted().(inventory := []), Threw(ChoiceNotAvailable))
  {
    assert Gating(Descend())[0] == InventoryCondition(Has, "torch");
  }

  /** Restoring a save taken at `end` re-enters `end`: the history grows to three entries. */
  lemma TorchRestore()
    ensures var saved := Snapshot(Some("end"), Some(map[]), Some(["torch"]), Some(["start", "end"]), None, None);
            var r := LoadGameState(NewEngine(TorchStory()), saved);
            && r.current == Some(Entered("end", DaylightNode()))
            && r.history == ["start", "end", "end"]
            && r.inventory == ["torch"]
            && r.variables == map[]
  {
    assert ["start", "end"] + ["end"] == ["start", "end", "end"];
  }
}
