/** The stateless engine: pure functions over a variable map and an inventory list. */
module GameEngine {
  import opened Wrappers
  import opened Values
  import opened Sequences
  import opened Story

  /** The starting variable map: each defined variable bound to its initial value. */
  function InitializeVariables(definitions: map<string, VariableDefinition>): (vars: map<string, Value>)
    ensures vars.Keys == definitions.Keys
    ensures forall name :: name in definitions ==> vars[name] == definitions[name].initialValue
  {
    map name | name in definitions :: definitions[name].initialValue
  }

  /** A `variable` condition: the variable's current value (possibly undefined) compared
      with the literal `target`. */
  function EvaluateVariableCondition(name: string, op: Comparison, target: Value, vars: map<string, Value>): (r: bool)
    ensures op == Eq ==> (r <==> name in vars && vars[name] == target && target != NaN)
    ensures op == Ne ==> (r <==> !(name in vars && vars[name] == target && target != NaN))
    ensures op in {Lt, Gt, Le, Ge} && name !in vars ==> !r
    ensures op in {Lt, Gt, Le, Ge} && name in vars && vars[name].Num? && target.Num? ==>
              (r <==> match op
                      case Lt => vars[name].n < target.n
                      case Gt => vars[name].n > target.n
                      case Le => vars[name].n <= target.n
                      case _ => vars[name].n >= target.n)
    ensures op == Contains ==>
              (r <==> exists i :: OccursAt(ToText(Lookup(vars, name)), ToText(Some(target)), i))
    ensures op.OtherComparison? ==> r
  {
    var value := Lookup(vars, name);
    match op
    case Eq => StrictEquals(value, target)
    case Ne => !StrictEquals(value, target)
    case Lt => Ordered(Less, value, target)
    case Gt => Ordered(Greater, value, target)
    case Le => Ordered(AtMost, value, target)
    case Ge => Ordered(AtLeast, value, target)
    case Contains =>
      IncludesIffOccurs(ToText(value), ToText(Some(target)));
      Includes(ToText(value), ToText(Some(target)))
    case OtherComparison(_) => true
  }

  /** An `inventory` condition. */
  function EvaluateInventoryCondition(test: InventoryTest, item: string, inventory: seq<string>): (r: bool)
    ensures test == Has ==> (r <==> item in inventory)
    ensures test == NotHas ==> (r <==> item !in inventory)
    ensures test.OtherInventoryTest? ==> r
  {
    match test
    case Has => item in inventory
    case NotHas => item !in inventory
    case OtherInventoryTest(_) => true
  }

  /** One condition as this engine sees it: it knows `variable` and `inventory` conditions
      only, so every other type, `achievement` included, passes. */
  function ConditionHolds(c: Condition, vars: map<string, Value>, inventory: seq<string>): (r: bool)
    ensures c.VariableCondition? && c.op == Eq ==>
              (r <==> c.variable in vars && vars[c.variable] == c.target && c.target != NaN)
    ensures c.InventoryCondition? && c.test == Has ==> (r <==> c.item in inventory)
    ensures c.InventoryCondition? && c.test == NotHas ==> (r <==> c.item !in inventory)
    ensures c.AchievementCondition? || c.OtherCondition? ==> r
  {
    match c
    case VariableCondition(name, op, target) => EvaluateVariableCondition(name, op, target, vars)
    case InventoryCondition(test, item) => EvaluateInventoryCondition(test, item, inventory)
    case _ => true
  }

  /** `conditions.every(...)`, scanning left to right. */
  function AllHold(conditions: seq<Condition>, vars: map<string, Value>, inventory: seq<string>): (r: bool)
    ensures r <==> forall i :: 0 <= i < |conditions| ==> ConditionHolds(conditions[i], vars, inventory)
  {
    if conditions == [] then true
    else ConditionHolds(conditions[0], vars, inventory) && AllHold(conditions[1..], vars, inventory)
  }

  /** A missing (or non-list) condition list passes; otherwise every condition must hold. */
  function EvaluateConditions(conditions: Option<seq<Condition>>, vars: map<string, Value>, inventory: seq<string>): (r: bool)
    ensures conditions.None? ==> r
    ensures conditions.Some? ==>
              (r <==> forall i :: 0 <= i < |conditions.value| ==> ConditionHolds(conditions.value[i], vars, inventory))
  {
    match conditions
    case None => true
    case Some(cs) => AllHold(cs, vars, inventory)
  }

  /** A condition list passes exactly when both of its halves pass. */
  lemma EvaluateConditionsSplit(a: seq<Condition>, b: seq<Condition>, vars: map<string, Value>, inventory: seq<string>)
    ensures EvaluateConditions(Some(a + b), vars, inventory) ==
            (EvaluateConditions(Some(a), vars, inventory) && EvaluateConditions(Some(b), vars, inventory))
  {
    if EvaluateConditions(Some(a), vars, inventory) && EvaluateConditions(Some(b), vars, inventory) {
      forall i | 0 <= i < |a + b|
        ensures ConditionHolds((a + b)[i], vars, inventory)
      {
        if i >= |a| {
          assert (a + b)[i] == b[i - |a|];
        }
      }
    }
    if EvaluateConditions(Some(a + b), vars, inventory) {
      forall i | 0 <= i < |a|
        ensures ConditionHolds(a[i], vars, inventory)
      {
        assert (a + b)[i] == a[i];
      }
      forall i | 0 <= i < |b|
        ensures ConditionHolds(b[i], vars, inventory)
      {
        assert (a + b)[|a| + i] == b[i];
      }
    }
  }

  // ---------------------------------------------------------------------------
  // Effects

  /** The new value of a modified variable from its current (post-set) value:
      `add`, `subtract` and `multiply` work on `current || 0`; any other operation sets. */
  function ModifyValue(m: Modification, current: Option<Value>): (r: Value)
    ensures m.operation !in {"add", "subtract", "multiply"} ==> r == m.value
    ensures !Truthy(current) && m.value.Num? ==>
              r == match m.operation
                   case "add" => m.value
                   case "subtract" => Num(-m.value.n)
                   case "multiply" => Num(0)
                   case _ => m.value
    ensures current.Some? && current.value.Num? && m.value.Num? ==>
              r == match m.operation
                   case "add" => Num(current.value.n + m.value.n)
                   case "subtract" => Num(current.value.n - m.value.n)
                   case "multiply" => Num(current.value.n * m.value.n)
                   case _ => m.value
  {
    match m.operation
    case "add" => Arith(Add, OrZero(current), m.value)
    case "subtract" => Arith(Subtract, OrZero(current), m.value)
    case "multiply" => Arith(Multiply, OrZero(current), m.value)
    case _ => m.value
  }

  /** Applies every entry of `modify_variables`; each entry touches only its own variable,
      so the order of the entries does not matter. */
  function ApplyModifications(vars: map<string, Value>, mods: map<string, Modification>): (r: map<string, Value>)
    ensures r.Keys == vars.Keys + mods.Keys
    ensures forall name :: name in mods ==> r[name] == ModifyValue(mods[name], Lookup(vars, name))
    ensures forall name :: name in vars && name !in mods ==> r[name] == vars[name]
  {
    map name | name in vars.Keys + mods.Keys ::
      if name in mods then ModifyValue(mods[name], Lookup(vars, name)) else vars[name]
  }

  datatype EffectResult = EffectResult(newVars: map<string, Value>, newInventory: seq<string>)

  /** `processEffects`: builds new variables and a new inventory, in the order
      set → modify → add → remove. The inputs are values and stay as they were. */
  function ProcessEffects(effects: EffectSet, vars: map<string, Value>, inventory: seq<string>): (r: EffectResult)
    ensures r.newVars.Keys == vars.Keys + effects.setVariables.Keys + effects.modifyVariables.Keys
    ensures forall name :: name in effects.modifyVariables ==>
              r.newVars[name] == ModifyValue(effects.modifyVariables[name],
                                             if name in effects.setVariables then Some(effects.setVariables[name])
                                             else Lookup(vars, name))
    ensures forall name :: name in effects.setVariables && name !in effects.modifyVariables ==>
              r.newVars[name] == effects.setVariables[name]
    ensures forall name :: name in vars && name !in effects.setVariables && name !in effects.modifyVariables ==>
              r.newVars[name] == vars[name]
    ensures IsSubsequence(r.newInventory, inventory + effects.addInventory)
    ensures forall item :: item in r.newInventory <==>
              (item in inventory || item in effects.addInventory) && item !in effects.removeInventory
    ensures forall item :: item !in effects.removeInventory ==>
              multiset(r.newInventory)[item] == multiset(inventory)[item] + multiset(effects.addInventory)[item]
  {
    var afterSet := vars + effects.setVariables;
    var afterModify := ApplyModifications(afterSet, effects.modifyVariables);
    var newInventory := RemoveAll(inventory + effects.addInventory, effects.removeInventory);
    EffectResult(afterModify, newInventory)
  }

  /** Without removals the added items end up at the end of the inventory, in order. */
  lemma AddInventoryAppends(effects: EffectSet, vars: map<string, Value>, inventory: seq<string>)
    requires effects.removeInventory == []
    ensures ProcessEffects(effects, vars, inventory).newInventory == inventory + effects.addInventory
  {
    RemoveAllNothing(inventory + effects.addInventory);
  }

  /** Effects with only `set_variables` are idempotent: applying them twice gives the
      same variables and inventory as applying them once. */
  lemma SetVariablesIdempotent(effects: EffectSet, vars: map<string, Value>, inventory: seq<string>)
    requires effects.modifyVariables == map[] && effects.addInventory == [] && effects.removeInventory == []
    ensures var once := ProcessEffects(effects, vars, inventory);
            ProcessEffects(effects, once.newVars, once.newInventory) == once
  {
    RemoveAllNothing(inventory + effects.addInventory);
    var once := ProcessEffects(effects, vars, inventory);
    RemoveAllNothing(once.newInventory + effects.addInventory);
    assert once.newInventory + effects.addInventory == once.newInventory;
    var twice := ProcessEffects(effects, once.newVars, once.newInventory);
    assert twice.newVars == once.newVars;
  }

  /** Adding to a variable that was never set treats it as 0. */
  lemma ModifyUnsetAdds(name: string, amount: int, vars: map<string, Value>, inventory: seq<string>)
    requires name !in vars
    ensures var effects := EffectSet(map[], map[name := Modification("add", Num(amount))], [], [], []);
            ProcessEffects(effects, vars, inventory).newVars[name] == Num(amount)
  {
  }
}
