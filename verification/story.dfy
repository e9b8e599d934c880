/** The story document: nodes, choices, conditions, effects and costs, as the engine reads
    them from a story's JSON. Optional JSON fields are `Option`s; list and map fields of an
    effect set are empty when absent, since an absent list and an empty one act alike. */
module Story {
  import opened Wrappers
  import opened Values

  /** The `operator` of a `variable` condition; any other string is `OtherComparison`. */
  datatype Comparison = Eq | Ne | Lt | Gt | Le | Ge | Contains | OtherComparison(name: string)

  /** The `operator` of an `inventory` condition. */
  datatype InventoryTest = Has | NotHas | OtherInventoryTest(name: string)

  /** A condition, tagged by its `type` field. `OtherCondition` is any unrecognised type. */
  datatype Condition =
    | VariableCondition(variable: string, op: Comparison, target: Value)
    | InventoryCondition(test: InventoryTest, item: string)
    | AchievementCondition(achievement: string)
    | OtherCondition(kind: string)

  /** One entry of `modify_variables`: an operation name (`add`, `subtract`, `multiply`,
      anything else meaning "set") and its operand. */
  datatype Modification = Modification(operation: string, value: Value)

  datatype EffectSet = EffectSet(
    setVariables: map<string, Value>,
    modifyVariables: map<string, Modification>,
    addInventory: seq<string>,
    removeInventory: seq<string>,
    unlockAchievements: seq<string>)

  /** A choice's `cost`: amounts to subtract from variables and items to give up. */
  datatype Cost = Cost(variables: map<string, int>, inventory: seq<string>)

  /** A choice's `conditions` object with its two optional gates. */
  datatype Gates = Gates(showIf: Option<seq<Condition>>, enableIf: Option<seq<Condition>>)

  datatype Choice = Choice(
    id: string,
    text: string,
    target: string,
    conditions: Option<Gates>,
    effects: Option<EffectSet>,
    cost: Option<Cost>)

  /** A node; `id` is the node's own `id` field, when it carries one. */
  datatype Node = Node(
    id: Option<string>,
    title: Option<string>,
    text: Option<string>,
    choices: seq<Choice>,
    effects: Option<EffectSet>)

  datatype VariableDefinition = VariableDefinition(initialValue: Value)

  /** `story`: the node table, `start_node` and `game_state.variables`. */
  datatype StoryDocument = StoryDocument(
    nodes: map<string, Node>,
    startNode: Option<string>,
    variables: Option<map<string, VariableDefinition>>)
}
