/**
 * The central game state: resource counters, depth, inventory, the cells of
 * the current layer, the tool, the shop's purchase counters and the two
 * difficulty-scaling values written on each descent.
 */
module GameState {
  import opened Wrappers
  import opened Catalog
  import opened Inventory

  /** Depth starts at 1 and only ever grows. */
  type Depth = d: int | 1 <= d witness 1

  /** The aggregate resource totals. */
  datatype Counters = Counters(gems: int, stone: int, dirt: int, ore: int)

  datatype Tool = Tool(power: int, level: int)

  /** One cell of the layer; durability counts the digs still needed. */
  datatype Cell = Cell(index: int, hardness: int, durability: int, content: Content, broken: bool)

  datatype State = State(
    resources: Counters,
    currentDepth: Depth,
    bag: Bag,
    gridSize: int,
    cells: seq<Cell>,
    tool: Tool,
    purchased: map<string, int>,
    minHardness: Option<int>,
    maxHardnessBonus: Option<int>)

  /**
   * The state a new game starts from. The inventory bookkeeping and the empty
   * purchase map are the ones the inventory and shop set up at start-up; the
   * two scaling values do not exist until the first descent.
   */
  function InitialState(): (s: State)
    ensures s.resources == Counters(0, 0, 0, 0)
    ensures s.currentDepth == 1 && s.gridSize == 5
    ensures s.tool == Tool(1, 1)
    ensures s.bag.items == [] && WellFormed(s.bag)
    ensures s.cells == [] && s.purchased == map[]
    ensures s.minHardness.None? && s.maxHardnessBonus.None?
  {
    State(Counters(0, 0, 0, 0), 1, EmptyBag, 5, [], Tool(1, 1), map[], None, None)
  }

  function ResourceCount(c: Counters, k: ResourceKind): int {
    match k
    case Stone => c.stone
    case Dirt => c.dirt
    case Ore => c.ore
  }

  /** `resources[variant]++` for a plain resource. */
  function BumpResource(c: Counters, k: ResourceKind): (r: Counters)
    ensures ResourceCount(r, k) == ResourceCount(c, k) + 1
    ensures forall k' :: k' != k ==> ResourceCount(r, k') == ResourceCount(c, k')
    ensures r.gems == c.gems
  {
    match k
    case Stone => c.(stone := c.stone + 1)
    case Dirt => c.(dirt := c.dirt + 1)
    case Ore => c.(ore := c.ore + 1)
  }

  // ---------------------------------------------------------------------------
  // Difficulty scaling

  /** `max(1, floor(depth / 2))`. */
  function MinHardnessFor(d: int): (h: int)
    ensures h >= 1
    ensures d >= 2 ==> 2 * h <= d < 2 * h + 2
    ensures d < 4 ==> h == 1
  {
    if d / 2 > 1 then d / 2 else 1
  }

  /** `min(10, floor(depth / 1.5))`, written as `floor(2 * depth / 3)`. */
  function MaxHardnessBonusFor(d: int): (b: int)
    ensures b <= 10
    ensures d < 15 ==> 3 * b <= 2 * d < 3 * b + 3
    ensures d >= 15 ==> b == 10
  {
    if (2 * d) / 3 < 10 then (2 * d) / 3 else 10
  }

  /** The integer forms agree with the floating-point formulas in exact arithmetic. */
  lemma ScalingMatchesRealFormulas(d: int)
    ensures MinHardnessFor(d) == if (d as real / 2.0).Floor > 1 then (d as real / 2.0).Floor else 1
    ensures MaxHardnessBonusFor(d) == if (d as real / 1.5).Floor < 10 then (d as real / 1.5).Floor else 10
  {
    var q2 := d / 2;
    assert d as real / 2.0 == q2 as real + (d % 2) as real / 2.0;
    assert (d as real / 2.0).Floor == q2;
    var q3 := (2 * d) / 3;
    assert d as real / 1.5 == (2 * d) as real / 3.0;
    assert (2 * d) as real / 3.0 == q3 as real + ((2 * d) % 3) as real / 3.0;
    assert (d as real / 1.5).Floor == q3;
  }

  /** Both scaled values never decrease as the player goes deeper. */
  lemma ScalingMonotone(d1: int, d2: int)
    requires d1 <= d2
    ensures MinHardnessFor(d1) <= MinHardnessFor(d2)
    ensures MaxHardnessBonusFor(d1) <= MaxHardnessBonusFor(d2)
  {
    assert d1 / 2 <= d2 / 2;
    assert (2 * d1) / 3 <= (2 * d2) / 3;
  }

  /** Writes the two scaled values for the current depth and nothing else. */
  function ApplyDifficultyScaling(s: State): (r: State)
    ensures r.minHardness == Some(MinHardnessFor(s.currentDepth))
    ensures r.maxHardnessBonus == Some(MaxHardnessBonusFor(s.currentDepth))
    ensures r.(minHardness := s.minHardness, maxHardnessBonus := s.maxHardnessBonus) == s
  {
    s.(minHardness := Some(MinHardnessFor(s.currentDepth)),
       maxHardnessBonus := Some(MaxHardnessBonusFor(s.currentDepth)))
  }

  // ---------------------------------------------------------------------------
  // Property access by name

  /**
   * The state seen as a dictionary from property names to values. A falsy
   * property name (`undefined`, `null`, the empty string) is the empty string.
   */
  datatype Lookup<V> = WholeState(state: map<string, V>) | Property(value: Option<V>)

  /** A falsy property name reads the whole state; any other reads that property. */
  function GetGameState<V>(state: map<string, V>, property: string): (r: Lookup<V>)
    ensures property == "" <==> r.WholeState?
    ensures r.WholeState? ==> r.state == state
    ensures r.Property? ==> (r.value.Some? <==> property in state)
    ensures r.Property? && property in state ==> r.value.value == state[property]
  {
    if property == "" then WholeState(state)
    else if property in state then Property(Some(state[property]))
    else Property(None)
  }

  /** Overwrites a property only when the name is truthy and already present. */
  function UpdateGameState<V>(state: map<string, V>, property: string, value: V): (r: map<string, V>)
    ensures r.Keys == state.Keys
    ensures forall k :: k in state && k != property ==> r[k] == state[k]
    ensures property != "" && property in state ==> r[property] == value
    ensures property == "" || property !in state ==> r == state
  {
    if property != "" && property in state then state[property := value] else state
  }

  /** Reading a property back after writing it sees the written value. */
  lemma GetAfterUpdate<V>(state: map<string, V>, property: string, value: V)
    requires property != ""
    ensures property in state ==>
      GetGameState(UpdateGameState(state, property, value), property) == Property(Some(value))
    ensures property !in state ==>
      GetGameState(UpdateGameState(state, property, value), property) == Property(None)
  {
  }
}
