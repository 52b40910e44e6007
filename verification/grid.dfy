/**
 * The layer of cells: generation, digging, breaking, revealing the content of
 * a broken cell, the layer-completion check and its reward, the descent to a
 * new layer, and the indices of a cell's surrounding cells.
 */
module Grid {
  import opened Wrappers
  import opened Catalog
  import opened Inventory
  import opened GameState
  import opened Resources

  // ---------------------------------------------------------------------------
  // Cell generation

  /**
   * The draws one cell may consume: hardness, then the special test, the gem
   * test and the selector's pick. A special cell never makes the gem test, so
   * its `gem` field goes unused and its pick is its second content draw.
   */
  datatype CellDraw = CellDraw(hardness: real, special: real, gem: real, pick: real)

  predicate UnitDraw(u: real) {
    0.0 <= u < 1.0
  }

  /** A new cell: hardness `floor(3u) + depth`, full durability, not broken. */
  function CreateCell(index: int, d: Depth, draw: CellDraw): (c: Cell)
    ensures c.index == index && !c.broken
    ensures c.durability == c.hardness
    ensures UnitDraw(draw.hardness) ==> d <= c.hardness <= d + 2
    ensures c.content == DetermineResourceForCell(d, draw.special, draw.gem, draw.pick)
  {
    var roll := (draw.hardness * 3.0).Floor;
    assert UnitDraw(draw.hardness) ==> 0 <= roll <= 2 by {
      if UnitDraw(draw.hardness) {
        assert 0.0 <= draw.hardness * 3.0 < 3.0;
      }
    }
    Cell(index, roll + d, roll + d, DetermineResourceForCell(d, draw.special, draw.gem, draw.pick), false)
  }

  /** The cells of a fresh layer: `gridSize * gridSize` of them, cell `i` at index `i`. */
  function GenerateGrid(gridSize: int, d: Depth, draws: seq<CellDraw>): (cells: seq<Cell>)
    requires |draws| == gridSize * gridSize
    ensures |cells| == gridSize * gridSize
    ensures forall i :: 0 <= i < |cells| ==>
      cells[i].index == i && !cells[i].broken && cells[i].durability == cells[i].hardness
    ensures forall i :: 0 <= i < |cells| && UnitDraw(draws[i].hardness) ==>
      d <= cells[i].hardness <= d + 2
    ensures forall i :: 0 <= i < |cells| ==>
      cells[i].content == DetermineResourceForCell(d, draws[i].special, draws[i].gem, draws[i].pick)
  {
    seq(gridSize * gridSize, i requires 0 <= i < gridSize * gridSize => CreateCell(i, d, draws[i]))
  }

  // ---------------------------------------------------------------------------
  // Digging one cell

  /**
   * One dig: a broken cell is left alone; otherwise durability drops by exactly
   * one (the tool's power is not consulted) and the cell breaks once it reaches 0.
   */
  function DigCell(c: Cell): (r: Cell)
    ensures c.broken ==> r == c
    ensures !c.broken ==> r.durability == c.durability - 1
    ensures !c.broken ==> (r.broken <==> r.durability <= 0)
    ensures r.(durability := c.durability, broken := c.broken) == c
  {
    if c.broken then c
    else
      var lowered := c.(durability := c.durability - 1);
      if lowered.durability <= 0 then lowered.(broken := true) else lowered
  }

  function DigTimes(c: Cell, k: nat): Cell
    decreases k
  {
    if k == 0 then c else DigTimes(DigCell(c), k - 1)
  }

  /**
   * An unbroken cell with durability `n >= 1` survives `n - 1` digs and breaks on
   * the `n`-th, ending at durability 0; more digs change nothing.
   */
  lemma {:induction false} BreaksAfterDurabilityDigs(c: Cell, k: nat)
    requires !c.broken && c.durability >= 1
    ensures k < c.durability ==> !DigTimes(c, k).broken && DigTimes(c, k).durability == c.durability - k
    ensures k >= c.durability ==> DigTimes(c, k).broken && DigTimes(c, k).durability == 0
    decreases k
  {
    if k > 0 {
      var c1 := DigCell(c);
      if c.durability == 1 {
        assert c1.broken && c1.durability == 0;
        StaysBroken(c1, k - 1);
      } else {
        BreaksAfterDurabilityDigs(c1, k - 1);
      }
    }
  }

  lemma {:induction false} StaysBroken(c: Cell, k: nat)
    requires c.broken
    ensures DigTimes(c, k) == c
    decreases k
  {
    if k > 0 {
      StaysBroken(DigCell(c), k - 1);
    }
  }

  /** A freshly generated cell breaks after exactly `hardness` digs. */
  lemma FreshCellBreaksAfterHardnessDigs(index: int, d: Depth, draw: CellDraw)
    requires UnitDraw(draw.hardness)
    ensures var c := CreateCell(index, d, draw);
      && !DigTimes(c, c.hardness - 1).broken
      && DigTimes(c, c.hardness).broken
      && DigTimes(c, c.hardness).durability == 0
  {
    var c := CreateCell(index, d, draw);
    BreaksAfterDurabilityDigs(c, c.hardness - 1);
    BreaksAfterDurabilityDigs(c, c.hardness);
  }

  // ---------------------------------------------------------------------------
  // Revealing the content of a broken cell

  function UpperAscii(ch: char): char {
    if 'a' <= ch <= 'z' then (ch as int - 32) as char else ch
  }

  /** `capitalizeFirstLetter`: the first character upper-cased. */
  function Capitalize(s: string): (r: string)
    ensures |r| == |s|
    ensures |s| > 0 ==> r[1..] == s[1..] && r[0] == UpperAscii(s[0])
  {
    if |s| == 0 then "" else [UpperAscii(s[0])] + s[1..]
  }

  /** The inventory entry a revealed content offers: gems and resources stack, specials do not. */
  function RevealedItem(c: Content): (x: Item)
    ensures x.content == c
    ensures x.stackable <==> !c.Special?
    ensures x.quantity == 1
  {
    match c
    case Gem(g) => Item(c, Capitalize(c.Variant()) + " Gem", GemValue(g), 0.0, true, 1)
    case Resource(k) => Item(c, Capitalize(c.Variant()), ResourceValue(k), 0.0, true, 1)
    case Special(k) => Item(c, SpecialName(k), 0, SpecialRarity(k), false, 1)
  }

  /**
   * Credits a revealed content: a gem adds one to the gem counter, a resource
   * one to its own counter, a special item no counter; each is offered to the
   * inventory, and a refused offer is simply dropped.
   */
  function ProcessResourceReveal(s: State, c: Content): (r: State)
    ensures c.Gem? ==> r.resources == s.resources.(gems := s.resources.gems + 1)
    ensures c.Resource? ==> r.resources == BumpResource(s.resources, c.resource)
    ensures c.Special? ==> r.resources == s.resources
    ensures r.bag == Add(s.bag, RevealedItem(c)).bag
    ensures r.(resources := s.resources, bag := s.bag) == s
  {
    var res :=
      match c
      case Gem(_) => s.resources.(gems := s.resources.gems + 1)
      case Resource(k) => BumpResource(s.resources, k)
      case Special(_) => s.resources;
    s.(resources := res, bag := Add(s.bag, RevealedItem(c)).bag)
  }

  // ---------------------------------------------------------------------------
  // Breaking, completion and the dig transition

  predicate AllBroken(cells: seq<Cell>) {
    forall i :: 0 <= i < |cells| ==> cells[i].broken
  }

  datatype Completion = Completion(complete: bool, state: State)

  /** Reports whether every cell is broken and, if so, grants the layer reward. */
  function CheckLayerCompletion(s: State): (r: Completion)
    ensures r.complete <==> AllBroken(s.cells)
    ensures r.complete ==> r.state == GiveLayerCompletionRewards(s)
    ensures !r.complete ==> r.state == s
    ensures r.state.cells == s.cells
  {
    if AllBroken(s.cells) then Completion(true, GiveLayerCompletionRewards(s)) else Completion(false, s)
  }

  /**
   * Marks cell `i` broken, credits its content, then checks the layer: the
   * counters and the bag end as the reveal leaves them, with the layer reward
   * on top exactly when the layer is now complete. Nothing else changes.
   */
  function BreakCell(s: State, i: int): (r: Completion)
    requires 0 <= i < |s.cells|
    ensures r.state.cells == s.cells[i := s.cells[i].(broken := true)]
    ensures r.complete <==> AllBroken(s.cells[i := s.cells[i].(broken := true)])
    ensures var credited := ProcessResourceReveal(s, s.cells[i].content);
      && (!r.complete ==> r.state.resources == credited.resources && r.state.bag == credited.bag)
      && (r.complete ==> r.state.resources == GiveLayerCompletionRewards(credited).resources
                         && r.state.bag == GiveLayerCompletionRewards(credited).bag)
    ensures r.state.(cells := s.cells, resources := s.resources, bag := s.bag) == s
  {
    var marked := s.(cells := s.cells[i := s.cells[i].(broken := true)]);
    CheckLayerCompletion(ProcessResourceReveal(marked, s.cells[i].content))
  }

  datatype DigOutcome = DigOutcome(state: State, justBroken: bool, layerComplete: bool)

  /**
   * A tap on cell `i`. A broken cell, or an index with no cell, is a silent
   * no-op; otherwise the cell loses one durability and, when that breaks it,
   * its content is credited and the layer is checked.
   */
  function Dig(s: State, i: int): (r: DigOutcome)
    ensures !(0 <= i < |s.cells|) || s.cells[i].broken ==> r == DigOutcome(s, false, false)
    ensures |r.state.cells| == |s.cells|
    ensures 0 <= i < |s.cells| ==> r.state.cells[i] == DigCell(s.cells[i])
    ensures forall j :: 0 <= j < |s.cells| && j != i ==> r.state.cells[j] == s.cells[j]
    ensures r.justBroken <==> 0 <= i < |s.cells| && !s.cells[i].broken && s.cells[i].durability <= 1
    ensures r.layerComplete <==> r.justBroken && AllBroken(r.state.cells)
    ensures r.layerComplete ==> !AllBroken(s.cells)
    ensures !r.justBroken ==> r.state.resources == s.resources && r.state.bag == s.bag
    ensures r.state.(cells := s.cells, resources := s.resources, bag := s.bag) == s
  {
    if !(0 <= i < |s.cells|) || s.cells[i].broken then
      DigOutcome(s, false, false)
    else
      var dug := DigCell(s.cells[i]);
      var s1 := s.(cells := s.cells[i := dug]);
      if dug.broken then
        assert dug.(broken := true) == dug;
        var b := BreakCell(s1, i);
        assert !AllBroken(s.cells) by { assert !s.cells[i].broken; }
        DigOutcome(b.state, true, b.complete)
      else
        DigOutcome(s1, false, false)
  }

  /** Breaking a cell credits its content: counters by type and one inventory offer. */
  lemma BreakingCreditsContent(s: State, i: int)
    requires 0 <= i < |s.cells| && !s.cells[i].broken && s.cells[i].durability <= 1
    requires !AllBroken(Dig(s, i).state.cells)
    ensures var c := s.cells[i].content;
      var r := Dig(s, i).state;
      && (c.Gem? ==> r.resources == s.resources.(gems := s.resources.gems + 1))
      && (c.Resource? ==> r.resources == BumpResource(s.resources, c.resource))
      && (c.Special? ==> r.resources == s.resources)
      && r.bag == Add(s.bag, RevealedItem(c)).bag
  {
  }

  /**
   * The tap that completes the layer credits the broken cell's content and then
   * the layer reward on top, and offers the inventory the cell's item, then the
   * stone and blue-gem reward stacks; at depth 1 the reward is 6 stone and 1 gem.
   */
  lemma CompletingDigGrantsReward(s: State, i: int)
    requires Dig(s, i).layerComplete
    ensures var c := s.cells[i].content;
      var r := Dig(s, i).state;
      && r.resources.stone == s.resources.stone + (if c == Resource(Stone) then 1 else 0) + StoneReward(s.currentDepth)
      && r.resources.gems == s.resources.gems + (if c.Gem? then 1 else 0) + GemReward(s.currentDepth)
      && r.resources.dirt == s.resources.dirt + (if c == Resource(Dirt) then 1 else 0)
      && r.resources.ore == s.resources.ore + (if c == Resource(Ore) then 1 else 0)
    ensures var d := s.currentDepth;
      Dig(s, i).state.bag
        == Add(Add(Add(s.bag, RevealedItem(s.cells[i].content)).bag, RewardStone(d)).bag, RewardGem(d)).bag
    ensures s.currentDepth == 1 ==> StoneReward(s.currentDepth) == 6 && GemReward(s.currentDepth) == 1
  {
  }

  datatype RunOutcome = RunOutcome(state: State, completions: nat)

  /** A sequence of taps, counting how many of them completed the layer. */
  function Run(s: State, taps: seq<int>): RunOutcome
    decreases |taps|
  {
    if |taps| == 0 then RunOutcome(s, 0)
    else
      var o := Dig(s, taps[0]);
      var rest := Run(o.state, taps[1..]);
      RunOutcome(rest.state, rest.completions + (if o.layerComplete then 1 else 0))
  }

  /**
   * Whatever the taps, the layer reward is granted at most once, and it is
   * granted exactly when the taps take an incomplete layer to a complete one.
   * Broken cells stay broken along the way.
   */
  lemma {:induction false} RewardGrantedAtMostOnce(s: State, taps: seq<int>)
    ensures Run(s, taps).completions <= 1
    ensures Run(s, taps).completions == 1 <==> !AllBroken(s.cells) && AllBroken(Run(s, taps).state.cells)
    ensures |Run(s, taps).state.cells| == |s.cells|
    ensures forall j :: 0 <= j < |s.cells| && s.cells[j].broken ==> Run(s, taps).state.cells[j].broken
    decreases |taps|
  {
    if |taps| > 0 {
      var o := Dig(s, taps[0]);
      RewardGrantedAtMostOnce(o.state, taps[1..]);
      if AllBroken(s.cells) {
        assert o.state == s;
      }
      if !o.justBroken {
        assert forall j :: 0 <= j < |s.cells| ==> o.state.cells[j].broken == s.cells[j].broken;
      }
      forall j | 0 <= j < |s.cells| && s.cells[j].broken
        ensures o.state.cells[j].broken
      {
        if j != taps[0] {
          assert o.state.cells[j] == s.cells[j];
        }
      }
    }
  }

  // ---------------------------------------------------------------------------
  // Descending

  /**
   * Moves one layer down: depth + 1, a whole new cell list for the new depth,
   * then difficulty scaling for the new depth; nothing else changes.
   */
  function HandleDigDeeper(s: State, draws: seq<CellDraw>): (r: State)
    requires |draws| == s.gridSize * s.gridSize
    ensures r.currentDepth == s.currentDepth + 1
    ensures r.cells == GenerateGrid(s.gridSize, s.currentDepth + 1, draws)
    ensures r.minHardness == Some(MinHardnessFor(s.currentDepth + 1))
    ensures r.maxHardnessBonus == Some(MaxHardnessBonusFor(s.currentDepth + 1))
    ensures r.(currentDepth := s.currentDepth, cells := s.cells,
               minHardness := s.minHardness, maxHardnessBonus := s.maxHardnessBonus) == s
    ensures s.gridSize != 0 ==> !AllBroken(r.cells)
  {
    var deeper := s.(currentDepth := s.currentDepth + 1);
    var cells := GenerateGrid(deeper.gridSize, deeper.currentDepth, draws);
    assert s.gridSize != 0 ==> !cells[0].broken by {
      if s.gridSize != 0 {
        assert s.gridSize * s.gridSize > 0;
      }
    }
    ApplyDifficultyScaling(deeper.(cells := cells))
  }

  // ---------------------------------------------------------------------------
  // Surrounding cells

  /** Row and column of two indices differ by at most one each. */
  predicate Adjacent(i: int, j: int, n: int)
    requires n > 0
  {
    -1 <= j / n - i / n <= 1 && -1 <= j % n - i % n <= 1
  }

  lemma {:induction false} MulAtLeast(k: int, n: int)
    requires k >= 1 && n > 0
    ensures k * n >= n
    decreases k
  {
    if k > 1 {
      MulAtLeast(k - 1, n);
      assert k * n == (k - 1) * n + n;
    }
  }

  /** Row `r` and column `c` are recovered from the index `r * n + c`. */
  lemma DivModOf(r: int, c: int, n: int)
    requires n > 0 && 0 <= c < n
    ensures (r * n + c) / n == r && (r * n + c) % n == c
  {
    var x := r * n + c;
    var q, m := x / n, x % n;
    assert x == q * n + m;
    assert (q - r) * n == c - m;
    if q - r >= 1 {
      MulAtLeast(q - r, n);
      assert false;
    } else if r - q >= 1 {
      MulAtLeast(r - q, n);
      assert false;
    }
  }

  /** An in-grid index has an in-grid row and column. */
  lemma RowCol(j: int, n: int)
    requires n > 0 && 0 <= j < n * n
    ensures 0 <= j / n < n && 0 <= j % n < n
    ensures j == (j / n) * n + j % n
  {
    if j / n >= n {
      MulAtLeast(j / n - n + 1, n);
      assert false;
    }
  }

  lemma IndexBound(r: int, c: int, n: int)
    requires n > 0 && 0 <= r < n && 0 <= c < n
    ensures 0 <= r * n + c < n * n
  {
    if r < n - 1 {
      MulAtLeast(n - 1 - r, n);
    }
    assert n * n == (n - 1 - r) * n + r * n + n;
  }

  /**
   * The scan visits the box of rows `rLo..` and columns `cLo..cHi` row by row;
   * `j` has been visited before position (`r`, `c`).
   */
  predicate Visited(j: int, n: int, rLo: int, cLo: int, cHi: int, r: int, c: int)
    requires n > 0
  {
    || (rLo <= j / n < r && cLo <= j % n <= cHi)
    || (j / n == r && cLo <= j % n < c)
  }

  /** Visiting position (`r`, `c`) visits exactly the index `r * n + c`. */
  lemma VisitedStep(j: int, n: int, rLo: int, cLo: int, cHi: int, r: int, c: int)
    requires n > 0 && 0 <= j < n * n && 0 <= cLo <= c < n
    ensures Visited(j, n, rLo, cLo, cHi, r, c + 1) <==> Visited(j, n, rLo, cLo, cHi, r, c) || j == r * n + c
  {
    RowCol(j, n);
    DivModOf(r, c, n);
    if j == r * n + c {
      assert j / n == r && j % n == c;
    }
  }
  /** The indices collected so far: every visited in-grid index but the cell itself. */
  ghost predicate Collected(ns: seq<int>, index: int, n: int, rLo: int, cLo: int, cHi: int, r: int, c: int)
    requires n > 0
  {
    forall j :: j in ns <==> 0 <= j < n * n && j != index && Visited(j, n, rLo, cLo, cHi, r, c)
  }

  predicate Increasing(ns: seq<int>) {
    forall a, b :: 0 <= a < b < |ns| ==> ns[a] < ns[b]
  }

  lemma AppendIncreasing(ns: seq<int>, x: int)
    requires Increasing(ns) && forall k :: k in ns ==> k < x
    ensures Increasing(ns + [x])
  {
    forall a | 0 <= a < |ns| ensures ns[a] < x {
      assert ns[a] in ns;
    }
  }

  /** The scan's state at position (`r`, `c`): what it collected, in order, all before the position. */
  ghost predicate Scanned(ns: seq<int>, index: int, n: int, rLo: int, cLo: int, cHi: int, r: int, c: int)
    requires n > 0
  {
    && Collected(ns, index, n, rLo, cLo, cHi, r, c)
    && Increasing(ns)
    && forall k :: k in ns ==> k < r * n + c
  }

  /** Visiting position (`r`, `c`) appends its index unless it is the cell itself. */
  lemma ScanStep(ns: seq<int>, index: int, n: int, rLo: int, cLo: int, cHi: int, r: int, c: int)
    requires n > 0 && 0 <= index < n * n && 0 <= r < n && 0 <= cLo <= c <= cHi < n
    requires Scanned(ns, index, n, rLo, cLo, cHi, r, c)
    ensures r * n + c == index <==> index / n == r && index % n == c
    ensures var next := if r * n + c != index then ns + [r * n + c] else ns;
      Scanned(next, index, n, rLo, cLo, cHi, r, c + 1)
  {
    DivModOf(r, c, n);
    RowCol(index, n);
    var next := if r * n + c != index then ns + [r * n + c] else ns;
    ScanStepCollects(ns, index, n, rLo, cLo, cHi, r, c);
    if r * n + c != index {
      AppendIncreasing(ns, r * n + c);
    }
    assert forall k :: k in next ==> k < r * n + c + 1;
  }

  lemma ScanStepCollects(ns: seq<int>, index: int, n: int, rLo: int, cLo: int, cHi: int, r: int, c: int)
    requires n > 0 && 0 <= index < n * n && 0 <= r < n && 0 <= cLo <= c <= cHi < n
    requires Collected(ns, index, n, rLo, cLo, cHi, r, c)
    ensures Collected(if r * n + c != index then ns + [r * n + c] else ns, index, n, rLo, cLo, cHi, r, c + 1)
  {
    var neighbour := r * n + c;
    IndexBound(r, c, n);
    var next := c + 1;
    forall j ensures Visited(j, n, rLo, cLo, cHi, r, next) <==> Visited(j, n, rLo, cLo, cHi, r, c) || j == neighbour
    {
      if 0 <= j < n * n {
        VisitedStep(j, n, rLo, cLo, cHi, r, c);
      } else {
        assert j != neighbour;
      }
    }
  }

  /** The end of one row is the start of the next. */
  lemma NextRow(ns: seq<int>, index: int, n: int, rLo: int, cLo: int, cHi: int, r: int)
    requires n > 0 && rLo <= r && 0 <= cLo <= cHi < n
    requires Scanned(ns, index, n, rLo, cLo, cHi, r, cHi + 1)
    ensures Scanned(ns, index, n, rLo, cLo, cHi, r + 1, cLo)
  {
    var down, end := r + 1, cHi + 1;
    assert r * n + end <= down * n + cLo;
    forall j ensures Visited(j, n, rLo, cLo, cHi, r, end) <==> Visited(j, n, rLo, cLo, cHi, down, cLo) {
    }
  }

  /** Scans columns `cLo..cHi` of row `r`, appending every index but `index`. */
  method ScanRow(index: int, n: int, rLo: int, cLo: int, cHi: int, r: int, ns0: seq<int>)
    returns (ns: seq<int>)
    requires n >= 1 && 0 <= index < n * n
    requires 0 <= rLo <= r < n && 0 <= cLo <= cHi < n
    requires Scanned(ns0, index, n, rLo, cLo, cHi, r, cLo)
    ensures Scanned(ns, index, n, rLo, cLo, cHi, r, cHi + 1)
    ensures |ns| + (if index / n == r && cLo <= index % n <= cHi then 1 else 0) == |ns0| + (cHi + 1 - cLo)
  {
    ns := ns0;
    var c := cLo;
    while c <= cHi
      invariant cLo <= c <= cHi + 1
      invariant Scanned(ns, index, n, rLo, cLo, cHi, r, c)
      invariant |ns| + (if index / n == r && cLo <= index % n < c then 1 else 0) == |ns0| + (c - cLo)
    {
      ScanStep(ns, index, n, rLo, cLo, cHi, r, c);
      var neighbour := r * n + c;
      if neighbour != index {
        ns := ns + [neighbour];
      }
      c := c + 1;
    }
  }

  /** After the last row, the collected indices are exactly the adjacent ones. */
  lemma ScanComplete(ns: seq<int>, index: int, n: int, rLo: int, rHi: int, cLo: int, cHi: int)
    requires n > 0 && 0 <= index < n * n
    requires rLo == (if index / n - 1 > 0 then index / n - 1 else 0)
    requires rHi == (if index / n + 1 < n - 1 then index / n + 1 else n - 1)
    requires cLo == (if index % n - 1 > 0 then index % n - 1 else 0)
    requires cHi == (if index % n + 1 < n - 1 then index % n + 1 else n - 1)
    requires Collected(ns, index, n, rLo, cLo, cHi, rHi + 1, cLo)
    ensures forall j :: j in ns <==> 0 <= j < n * n && j != index && Adjacent(index, j, n)
  {
    forall j | 0 <= j < n * n
      ensures Visited(j, n, rLo, cLo, cHi, rHi + 1, cLo) <==> Adjacent(index, j, n)
    {
      RowCol(j, n);
    }
  }

  /**
   * The indices of the cells around `index`, row by row: every in-grid index
   * whose row and column differ from the cell's by at most one, except the cell
   * itself, in increasing order and at most eight of them.
   */
  method SurroundingIndices(index: int, gridSize: int) returns (ns: seq<int>)
    requires gridSize >= 1 && 0 <= index < gridSize * gridSize
    ensures forall j :: j in ns <==> 0 <= j < gridSize * gridSize && j != index && Adjacent(index, j, gridSize)
    ensures Increasing(ns)
    ensures |ns| <= 8
  {
    var n := gridSize;
    RowCol(index, n);
    var row, col := index / n, index % n;
    var rLo := if row - 1 > 0 then row - 1 else 0;
    var rHi := if row + 1 < n - 1 then row + 1 else n - 1;
    var cLo := if col - 1 > 0 then col - 1 else 0;
    var cHi := if col + 1 < n - 1 then col + 1 else n - 1;
    ns := [];
    var r := rLo;
    while r <= rHi
      invariant rLo <= r <= rHi + 1
      invariant Scanned(ns, index, n, rLo, cLo, cHi, r, cLo)
      invariant |ns| + (if row < r then 1 else 0) <= 3 * (r - rLo)
    {
      ns := ScanRow(index, n, rLo, cLo, cHi, r, ns);
      NextRow(ns, index, n, rLo, cLo, cHi, r);
      r := r + 1;
    }
    ScanComplete(ns, index, n, rLo, rHi, cLo, cHi);
  }
}
