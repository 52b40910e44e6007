/**
 * Content selection for a new cell and the layer-completion reward. Each call
 * of `Math.random()` is a real parameter, so every function is deterministic.
 */
module Resources {
  import opened Wrappers
  import opened Catalog
  import opened Inventory
  import opened GameState
  import opened Sampling

  // ---------------------------------------------------------------------------
  // Tier probabilities

  function SpecialProbability(d: int): real {
    0.01 + d as real * 0.005
  }

  function GemProbability(d: int): real {
    0.05 + d as real * 0.02
  }

  /**
   * The content of a new cell. The first draw is compared with the special
   * threshold; only when it fails is a second, independent draw compared with
   * the gem threshold. The chosen branch's selector then makes one more draw,
   * here `pick`: a special cell makes two draws in all, the others three.
   */
  function DetermineResourceForCell(d: Depth, special: real, gem: real, pick: real): (c: Content)
    ensures c.Special? <==> special < SpecialProbability(d)
    ensures c.Gem? <==> !(special < SpecialProbability(d)) && gem < GemProbability(d)
    ensures c.Resource? <==> !(special < SpecialProbability(d)) && !(gem < GemProbability(d))
    ensures c.Special? ==> c == SelectRandomSpecialItem(pick)
    ensures c.Gem? ==> c == SelectRandomGem(pick)
    ensures c.Resource? ==> c == SelectRandomResource(d, pick)
  {
    if special < SpecialProbability(d) then SelectRandomSpecialItem(pick)
    else if gem < GemProbability(d) then SelectRandomGem(pick)
    else SelectRandomResource(d, pick)
  }

  /**
   * The two thresholds together stay within 1 exactly up to depth 37; at depth
   * 48 and below every cell whose special draw fails holds a gem.
   */
  lemma TierThresholdsByDepth(d: Depth, special: real, gem: real, pick: real)
    ensures SpecialProbability(d) + GemProbability(d) <= 1.0 <==> d <= 37
    ensures d >= 48 && 0.0 <= gem < 1.0 ==> !DetermineResourceForCell(d, special, gem, pick).Resource?
  {
  }

  // ---------------------------------------------------------------------------
  // Inverse-rarity selection of special items and gems

  /** A rarity in (0, 1] gives a finite weight of at least 1. */
  function InverseRarity(rarity: real): (w: real)
    requires 0.0 < rarity <= 1.0
    ensures w * rarity == 1.0
    ensures w >= 1.0
  {
    1.0 / rarity
  }

  /** One weight `1 / rarity` per catalog key, in catalog order. */
  function SpecialWeights(): (w: seq<real>)
    ensures |w| == |SpecialOrder|
    ensures forall i :: 0 <= i < |w| ==> w[i] == InverseRarity(SpecialRarity(SpecialOrder[i]))
  {
    seq(|SpecialOrder|, i requires 0 <= i < |SpecialOrder| => InverseRarity(SpecialRarity(SpecialOrder[i])))
  }

  function GemWeights(): (w: seq<real>)
    ensures |w| == |GemOrder|
    ensures forall i :: 0 <= i < |w| ==> w[i] == InverseRarity(GemRarity(GemOrder[i]))
  {
    seq(|GemOrder|, i requires 0 <= i < |GemOrder| => InverseRarity(GemRarity(GemOrder[i])))
  }

  predicate AtLeastOne(w: seq<real>) {
    forall i :: 0 <= i < |w| ==> w[i] >= 1.0
  }

  lemma CatalogWeightsAtLeastOne()
    ensures AtLeastOne(SpecialWeights()) && AtLeastOne(GemWeights())
  {
  }

  /**
   * The inverse-rarity walk over the draw already scaled by the total weight:
   * the weights are walked with `<`. With weights of at least 1 the walk runs
   * off the end, and the caller's fallback applies, exactly when the scaled
   * draw reaches the total.
   */
  function InverseRarityPick(w: seq<real>, r: real): (i: Option<nat>)
    requires |w| > 0 && AtLeastOne(w)
    ensures i.Some? ==> FirstStrictlyBelow(w, r, i.value)
    ensures i.None? <==> r >= Sum(w)
  {
    assert NonNegative(w);
    SubtractiveWalkFallsThroughIff(w, r);
    SubtractiveWalkIsPrefixSearch(w, r);
    SubtractiveWalk(w, r)
  }

  /** A draw scaled by a positive total reaches the total exactly when the draw is 1 or more. */
  lemma ScaledReachesTotal(u: real, total: real)
    requires total > 0.0
    ensures u * total >= total <==> u >= 1.0
  {
    assert u * total - total == (u - 1.0) * total;
  }

  /** The catalog weights total more than zero. */
  lemma CatalogTotalsPositive()
    ensures Sum(SpecialWeights()) > 0.0 && Sum(GemWeights()) > 0.0
  {
    CatalogWeightsAtLeastOne();
    assert Positive(SpecialWeights()) && Positive(GemWeights());
    SumPositive(SpecialWeights());
    SumPositive(GemWeights());
  }

  /** The special item picked by the inverse-rarity walk; the chest is the fallback. */
  function SelectRandomSpecialItem(u: real): (c: Content)
    ensures c.Special?
    ensures u >= 1.0 ==> c == Special(Chest)
    ensures u < 1.0 ==> exists i: nat :: FirstStrictlyBelow(SpecialWeights(), u * Sum(SpecialWeights()), i)
                                    && c == Special(SpecialOrder[i])
  {
    CatalogWeightsAtLeastOne();
    CatalogTotalsPositive();
    ScaledReachesTotal(u, Sum(SpecialWeights()));
    match InverseRarityPick(SpecialWeights(), u * Sum(SpecialWeights()))
    case Some(i) => Special(SpecialOrder[i])
    case None => Special(Chest)
  }

  /** The gem picked by the inverse-rarity walk; blue is the fallback. */
  function SelectRandomGem(u: real): (c: Content)
    ensures c.Gem?
    ensures u >= 1.0 ==> c == Gem(Blue)
    ensures u < 1.0 ==> exists i: nat :: FirstStrictlyBelow(GemWeights(), u * Sum(GemWeights()), i)
                                    && c == Gem(GemOrder[i])
  {
    CatalogWeightsAtLeastOne();
    CatalogTotalsPositive();
    ScaledReachesTotal(u, Sum(GemWeights()));
    match InverseRarityPick(GemWeights(), u * Sum(GemWeights()))
    case Some(i) => Gem(GemOrder[i])
    case None => Gem(Blue)
  }

  // ---------------------------------------------------------------------------
  // Depth-tiered selection of plain resources

  /** (stone, dirt, ore) weights for the depth tier, before normalisation. */
  function ResourceWeights(d: Depth): (w: seq<real>)
    ensures |w| == 3
    ensures Positive(w)
  {
    if d < 3 then [0.7, 0.25, 0.05 * d as real]
    else if d < 6 then [0.5, 0.3, 0.2 * (d as real / 3.0)]
    else [0.4, 0.3, 0.3]
  }

  /** The tier weights divided by their total: non-negative and summing to 1. */
  function NormalizedResourceWeights(d: Depth): (w: seq<real>)
    ensures |w| == 3
    ensures Sum(ResourceWeights(d)) > 0.0
    ensures forall i :: 0 <= i < 3 ==> w[i] == ResourceWeights(d)[i] / Sum(ResourceWeights(d))
    ensures NonNegative(w)
    ensures Sum(w) == 1.0
  {
    var raw := ResourceWeights(d);
    SumPositive(raw);
    SumNormalize(raw, Sum(raw));
    NormalizeNonNegative(raw, Sum(raw));
    Normalize(raw, Sum(raw))
  }

  lemma SumOfThree(w: seq<real>)
    requires |w| == 3
    ensures Sum(w) == w[0] + w[1] + w[2]
  {
    var t1 := w[1..];
    var t2 := t1[1..];
    assert t2[1..] == [];
    assert Sum(t2) == w[2];
    assert Sum(t1) == w[1] + Sum(t2);
  }

  /** The stone and ore shares at depths 1 to 5, and from depth 6 on. */
  lemma TierShares(d: Depth)
    ensures var w := NormalizedResourceWeights(d);
      && (d == 1 ==> w[0] == 0.7 && w[2] == 0.05)
      && (d == 2 ==> w[0] == 0.7 / 1.05 && w[2] == 0.1 / 1.05)
      && (d == 3 ==> w[0] == 0.5 && w[2] == 0.2)
      && (d == 4 ==> w[0] == 0.46875 && w[2] == 0.25)
      && (d == 5 ==> w[0] == 1.5 / 3.4 && w[2] == 1.0 / 3.4)
      && (d >= 6 ==> w[0] == 0.4 && w[2] == 0.3)
  {
    var raw := ResourceWeights(d);
    var w := NormalizedResourceWeights(d);
    SumOfThree(raw);
    var t := Sum(raw);
    assert w[0] == raw[0] / t && w[2] == raw[2] / t;
    if d == 1 {
      assert raw == [0.7, 0.25, 0.05] && t == 1.0;
    } else if d == 2 {
      assert raw == [0.7, 0.25, 0.1] && t == 1.05;
    } else if d == 3 {
      assert raw == [0.5, 0.3, 0.2] && t == 1.0;
    } else if d == 4 {
      assert raw == [0.5, 0.3, 0.8 / 3.0] && t == 3.2 / 3.0;
    } else if d == 5 {
      assert raw == [0.5, 0.3, 1.0 / 3.0] && t == 3.4 / 3.0;
    } else {
      assert raw == [0.4, 0.3, 0.3] && t == 1.0;
    }
  }

  /**
   * One level deeper, the share of ore (the most valuable resource) never
   * falls and the share of stone never rises.
   */
  lemma ResourceSharesStep(d: Depth)
    ensures NormalizedResourceWeights(d)[2] <= NormalizedResourceWeights(d + 1)[2]
    ensures NormalizedResourceWeights(d + 1)[0] <= NormalizedResourceWeights(d)[0]
  {
    TierShares(d);
    TierShares(d + 1);
  }

  /** Ore becomes more common and stone less common as the player digs deeper. */
  lemma {:induction false} ResourceSharesByDepth(d1: Depth, d2: Depth)
    requires d1 <= d2
    ensures NormalizedResourceWeights(d1)[2] <= NormalizedResourceWeights(d2)[2]
    ensures NormalizedResourceWeights(d2)[0] <= NormalizedResourceWeights(d1)[0]
    decreases d2 - d1
  {
    if d1 < d2 {
      ResourceSharesStep(d1);
      ResourceSharesByDepth(d1 + 1, d2);
    }
  }

  /**
   * Walks the normalised weights with a running total and `<=`; stone is the
   * fallback when the walk runs off the end.
   */
  function SelectRandomResource(d: Depth, u: real): (c: Content)
    ensures c.Resource?
    ensures 0.0 <= u <= 1.0 ==>
      var w := NormalizedResourceWeights(d);
      var i := CumulativeWalk(w, u, 0.0);
      i.Some? && c == Resource(ResourceOrder[i.value]) && FirstAtMost(w, u, 0.0, i.value)
  {
    var w := NormalizedResourceWeights(d);
    CumulativeWalkFallsThroughIff(w, u);
    CumulativeWalkIsPrefixSearch(w, u, 0.0);
    match CumulativeWalk(w, u, 0.0)
    case Some(i) => Resource(ResourceOrder[i])
    case None => Resource(Stone)
  }

  // ---------------------------------------------------------------------------
  // Layer-completion reward

  /** `floor(5 + depth * 2 * 0.5)` in integers. */
  function StoneReward(d: Depth): (n: int)
    ensures n == (5.0 + (d * 2) as real * 0.5).Floor
    ensures n >= 6
  {
    5 + d
  }

  /** `floor(1 + depth * 2 * 0.1)` in integers. */
  function GemReward(d: Depth): (n: int)
    ensures n == (1.0 + (d * 2) as real * 0.1).Floor
    ensures n >= 1
  {
    var q := d / 5;
    assert (d * 2) as real * 0.1 == q as real + (d % 5) as real / 5.0;
    1 + q
  }

  /** The stone unit the reward offers the inventory; it carries the reward as its quantity. */
  function RewardStone(d: Depth): Item {
    Item(Resource(Stone), "Stone", ResourceValue(Stone), 0.0, true, StoneReward(d))
  }

  function RewardGem(d: Depth): Item {
    Item(Gem(Blue), "Blue Gem", GemValue(Blue), 0.0, true, GemReward(d))
  }

  /**
   * Adds the reward to the counters and offers one stone and one blue-gem
   * stack to the inventory; both offers are made since both rewards are
   * positive at every depth.
   */
  function GiveLayerCompletionRewards(s: State): (r: State)
    ensures r.resources.stone == s.resources.stone + StoneReward(s.currentDepth)
    ensures r.resources.gems == s.resources.gems + GemReward(s.currentDepth)
    ensures r.resources.dirt == s.resources.dirt && r.resources.ore == s.resources.ore
    ensures r.(resources := s.resources, bag := s.bag) == s
    ensures r.bag.spaceUpgrades == s.bag.spaceUpgrades
    ensures r.bag == Add(Add(s.bag, RewardStone(s.currentDepth)).bag, RewardGem(s.currentDepth)).bag
  {
    var d := s.currentDepth;
    var res := s.resources.(stone := s.resources.stone + StoneReward(d),
                            gems := s.resources.gems + GemReward(d));
    var bag1 := if StoneReward(d) > 0 then Add(s.bag, RewardStone(d)).bag else s.bag;
    var bag2 := if GemReward(d) > 0 then Add(bag1, RewardGem(d)).bag else bag1;
    s.(resources := res, bag := bag2)
  }

  /**
   * However large the reward, the inventory gains at most one stone unit and
   * one blue-gem unit per completed layer, and nothing else; the ledger
   * invariant is kept.
   */
  lemma LayerRewardAddsAtMostOneUnitEach(s: State, c: Content)
    ensures var r := GiveLayerCompletionRewards(s);
      && UnitsOf(s.bag.items, c) <= UnitsOf(r.bag.items, c)
      && UnitsOf(r.bag.items, c) <= UnitsOf(s.bag.items, c)
           + (if c == Resource(Stone) || c == Gem(Blue) then 1 else 0)
    ensures WellFormed(s.bag) ==> WellFormed(GiveLayerCompletionRewards(s).bag)
  {
    var d := s.currentDepth;
    var bag1 := Add(s.bag, RewardStone(d)).bag;
    AddStackableAddsOneUnit(s.bag, RewardStone(d), c);
    AddStackableAddsOneUnit(bag1, RewardGem(d), c);
    if WellFormed(s.bag) {
      AddPreservesWellFormed(s.bag, RewardStone(d));
      AddPreservesWellFormed(bag1, RewardGem(d));
    }
  }

  /** Every entry of content `c` is a stack with room for one more unit. */
  predicate StackHasRoom(bag: Bag, c: Content) {
    forall k :: 0 <= k < |bag.items| && bag.items[k].content == c ==>
      bag.items[k].stackable && bag.items[k].quantity < MaxStackSize
  }

  /**
   * With two free slots, and any stone or blue-gem stack below 99 units, the
   * completed layer puts exactly one stone unit and one blue-gem unit into the
   * inventory, and nothing else.
   */
  lemma LayerRewardAddsOneUnitEachWithRoom(s: State, c: Content)
    requires s.bag.currentCapacity + 2 <= MaxCapacity(s.bag)
    requires StackHasRoom(s.bag, Resource(Stone)) && StackHasRoom(s.bag, Gem(Blue))
    ensures UnitsOf(GiveLayerCompletionRewards(s).bag.items, c)
            == UnitsOf(s.bag.items, c) + (if c == Resource(Stone) || c == Gem(Blue) then 1 else 0)
  {
    var d := s.currentDepth;
    var a1 := Add(s.bag, RewardStone(d));
    assert a1.added;
    assert StackHasRoom(a1.bag, Gem(Blue)) by {
      forall k | 0 <= k < |a1.bag.items| && a1.bag.items[k].content == Gem(Blue)
        ensures a1.bag.items[k].stackable && a1.bag.items[k].quantity < MaxStackSize
      {
        if FindStack(s.bag.items, Resource(Stone)).Some? {
          assert a1.bag.items[k] == s.bag.items[k];
        } else {
          assert k < |s.bag.items|;
          assert a1.bag.items[k] == s.bag.items[k];
        }
      }
    }
    var a2 := Add(a1.bag, RewardGem(d));
    assert a2.added;
    AddStackableAddsOneUnit(s.bag, RewardStone(d), c);
    AddStackableAddsOneUnit(a1.bag, RewardGem(d), c);
  }
}
