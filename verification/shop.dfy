/**
 * The shop: a fixed catalog of upgrades and special items, the availability
 * filter (tool level, depth and per-item purchase caps), category listings,
 * and the purchase transition.
 */
module Shop {
  import opened Wrappers
  import opened Catalog
  import opened Inventory
  import opened GameState

  /** How many times an item may be bought; `Unlimited` is the source's `Infinity`. */
  datatype MaxLevel = Finite(n: int) | Unlimited

  predicate Below(count: int, m: MaxLevel) {
    match m
    case Finite(n) => count < n
    case Unlimited => true
  }

  /** What buying an item does to the state. */
  datatype Effect =
    | PowerUp(power: int)   // tool power + power, tool level + 1
    | BagUp(upgrades: int)  // space upgrades + upgrades
    | Grant(item: Item)     // offers one special item to the inventory

  datatype ShopItem = ShopItem(
    id: string,
    name: string,
    cost: int,
    category: string,
    requiredLevel: int,
    maxLevel: MaxLevel,
    effect: Effect)

  /** A special item as a shop purchase hands it over: not stackable, no value. */
  function Granted(k: SpecialKind, name: string, rarity: real): Item {
    Item(Special(k), name, 0, rarity, false, 1)
  }

  const ShopItems: seq<ShopItem> := [
    ShopItem("pick_upgrade_1", "Better Pickaxe", 15, "tools", 1, Finite(5), PowerUp(1)),
    ShopItem("pick_upgrade_2", "Sturdy Pickaxe", 40, "tools", 2, Finite(3), PowerUp(2)),
    ShopItem("pick_upgrade_3", "Premium Pickaxe", 75, "tools", 3, Finite(2), PowerUp(3)),
    ShopItem("inventory_upgrade_1", "Small Bag", 25, "upgrades", 1, Finite(3), BagUp(1)),
    ShopItem("inventory_upgrade_2", "Medium Bag", 60, "upgrades", 2, Finite(2), BagUp(2)),
    ShopItem("inventory_upgrade_3", "Large Bag", 100, "upgrades", 3, Finite(1), BagUp(3)),
    ShopItem("magnet", "Gem Magnet", 20, "items", 1, Unlimited, Grant(Granted(Magnet, "Gem Magnet", 0.8))),
    ShopItem("bomb", "Mining Bomb", 30, "items", 2, Unlimited, Grant(Granted(Bomb, "Mining Bomb", 0.85))),
    ShopItem("gem_compass", "Gem Compass", 50, "items", 3, Unlimited, Grant(Granted(Compass, "Gem Compass", 0.9)))
  ]

  /** The category listings the shop offers, besides `"all"`. */
  const Categories: seq<string> := ["tools", "upgrades", "items"]

  /** A catalog entry in a listed category, with a positive cost and an effect that only raises. */
  predicate ItemWellFormed(x: ShopItem) {
    && x.category in Categories
    && x.cost > 0
    && x.requiredLevel >= 1
    && (x.effect.PowerUp? ==> x.effect.power >= 1)
    && (x.effect.BagUp? ==> x.effect.upgrades >= 1)
    && (x.effect.Grant? ==> x.effect.item.content.Special? && !x.effect.item.stackable)
    && (x.maxLevel.Unlimited? <==> x.effect.Grant?)
  }

  /** Every catalog entry is well formed and no two share an id. */
  lemma ShopCatalogWellFormed()
    ensures forall x :: x in ShopItems ==> ItemWellFormed(x)
    ensures forall i, j :: 0 <= i < j < |ShopItems| ==> ShopItems[i].id != ShopItems[j].id
  {
    forall i | 0 <= i < |ShopItems| ensures ItemWellFormed(ShopItems[i]) {
      var x := ShopItems[i];
      assert x.category in Categories by {
        assert x.category == Categories[0] || x.category == Categories[1] || x.category == Categories[2];
      }
    }
    forall i, j | 0 <= i < j < |ShopItems| ensures ShopItems[i].id != ShopItems[j].id {
    }
  }

  // ---------------------------------------------------------------------------
  // Availability

  /** `purchasedItems[id] || 0`. */
  function PurchaseCount(s: State, id: string): int {
    if id in s.purchased then s.purchased[id] else 0
  }

  /** Tool level and depth both reach the requirement, and the cap is not reached. */
  function Available(s: State, x: ShopItem): (b: bool)
    ensures b <==> && x.requiredLevel <= s.tool.level
                   && x.requiredLevel <= s.currentDepth
                   && (x.maxLevel.Finite? ==> PurchaseCount(s, x.id) < x.maxLevel.n)
  {
    && x.requiredLevel <= s.tool.level
    && Below(PurchaseCount(s, x.id), x.maxLevel)
    && s.currentDepth >= x.requiredLevel
  }

  /**
   * Availability only grows with tool level and depth, and only shrinks with
   * the purchase count.
   */
  lemma AvailabilityMonotone(s: State, t: State, x: ShopItem)
    requires s.tool.level <= t.tool.level && s.currentDepth <= t.currentDepth
    requires PurchaseCount(t, x.id) <= PurchaseCount(s, x.id)
    ensures Available(s, x) ==> Available(t, x)
  {
  }

  function FilterAvailable(s: State, items: seq<ShopItem>): (r: seq<ShopItem>)
    ensures |r| <= |items|
    ensures forall x :: x in r <==> x in items && Available(s, x)
    ensures forall x :: multiset(r)[x] == if Available(s, x) then multiset(items)[x] else 0
    decreases |items|
  {
    if |items| == 0 then []
    else
      assert items == [items[0]] + items[1..];
      if Available(s, items[0]) then [items[0]] + FilterAvailable(s, items[1..])
      else FilterAvailable(s, items[1..])
  }

  /** The catalog entries the player may buy now, in catalog order. */
  function AvailableShopItems(s: State): (r: seq<ShopItem>)
    ensures forall x :: x in r <==> x in ShopItems && Available(s, x)
    ensures forall x :: multiset(r)[x] == if Available(s, x) then multiset(ShopItems)[x] else 0
  {
    FilterAvailable(s, ShopItems)
  }

  function FilterCategory(items: seq<ShopItem>, categoryId: string): (r: seq<ShopItem>)
    ensures |r| <= |items|
    ensures forall x :: x in r <==> x in items && x.category == categoryId
    ensures forall x :: multiset(r)[x] == if x.category == categoryId then multiset(items)[x] else 0
    decreases |items|
  {
    if |items| == 0 then []
    else
      assert items == [items[0]] + items[1..];
      if items[0].category == categoryId then [items[0]] + FilterCategory(items[1..], categoryId)
      else FilterCategory(items[1..], categoryId)
  }

  /** `"all"` lists every available item; any other id lists the available items of that category. */
  function ItemsByCategory(s: State, categoryId: string): (r: seq<ShopItem>)
    ensures categoryId == "all" ==> r == AvailableShopItems(s)
    ensures categoryId != "all" ==>
      forall x :: x in r <==> x in AvailableShopItems(s) && x.category == categoryId
    ensures categoryId !in Categories && categoryId != "all" ==> r == []
  {
    var available := AvailableShopItems(s);
    if categoryId == "all" then available
    else
      var r := FilterCategory(available, categoryId);
      assert categoryId !in Categories ==> r == [] by {
        if categoryId !in Categories && |r| > 0 {
          assert r[0] in r;
          ShopCatalogWellFormed();
        }
      }
      r
  }

  /** Under any id other than `"all"`, an available item is listed exactly under its own category. */
  lemma ListedUnder(s: State, x: ShopItem, c: string)
    requires x in ShopItems && Available(s, x) && c != "all"
    ensures x in ItemsByCategory(s, c) <==> c == x.category
  {
  }

  /** Every available item is listed under its own category and under no other. */
  lemma CategoryListingsPartition(s: State, x: ShopItem)
    requires x in ShopItems && Available(s, x)
    ensures x.category in Categories
    ensures forall c :: c in Categories ==> (x in ItemsByCategory(s, c) <==> c == x.category)
  {
    ShopCatalogWellFormed();
    assert "all" !in Categories;
    forall c | c in Categories ensures x in ItemsByCategory(s, c) <==> c == x.category {
      ListedUnder(s, x, c);
    }
  }

  /** An item whose purchase count has reached its cap is never offered. */
  lemma CappedItemUnavailable(s: State, x: ShopItem)
    requires x.maxLevel.Finite? && PurchaseCount(s, x.id) >= x.maxLevel.n
    ensures x !in AvailableShopItems(s)
    ensures forall c :: x !in ItemsByCategory(s, c)
  {
  }

  /** A special item is offered whenever tool level and depth allow, however often it was bought. */
  lemma UnlimitedItemsAlwaysOffered(s: State, x: ShopItem)
    requires x in ShopItems && x.maxLevel.Unlimited?
    ensures x in AvailableShopItems(s) <==> x.requiredLevel <= s.tool.level && x.requiredLevel <= s.currentDepth
  {
  }

  // ---------------------------------------------------------------------------
  // Purchasing

  datatype PurchaseError = InsufficientFunds

  datatype PurchaseOutcome = PurchaseOutcome(state: State, error: Option<PurchaseError>)

  /** The item's effect on the state; a special item a full bag refuses is lost. */
  function ApplyEffect(s: State, e: Effect): (r: State)
    ensures e.PowerUp? ==> r.tool == Tool(s.tool.power + e.power, s.tool.level + 1) && r.bag == s.bag
    ensures e.BagUp? ==> r.bag == s.bag.(spaceUpgrades := s.bag.spaceUpgrades + e.upgrades) && r.tool == s.tool
    ensures e.Grant? ==> r.bag == Add(s.bag, e.item).bag && r.tool == s.tool
    ensures r.(tool := s.tool, bag := s.bag) == s
  {
    match e
    case PowerUp(p) => s.(tool := Tool(s.tool.power + p, s.tool.level + 1))
    case BagUp(k) => s.(bag := s.bag.(spaceUpgrades := s.bag.spaceUpgrades + k))
    case Grant(item) => s.(bag := Add(s.bag, item).bag)
  }

  /**
   * The confirmed purchase: charges the cost, counts the purchase and applies
   * the effect. It does not look at the gem balance itself.
   */
  function ConfirmPurchase(s: State, x: ShopItem): (r: State)
    ensures r.resources == s.resources.(gems := s.resources.gems - x.cost)
    ensures PurchaseCount(r, x.id) == PurchaseCount(s, x.id) + 1
    ensures r.purchased.Keys == s.purchased.Keys + {x.id}
    ensures forall id :: id != x.id ==> PurchaseCount(r, id) == PurchaseCount(s, id)
    ensures r == ApplyEffect(r.(tool := s.tool, bag := s.bag), x.effect)
    ensures r.(resources := s.resources, purchased := s.purchased, tool := s.tool, bag := s.bag) == s
  {
    var charged := s.(resources := s.resources.(gems := s.resources.gems - x.cost),
                      purchased := s.purchased[x.id := PurchaseCount(s, x.id) + 1]);
    ApplyEffect(charged, x.effect)
  }

  /**
   * A tap on an item's buy button: refused with `InsufficientFunds`, leaving
   * the state as it was, exactly when the gems do not cover the cost.
   */
  function Purchase(s: State, x: ShopItem): (r: PurchaseOutcome)
    ensures r.error.Some? <==> s.resources.gems < x.cost
    ensures r.error.Some? ==> r.state == s && r.error.value == InsufficientFunds
    ensures r.error.None? ==> r.state == ConfirmPurchase(s, x)
  {
    if s.resources.gems >= x.cost then PurchaseOutcome(ConfirmPurchase(s, x), None)
    else PurchaseOutcome(s, Some(InsufficientFunds))
  }

  /** With 10 gems the 15-gem pickaxe upgrade is refused and nothing changes. */
  lemma PurchaseBelowCostScenario(s: State)
    requires s.resources.gems == 10
    ensures Purchase(s, ShopItems[0]) == PurchaseOutcome(s, Some(InsufficientFunds))
  {
  }

  /** A buy never takes a non-negative gem balance below zero. */
  lemma PurchaseKeepsGemsNonNegative(s: State, x: ShopItem)
    requires s.resources.gems >= 0
    ensures Purchase(s, x).state.resources.gems >= 0
  {
  }

  /**
   * Once an item with a cap of one has been bought, it is never offered again,
   * whatever the gems, tool level or depth of any later state that keeps the
   * purchase record.
   */
  lemma SingleUseItemGoneAfterPurchase(s: State, x: ShopItem, later: State)
    requires x.maxLevel == Finite(1) && s.resources.gems >= x.cost
    requires PurchaseCount(s, x.id) >= 0
    requires PurchaseCount(later, x.id) >= PurchaseCount(Purchase(s, x).state, x.id)
    ensures x !in AvailableShopItems(later)
  {
    CappedItemUnavailable(later, x);
  }

  /** Buying a bag upgrade raises the maximum capacity by ten slots per upgrade and keeps the ledger sound. */
  lemma BagUpgradeRaisesCapacity(s: State, x: ShopItem)
    requires x.effect.BagUp? && x.effect.upgrades >= 0 && s.resources.gems >= x.cost
    ensures MaxCapacity(Purchase(s, x).state.bag) == MaxCapacity(s.bag) + SlotsPerUpgrade * x.effect.upgrades
    ensures WellFormed(s.bag) ==> WellFormed(Purchase(s, x).state.bag)
  {
    var b := Purchase(s, x).state.bag;
    assert b == s.bag.(spaceUpgrades := s.bag.spaceUpgrades + x.effect.upgrades);
    if WellFormed(s.bag) {
      assert forall i :: 0 <= i < |b.items| ==> b.items[i] == s.bag.items[i];
    }
  }

  /**
   * Buying a special item into a full bag still charges and counts the
   * purchase; the bag is left as it was.
   */
  lemma GrantIntoFullBagIsLost(s: State, x: ShopItem)
    requires x.effect.Grant? && s.resources.gems >= x.cost && IsFull(s.bag)
    ensures Purchase(s, x).state.bag == s.bag
    ensures Purchase(s, x).state.resources.gems == s.resources.gems - x.cost
    ensures PurchaseCount(Purchase(s, x).state, x.id) == PurchaseCount(s, x.id) + 1
  {
  }

  /** Every buy from the catalog keeps the inventory ledger sound and never lowers the tool. */
  lemma CatalogPurchasePreservesInvariants(s: State, x: ShopItem)
    requires x in ShopItems
    ensures var r := Purchase(s, x).state;
      && (WellFormed(s.bag) ==> WellFormed(r.bag))
      && r.tool.power >= s.tool.power && r.tool.level >= s.tool.level
  {
    ShopCatalogWellFormed();
    if s.resources.gems >= x.cost {
      match x.effect
      case PowerUp(_) =>
      case BagUp(_) => BagUpgradeRaisesCapacity(s, x);
      case Grant(item) =>
        var charged := s.(resources := s.resources.(gems := s.resources.gems - x.cost),
                          purchased := s.purchased[x.id := PurchaseCount(s, x.id) + 1]);
        if WellFormed(s.bag) {
          AddPreservesWellFormed(charged.bag, item);
        }
    }
  }
}
