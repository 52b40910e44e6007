/**
 * Read-only views of the inventory: the category tabs and the rarity label.
 */
module InventoryViews {
  import opened Catalog
  import opened Inventory

  /** The category an entry belongs to under a category tab id. */
  predicate InCategory(x: Item, categoryId: string) {
    if categoryId == "resources" then x.content.Resource?
    else if categoryId == "gems" then x.content.Gem?
    else if categoryId == "tools" then
      x.content.Special? && x.content.special in {Pickaxe, Magnet, Compass}
    else if categoryId == "treasures" then
      x.content.Special? && x.content.special in {Chest, Bomb}
    else false
  }

  /**
   * The entries of one category, in inventory order: every copy of an entry
   * of the category is kept, and nothing else.
   */
  function FilterCategory(items: seq<Item>, categoryId: string): (r: seq<Item>)
    ensures |r| <= |items|
    ensures forall k :: 0 <= k < |r| ==> InCategory(r[k], categoryId)
    ensures forall x :: x in r <==> x in items && InCategory(x, categoryId)
    ensures forall x :: multiset(r)[x] == if InCategory(x, categoryId) then multiset(items)[x] else 0
    decreases |items|
  {
    if |items| == 0 then []
    else
      assert items == [items[0]] + items[1..];
      if InCategory(items[0], categoryId) then [items[0]] + FilterCategory(items[1..], categoryId)
      else FilterCategory(items[1..], categoryId)
  }

  /** The inventory tab: "all" shows every entry, any other id filters by category. */
  function ItemsByCategory(items: seq<Item>, categoryId: string): (r: seq<Item>)
    ensures categoryId == "all" ==> r == items
    ensures categoryId != "all" ==> forall x :: x in r <==> x in items && InCategory(x, categoryId)
    ensures categoryId != "all" ==>
      forall x :: multiset(r)[x] == if InCategory(x, categoryId) then multiset(items)[x] else 0
    ensures categoryId !in {"all", "resources", "gems", "tools", "treasures"} ==> r == []
  {
    if categoryId == "all" then items
    else
      var r := FilterCategory(items, categoryId);
      assert |r| > 0 ==> InCategory(r[0], categoryId);
      r
  }

  /** Every entry falls in exactly one of the four category tabs. */
  lemma CategoriesPartition(x: Item)
    ensures |set id | id in ["resources", "gems", "tools", "treasures"] && InCategory(x, id)| == 1
  {
    var ids := set id | id in ["resources", "gems", "tools", "treasures"] && InCategory(x, id);
    match x.content
    case Resource(_) => assert ids == {"resources"};
    case Gem(_) => assert ids == {"gems"};
    case Special(k) =>
      match k
      case Pickaxe => assert ids == {"tools"};
      case Magnet => assert ids == {"tools"};
      case Compass => assert ids == {"tools"};
      case Chest => assert ids == {"treasures"};
      case Bomb => assert ids == {"treasures"};
  }

  /** So the four tabs together list each entry once: their sizes add up. */
  lemma {:induction false} CategoryCountsAddUp(items: seq<Item>)
    ensures |FilterCategory(items, "resources")| + |FilterCategory(items, "gems")|
            + |FilterCategory(items, "tools")| + |FilterCategory(items, "treasures")| == |items|
    decreases |items|
  {
    if |items| > 0 {
      CategoryCountsAddUp(items[1..]);
      var x := items[0];
      assert InCategory(x, "resources") <==> x.content.Resource?;
      assert InCategory(x, "gems") <==> x.content.Gem?;
      if x.content.Special? {
        assert InCategory(x, "tools") != InCategory(x, "treasures") by {
          match x.content.special
          case Pickaxe => case Magnet => case Compass => case Chest => case Bomb =>
        }
      }
    }
  }

  datatype RarityLabel = Common | Uncommon | Rare | Legendary

  function LabelRank(l: RarityLabel): nat {
    match l
    case Common => 0
    case Uncommon => 1
    case Rare => 2
    case Legendary => 3
  }

  /** The label shown for a rarity value. */
  function GetRarityLabel(rarity: real): (l: RarityLabel)
    ensures l == Legendary <==> rarity >= 0.9
    ensures l == Rare <==> 0.7 <= rarity < 0.9
    ensures l == Uncommon <==> 0.5 <= rarity < 0.7
    ensures l == Common <==> rarity < 0.5
  {
    if rarity >= 0.9 then Legendary
    else if rarity >= 0.7 then Rare
    else if rarity >= 0.5 then Uncommon
    else Common
  }

  /** A rarer entry never gets a lower label. */
  lemma RarityLabelMonotone(a: real, b: real)
    requires a <= b
    ensures LabelRank(GetRarityLabel(a)) <= LabelRank(GetRarityLabel(b))
  {
  }

  /** Every catalog special item and gem is at least Uncommon. */
  lemma CatalogRarityLabels(k: SpecialKind, g: GemKind)
    ensures GetRarityLabel(SpecialRarity(k)) != Common
    ensures GetRarityLabel(GemRarity(g)) != Common
  {
  }
}
