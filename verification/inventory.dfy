/**
 * The inventory ledger: a capacity-bounded sequence of entries, where stackable
 * entries are keyed by (type, variant) and hold up to `MaxStackSize` units.
 * `currentCapacity` counts entries (slots), not units.
 */
module Inventory {
  import opened Catalog
  import opened Wrappers

  /** Slots available before any bag upgrade. */
  const BaseCapacity: int := 50
  /** Largest quantity a single stack can hold. */
  const MaxStackSize: int := 99
  /** Slots added by one unit of `spaceUpgrades`. */
  const SlotsPerUpgrade: int := 10

  /**
   * One inventory entry. `rarity` and `value` are 0 when the source leaves
   * them out; a non-stackable entry carries quantity 1.
   */
  datatype Item = Item(
    content: Content,
    name: string,
    value: int,
    rarity: real,
    stackable: bool,
    quantity: int)

  /** The entry list together with the bookkeeping half of `inventoryMeta`. */
  datatype Bag = Bag(items: seq<Item>, currentCapacity: int, spaceUpgrades: int)

  /** The empty bag that the inventory starts from. */
  const EmptyBag: Bag := Bag([], 0, 0)

  /**
   * The slot limit: the base capacity plus ten slots per space upgrade. It
   * depends on the upgrades alone, never on what the bag holds.
   */
  function MaxCapacity(bag: Bag): (m: int)
    ensures m >= BaseCapacity <==> bag.spaceUpgrades >= 0
    ensures m % SlotsPerUpgrade == 0
    ensures (m - BaseCapacity) / SlotsPerUpgrade == bag.spaceUpgrades
  {
    BaseCapacity + bag.spaceUpgrades * SlotsPerUpgrade
  }

  /** More space upgrades never mean fewer slots, whatever the two bags hold. */
  lemma CapacityGrowsWithUpgrades(a: Bag, b: Bag)
    requires a.spaceUpgrades <= b.spaceUpgrades
    ensures MaxCapacity(a) <= MaxCapacity(b)
    ensures MaxCapacity(b) - MaxCapacity(a) == SlotsPerUpgrade * (b.spaceUpgrades - a.spaceUpgrades)
  {
  }

  predicate IsFull(bag: Bag) {
    bag.currentCapacity >= MaxCapacity(bag)
  }

  /**
   * The first entry with the given type and variant, as `Array.find` returns it.
   * The entry's own `stackable` flag is not consulted.
   */
  function FindStack(items: seq<Item>, c: Content): (r: Option<nat>)
    ensures r.Some? ==> r.value < |items| && items[r.value].content == c
    ensures r.Some? ==> forall j :: 0 <= j < r.value ==> items[j].content != c
    ensures r.None? <==> forall j :: 0 <= j < |items| ==> items[j].content != c
    decreases |items|
  {
    if |items| == 0 then None
    else if items[0].content == c then Some(0)
    else
      match FindStack(items[1..], c)
      case None => None
      case Some(i) => Some(i + 1)
  }

  /** The entry as it is stored when appended: a new stack always starts at 1. */
  function Stored(item: Item): Item {
    if item.stackable then item.(quantity := 1) else item
  }

  datatype AddOutcome = AddOutcome(added: bool, bag: Bag)

  /**
   * Adds one unit of `item`. The capacity test comes first, so a full bag
   * refuses even an item that would only top up an existing stack; the
   * supplied quantity of a stackable item is ignored. A stackable item whose
   * first match is a non-stackable entry is refused: such an entry has no
   * quantity in the source, and `undefined < 99` is false.
   */
  function Add(bag: Bag, item: Item): (r: AddOutcome)
    ensures IsFull(bag) ==> !r.added
    ensures !r.added ==> r.bag == bag
    ensures r.bag.spaceUpgrades == bag.spaceUpgrades
    ensures !IsFull(bag) && item.stackable && FindStack(bag.items, item.content).Some? ==>
      var i := FindStack(bag.items, item.content).value;
      && (r.added <==> bag.items[i].stackable && bag.items[i].quantity < MaxStackSize)
      && (r.added ==>
            && |r.bag.items| == |bag.items|
            && r.bag.currentCapacity == bag.currentCapacity
            && r.bag.items[i] == bag.items[i].(quantity := bag.items[i].quantity + 1)
            && forall j :: 0 <= j < |bag.items| && j != i ==> r.bag.items[j] == bag.items[j])
    ensures !IsFull(bag) && (!item.stackable || FindStack(bag.items, item.content).None?) ==>
      && r.added
      && r.bag.items == bag.items + [Stored(item)]
      && r.bag.currentCapacity == bag.currentCapacity + 1
  {
    if IsFull(bag) then
      AddOutcome(false, bag)
    else if item.stackable && FindStack(bag.items, item.content).Some? then
      var i := FindStack(bag.items, item.content).value;
      var existing := bag.items[i];
      if existing.stackable && existing.quantity < MaxStackSize then
        AddOutcome(true, bag.(items := bag.items[i := existing.(quantity := existing.quantity + 1)]))
      else
        AddOutcome(false, bag)
    else
      AddOutcome(true, bag.(items := bag.items + [Stored(item)],
                            currentCapacity := bag.currentCapacity + 1))
  }

  datatype RemoveOutcome = RemoveOutcome(removed: Option<Item>, bag: Bag)

  /**
   * Removes `quantity` units of the entry at `index`. A stackable entry that
   * holds more than that is decremented in place and a copy carrying the removed
   * quantity is returned; otherwise the whole entry is spliced out.
   */
  function Remove(bag: Bag, index: int, quantity: int): (r: RemoveOutcome)
    ensures r.removed.None? <==> !(0 <= index < |bag.items|)
    ensures r.removed.None? ==> r.bag == bag
    ensures r.bag.spaceUpgrades == bag.spaceUpgrades
    ensures 0 <= index < |bag.items| && bag.items[index].stackable
              && bag.items[index].quantity > quantity ==>
      && r.removed == Some(bag.items[index].(quantity := quantity))
      && |r.bag.items| == |bag.items|
      && r.bag.currentCapacity == bag.currentCapacity
      && r.bag.items[index] == bag.items[index].(quantity := bag.items[index].quantity - quantity)
      && forall j :: 0 <= j < |bag.items| && j != index ==> r.bag.items[j] == bag.items[j]
    ensures 0 <= index < |bag.items| && !(bag.items[index].stackable
              && bag.items[index].quantity > quantity) ==>
      && r.removed == Some(bag.items[index])
      && r.bag.items == bag.items[..index] + bag.items[index + 1..]
      && r.bag.currentCapacity == bag.currentCapacity - 1
  {
    if index < 0 || index >= |bag.items| then
      RemoveOutcome(None, bag)
    else
      var item := bag.items[index];
      if item.stackable && item.quantity > quantity then
        RemoveOutcome(Some(item.(quantity := quantity)),
                      bag.(items := bag.items[index := item.(quantity := item.quantity - quantity)]))
      else
        RemoveOutcome(Some(item), bag.(items := bag.items[..index] + bag.items[index + 1..],
                                       currentCapacity := bag.currentCapacity - 1))
  }

  // ---------------------------------------------------------------------------
  // The ledger invariant

  /** `currentCapacity` counts the entries. */
  predicate CapacityTracksEntries(bag: Bag) {
    bag.currentCapacity == |bag.items|
  }

  /** Every stack holds between 1 and `MaxStackSize` units. */
  predicate StacksBounded(items: seq<Item>) {
    forall i :: 0 <= i < |items| && items[i].stackable ==> 1 <= items[i].quantity <= MaxStackSize
  }

  /** A stackable entry is the first entry of its (type, variant). */
  predicate StacksUnique(items: seq<Item>) {
    forall i, j :: 0 <= i < j < |items| && items[j].stackable ==> items[i].content != items[j].content
  }

  predicate WellFormed(bag: Bag) {
    && CapacityTracksEntries(bag)
    && StacksBounded(bag.items)
    && StacksUnique(bag.items)
    && bag.currentCapacity <= MaxCapacity(bag)
  }

  lemma EmptyBagWellFormed()
    ensures WellFormed(EmptyBag)
    ensures MaxCapacity(EmptyBag) == 50
  {
  }

  /** Adding keeps the ledger invariant: slots track entries, stacks stay in 1..99. */
  lemma AddPreservesWellFormed(bag: Bag, item: Item)
    requires WellFormed(bag)
    ensures WellFormed(Add(bag, item).bag)
  {
    var r := Add(bag, item);
    if r.added && !(item.stackable && FindStack(bag.items, item.content).Some?) {
      var s := r.bag.items;
      assert s == bag.items + [Stored(item)];
      forall i, j | 0 <= i < j < |s| && s[j].stackable
        ensures s[i].content != s[j].content
      {
        if j == |bag.items| {
          assert s[j] == Stored(item) && item.stackable;
          assert FindStack(bag.items, item.content).None?;
          assert s[i] == bag.items[i];
        } else {
          assert s[i] == bag.items[i] && s[j] == bag.items[j];
        }
      }
    }
  }

  /** Removing at least one unit keeps the ledger invariant. */
  lemma RemovePreservesWellFormed(bag: Bag, index: int, quantity: int)
    requires WellFormed(bag)
    requires quantity >= 1
    ensures WellFormed(Remove(bag, index, quantity).bag)
  {
    var r := Remove(bag, index, quantity);
    if 0 <= index < |bag.items| && !(bag.items[index].stackable && bag.items[index].quantity > quantity) {
      var s := r.bag.items;
      assert s == bag.items[..index] + bag.items[index + 1..];
      assert forall k :: 0 <= k < |s| ==> s[k] == bag.items[if k < index then k else k + 1];
    }
  }

  // ---------------------------------------------------------------------------
  // Units held per (type, variant)

  /** Total quantity held in the entries of the given type and variant. */
  function UnitsOf(items: seq<Item>, c: Content): int
    decreases |items|
  {
    if |items| == 0 then 0
    else (if items[0].content == c then items[0].quantity else 0) + UnitsOf(items[1..], c)
  }

  function UnitsIn(x: Item, c: Content): int {
    if x.content == c then x.quantity else 0
  }

  lemma {:induction false} UnitsOfAppend(items: seq<Item>, x: Item, c: Content)
    ensures UnitsOf(items + [x], c) == UnitsOf(items, c) + UnitsIn(x, c)
    decreases |items|
  {
    if |items| == 0 {
      assert items + [x] == [x];
      assert [x][1..] == [];
    } else {
      assert (items + [x])[1..] == items[1..] + [x];
      UnitsOfAppend(items[1..], x, c);
    }
  }

  lemma {:induction false} UnitsOfUpdate(items: seq<Item>, i: nat, x: Item, c: Content)
    requires i < |items|
    ensures UnitsOf(items[i := x], c) == UnitsOf(items, c) - UnitsIn(items[i], c) + UnitsIn(x, c)
    decreases |items|
  {
    if i == 0 {
      assert items[i := x][1..] == items[1..];
    } else {
      assert items[i := x][1..] == items[1..][i - 1 := x];
      UnitsOfUpdate(items[1..], i - 1, x, c);
    }
  }

  /**
   * A stackable add brings in exactly one unit of its own (type, variant) when
   * it succeeds, and none of any other, whatever quantity the caller supplied.
   */
  lemma AddStackableAddsOneUnit(bag: Bag, item: Item, c: Content)
    requires item.stackable
    ensures UnitsOf(Add(bag, item).bag.items, c)
            == UnitsOf(bag.items, c) + (if Add(bag, item).added && c == item.content then 1 else 0)
  {
    var r := Add(bag, item);
    if r.added {
      var f := FindStack(bag.items, item.content);
      if f.Some? {
        var i := f.value;
        assert r.bag.items == bag.items[i := bag.items[i].(quantity := bag.items[i].quantity + 1)];
        UnitsOfUpdate(bag.items, i, bag.items[i].(quantity := bag.items[i].quantity + 1), c);
      } else {
        UnitsOfAppend(bag.items, Stored(item), c);
      }
    }
  }

  // ---------------------------------------------------------------------------
  // Add followed by remove

  /** Where an accepted add left its unit: the matched stack, or the new last entry. */
  function AddedAt(bag: Bag, item: Item): int {
    if item.stackable && FindStack(bag.items, item.content).Some? then
      FindStack(bag.items, item.content).value
    else
      |bag.items|
  }

  /**
   * Removing one unit where an accepted add put it restores the bag exactly,
   * for stackable and non-stackable items alike.
   */
  lemma AddThenRemoveRestores(bag: Bag, item: Item)
    requires WellFormed(bag)
    requires Add(bag, item).added
    ensures Remove(Add(bag, item).bag, AddedAt(bag, item), 1).bag == bag
    ensures Remove(Add(bag, item).bag, AddedAt(bag, item), 1).removed.Some?
    ensures Remove(Add(bag, item).bag, AddedAt(bag, item), 1).removed.value.content == item.content
  {
    var a := Add(bag, item).bag;
    var i := AddedAt(bag, item);
    if item.stackable && FindStack(bag.items, item.content).Some? {
      assert a.items[i].stackable && a.items[i].quantity > 1;
      assert a.items[i := a.items[i].(quantity := a.items[i].quantity - 1)] == bag.items;
    } else {
      assert a.items[..i] == bag.items;
      assert a.items[i + 1..] == [];
      assert a.items[i] == Stored(item);
    }
  }
}
