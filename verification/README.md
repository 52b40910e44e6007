# Digger: a Dafny model of the game rules

Digger is a casual mining game. The player taps the cells of an N×N grid.
Each tap lowers a cell's durability by one. A cell breaks when its durability
reaches zero and reveals a plain resource (stone, dirt, ore), a gem or a rare
special item. The reveal credits the resource counters and offers an entry to
a capacity-bounded, stackable inventory. Breaking the last cell completes the
layer and grants a depth-dependent reward. The player can then dig deeper into
a harder layer. Gems are the shop currency, spent on tool upgrades, bag
upgrades and special items.

This project models the game-rule core as immutable datatypes and pure
state-to-state functions:

- `Catalog` (`catalog.dfy`): the content kinds and the catalog tables (rarity, value, name).
- `Inventory` (`inventory.dfy`): the ledger, with add, remove, the capacity rule and the ledger invariant.
- `InventoryViews` (`inventory_views.dfy`): the category tabs and the rarity label.
- `InventorySort` (`inventory_sort.dfy`): the five sort orders.
- `Sampling` (`sampling.dfy`): the two weighted-choice walks, over exact reals.
- `GameState` (`game_state.dfy`): the state record, the initial state, property access by name and difficulty scaling.
- `Resources` (`resources.dfy`): content selection for a new cell and the layer-completion reward.
- `Grid` (`grid.dfy`): cell generation, digging, breaking, revealing, the completion check, the descent and the surrounding-cell scan.
- `Shop` (`shop.dfy`): the shop catalog, availability, category listings and purchasing.

Every call of `Math.random()` is a real-valued parameter of the function that
consumes it, so the whole model is deterministic. The game mutates one
global state object; here every operation takes a `State` and returns the new one.

Where the code and its design description differ, the model follows the code:

- `purchaseItem` does not check the gem balance. The funds check sits in the
  buy button's click handler. The model therefore splits purchasing into
  `Shop.ConfirmPurchase` (the unchecked transition) and `Shop.Purchase` (the
  checked tap).
- Shop availability also requires `currentDepth >= requiredLevel`, besides the
  tool-level requirement and the purchase cap.
- A new stackable entry always starts at quantity 1, whatever quantity the
  caller supplies. So the layer reward's stone and gem entries add one unit
  each to the inventory, even though the counters receive the full reward.
- The inverse-rarity walk subtracts weights from the draw rather than keeping
  a running total. `Sampling.SubtractiveWalkIsPrefixSearch` proves the two
  formulations agree.

## Model

| member | source | states |
|---|---|---|
| Catalog.SpecialRarity | js/modules/gameState.js:23-59 | Every special-item rarity lies in (0, 1], so its inverse sampling weight exists and is at least 1 |
| Catalog.GemRarity | js/modules/gameState.js:81-106 | Every gem rarity lies in (0, 1] |
| Catalog.CatalogOrdersAreComplete | js/modules/gameState.js:23-106 | The key orders the samplers walk list every special item, gem and resource, with no key twice |
| Catalog.TypeAndVariantDetermineContent | js/modules/inventory.js:120-123 | Two contents are equal exactly when their type tag and variant key are, so matching on (type, variant) is matching on content |
| Inventory.FindStack | js/modules/inventory.js:120-123 | Returns the first entry with the given content; `None` exactly when no entry matches |
| Inventory.MaxCapacity | js/modules/inventory.js:177-180 | The slot limit is a multiple of ten, at least the base 50 iff the upgrade count is non-negative, and determines the upgrade count: (limit − 50) / 10 is the number of space upgrades |
| Inventory.CapacityGrowsWithUpgrades | js/modules/inventory.js:177-180 | More space upgrades never mean fewer slots, whatever the bags hold; each upgrade adds exactly ten |
| Inventory.Add | js/modules/inventory.js:111-144 | A full bag refuses, even a top-up, and a refusal changes nothing. When the first entry of the same (type, variant) exists, a stackable item tops it up by one unit iff that entry is stackable and holds fewer than 99, with all other entries untouched. Otherwise the item is appended, a new stack starting at 1, and one slot is used |
| Inventory.Remove | js/modules/inventory.js:153-170 | An out-of-range index returns nothing and changes nothing. A stack holding more than the quantity is decremented in place and a copy with the removed quantity is returned. Otherwise the entry is spliced out whole, returned, and frees its slot |
| Inventory.EmptyBagWellFormed | js/modules/inventory.js:13-15 | The starting bag satisfies the ledger invariant and has 50 slots |
| Inventory.AddPreservesWellFormed | js/modules/inventory.js:111-144 | After any add, used slots equal the entry count and stay within capacity; stacks hold 1..99 units; no two stackable entries share a (type, variant) |
| Inventory.RemovePreservesWellFormed | js/modules/inventory.js:153-170 | Removing at least one unit keeps the same ledger invariant |
| Inventory.AddStackableAddsOneUnit | js/modules/inventory.js:118-142 | A successful stackable add brings in exactly one unit of its own (type, variant) and none of any other, whatever quantity was supplied |
| Inventory.AddThenRemoveRestores | js/modules/inventory.js:111-170 | Removing one unit where an accepted add put it restores the bag exactly (entries and slot count) and returns an entry of the added content, for stackable and non-stackable items alike |
| InventoryViews.FilterCategory | js/modules/inventory.js:192-207 | Keeps every copy of each entry that belongs to the category and drops every other entry: the count of each entry in the result is its count in the inventory if it is in the category, otherwise 0 |
| InventoryViews.ItemsByCategory | js/modules/inventory.js:187-208 | `"all"` lists the whole inventory; any other tab lists every copy of each entry of its category and nothing else; an unknown tab lists nothing |
| InventoryViews.CategoriesPartition | js/modules/inventory.js:193-206 | Every entry falls in exactly one of the four tabs resources, gems, tools and treasures |
| InventoryViews.CategoryCountsAddUp | js/modules/inventory.js:192-207 | The four tab listings together have as many entries as the inventory |
| InventoryViews.GetRarityLabel | js/modules/inventory.js:619-624 | Legendary iff rarity ≥ 0.9, Rare iff 0.7 ≤ rarity < 0.9, Uncommon iff 0.5 ≤ rarity < 0.7, Common iff rarity < 0.5 |
| InventoryViews.RarityLabelMonotone | js/modules/inventory.js:619-624 | A higher rarity never gets a lower label |
| InventoryViews.CatalogRarityLabels | js/modules/inventory.js:619-624 | No catalog special item or gem is labelled Common |
| InventorySort.StrLeTotal | js/modules/inventory.js:221 | Any two names compare one way or the other in code-unit order |
| InventorySort.StrLeTrans | js/modules/inventory.js:221 | Code-unit order on names is transitive |
| InventorySort.StrLeAntisymmetric | js/modules/inventory.js:221 | Two names that compare both ways are equal |
| InventorySort.LeTotal | js/modules/inventory.js:219-260 | Each of the five comparators (name, type, rarity, quantity, default) relates every pair of entries one way or the other |
| InventorySort.LeTrans | js/modules/inventory.js:219-260 | Each of the five comparators is transitive, so it is a total preorder that sorting can respect |
| InventorySort.SortInventoryItems | js/modules/inventory.js:216-264 | The result is a permutation of the entries (same multiset, same length), ordered by the comparator the method string selects; unknown strings select the default order |
| GameState.InitialState | js/modules/gameState.js:7-21 | A new game starts with all counters at 0, depth 1, a 5×5 grid, tool power and level 1, an empty well-formed inventory, no cells, no purchases and no scaling values |
| GameState.BumpResource | js/modules/grid.js:250 | Adds one to the named resource counter and leaves the other counters and the gems alone |
| GameState.MinHardnessFor | js/modules/gameState.js:135 | At least 1; for depth ≥ 2 it is the floor of depth / 2; 1 for depths below 4 |
| GameState.MaxHardnessBonusFor | js/modules/gameState.js:138 | At most 10; below depth 15 it is the floor of 2·depth / 3; exactly 10 from depth 15 on |
| GameState.ScalingMatchesRealFormulas | js/modules/gameState.js:133-142 | The integer forms equal `max(1, floor(depth / 2))` and `min(10, floor(depth / 1.5))` computed over the reals |
| GameState.ScalingMonotone | js/modules/gameState.js:133-142 | Neither scaled value decreases as depth grows |
| GameState.ApplyDifficultyScaling | js/modules/gameState.js:133-142 | Writes both scaled values for the current depth and changes nothing else |
| GameState.GetGameState | js/modules/gameState.js:115-117 | A falsy name reads the whole state; any other name reads that property, present exactly when the key exists |
| GameState.UpdateGameState | js/modules/gameState.js:124-128 | Never adds or drops a key; overwrites the named property only when the name is truthy and already present; every other property is kept |
| GameState.GetAfterUpdate | js/modules/gameState.js:115-128 | Reading a property back after writing it sees the written value; writing an absent property leaves it absent |
| Sampling.SubtractiveWalkIsPrefixSearch | js/modules/resources.js:54-65 | Subtracting weights from the draw until it is below the next weight finds the first index whose running total exceeds the draw; it runs off the end iff no running total does |
| Sampling.CumulativeWalkIsPrefixSearch | js/modules/resources.js:150-162 | The running-total walk with `<=` finds the first index whose running total the draw does not exceed; it runs off the end iff every running total is below the draw |
| Sampling.SubtractiveWalkFallsThroughIff | js/modules/resources.js:54-72 | With non-negative weights the subtractive walk reaches the fallback exactly when the draw is at least the total weight |
| Sampling.CumulativeWalkFallsThroughIff | js/modules/resources.js:150-169 | With non-negative weights the cumulative walk reaches the fallback exactly when the draw exceeds the total weight |
| Sampling.SumNormalize | js/modules/resources.js:142-147 | Dividing every weight by the total divides their sum by the total |
| Resources.DetermineResourceForCell | js/modules/resources.js:13-34 | Special iff the first draw is below 0.01 + 0.005·depth; gem iff that fails and the second draw is below 0.05 + 0.02·depth; resource otherwise; the branch's selector picks the variant from one further draw (the second content draw for a special cell, the third otherwise) |
| Resources.TierThresholdsByDepth | js/modules/resources.js:18-32 | The two thresholds sum to at most 1 exactly up to depth 37; from depth 48 on, no cell holds a plain resource |
| Resources.InverseRarity | js/modules/resources.js:49 | The weight is the reciprocal of the rarity and at least 1 |
| Resources.InverseRarityPick | js/modules/resources.js:54-65 | Returns the first index whose running total of weights exceeds the scaled draw; falls through iff the scaled draw reaches the total |
| Resources.SelectRandomSpecialItem | js/modules/resources.js:40-73 | Always a special item. For a draw below 1 it is the first catalog key whose running inverse-rarity total exceeds draw·total. A draw of 1 or more gives the chest fallback |
| Resources.SelectRandomGem | js/modules/resources.js:79-112 | Always a gem. For a draw below 1 it is the first catalog key whose running inverse-rarity total exceeds draw·total. A draw of 1 or more gives the blue fallback |
| Resources.ResourceWeights | js/modules/resources.js:128-140 | Every depth tier gives three positive (stone, dirt, ore) weights |
| Resources.ResourceSharesStep | js/modules/resources.js:122-147 | One level deeper, the normalised ore share never falls and the stone share never rises |
| Resources.ResourceSharesByDepth | js/modules/resources.js:122-147 | At any greater depth the ore share is at least, and the stone share at most, what it was higher up: the more valuable resource becomes more common with depth |
| Resources.NormalizedResourceWeights | js/modules/resources.js:142-147 | Each of the three weights is the tier weight divided by the tier total, which is positive; the results are non-negative and sum to exactly 1 |
| Resources.SelectRandomResource | js/modules/resources.js:118-170 | Always a resource. For a draw in [0, 1] the walk never falls through and picks the first resource whose cumulative normalised weight the draw does not exceed |
| Resources.StoneReward | js/modules/resources.js:208-211 | Equals `floor(5 + depth·2·0.5)` over the reals, at least 6 |
| Resources.GemReward | js/modules/resources.js:208-212 | Equals `floor(1 + depth·2·0.1)` over the reals, at least 1 |
| Resources.GiveLayerCompletionRewards | js/modules/resources.js:206-248 | Stone and gem counters grow by the two rewards, and the inventory is offered a stone stack and then a blue-gem stack; dirt, ore and everything outside the counters and the inventory stay the same |
| Resources.LayerRewardAddsAtMostOneUnitEach | js/modules/resources.js:218-247 | The inventory gains at most one stone unit and one blue-gem unit, loses nothing, and keeps its ledger invariant |
| Resources.LayerRewardAddsOneUnitEachWithRoom | js/modules/resources.js:218-247 | With two free slots and any stone or blue-gem stack below 99, the inventory gains exactly one stone unit and one blue-gem unit and nothing else |
| Grid.CreateCell | js/modules/grid.js:47-67 | A fresh cell keeps its index, is unbroken at full durability, has hardness between depth and depth + 2 for a unit draw, and holds the content the selector picks |
| Grid.GenerateGrid | js/modules/grid.js:29-40 | gridSize² fresh cells, cell i at index i, each unbroken at full durability with hardness between depth and depth + 2 and holding the content the selector picks from cell i's draws |
| Grid.DigCell | js/modules/grid.js:83-97 | A broken cell is unchanged; otherwise durability drops by exactly one, the cell is broken iff durability is now ≤ 0, and nothing else about it changes |
| Grid.BreaksAfterDurabilityDigs | js/modules/grid.js:83-97 | A cell with durability n ≥ 1 survives n − 1 digs, breaks on the n-th at durability 0, and further digs change nothing |
| Grid.FreshCellBreaksAfterHardnessDigs | js/modules/grid.js:49-97 | A freshly generated cell breaks on exactly its hardness-th dig |
| Grid.Capitalize | js/modules/grid.js:545-547 | For ASCII keys: upper-cases the first character and keeps the rest and the length |
| Grid.RevealedItem | js/modules/grid.js:210-263 | The offered entry carries the revealed content, stacks iff it is a gem or resource, and is a single unit |
| Grid.ProcessResourceReveal | js/modules/grid.js:193-269 | A gem adds one gem, a resource one unit of its own counter, a special item nothing; the entry is offered to the inventory; nothing else changes |
| Grid.CheckLayerCompletion | js/modules/grid.js:471-486 | Complete iff every cell is broken; then the layer reward is granted, otherwise the state is unchanged; the cells are never touched |
| Grid.BreakCell | js/modules/grid.js:168-187 | Marks exactly this cell broken and reports completion iff all cells are then broken. The counters and the bag end as the reveal of its content leaves them, plus the layer reward exactly when the layer is complete; nothing else changes |
| Grid.Dig | js/modules/grid.js:83-97 | A tap on a broken or missing cell is a no-op. Otherwise only the tapped cell changes, by one dig. The cell breaks iff its durability was at most 1. The layer completes iff that break leaves every cell broken, which needs a previously incomplete layer. A tap that breaks nothing credits nothing. Depth, tool, grid size, purchases and scaling never change |
| Grid.BreakingCreditsContent | js/modules/grid.js:168-181 | A breaking tap that does not complete the layer credits exactly the cell's content to the counters and offers its entry to the inventory |
| Grid.CompletingDigGrantsReward | js/modules/grid.js:180-186 | The completing tap credits the cell's content and then the layer reward, and offers the inventory the cell's item, then the stone and blue-gem reward stacks; at depth 1 the reward is 6 stone and 1 gem |
| Grid.RewardGrantedAtMostOnce | js/modules/grid.js:471-486 | Over any sequence of taps the layer reward is granted at most once, and exactly when the taps take an incomplete layer to a complete one; broken cells stay broken |
| Grid.HandleDigDeeper | js/modules/grid.js:520-538 | Depth grows by one, the cells are replaced by a fresh grid for the new depth, and scaling is applied for the new depth. Nothing else changes, and a non-empty new layer is not complete |
| Grid.ScanRow | js/modules/grid.js:298-303 | Scanning the columns of one row appends exactly the in-grid neighbours of that row other than the cell itself, in increasing order |
| Grid.SurroundingIndices | js/modules/grid.js:288-304 | An index is listed iff it is in the grid, is not the cell itself, and differs from it by at most one row and one column. The list is strictly increasing and has at most 8 entries |
| Shop.ShopCatalogWellFormed | js/modules/shop.js:12-173 | Every catalog item has a listed category, a positive cost, a required level of at least 1 and an effect that only raises. Exactly the special items are uncapped. No two items share an id |
| Shop.FilterAvailable | js/modules/shop.js:240-252 | Keeps every copy of each item whose tool level and depth requirements are met and whose purchase count is below the cap, and drops every other item |
| Shop.Available | js/modules/shop.js:240-252 | An item is available iff tool level and depth both reach its required level and, for a capped item, its purchase count is below the cap |
| Shop.AvailabilityMonotone | js/modules/shop.js:240-252 | Raising the tool level or depth never withdraws an offer, and only more purchases can |
| Shop.AvailableShopItems | js/modules/shop.js:236-253 | An item is offered iff it is in the catalog, the tool level and depth reach its required level, and its purchase count is below its cap; each offered item appears as often as in the catalog, and no other item appears |
| Shop.FilterCategory | js/modules/shop.js:267 | Keeps every copy of each item of the given category and drops every other item |
| Shop.ItemsByCategory | js/modules/shop.js:260-268 | `"all"` lists every available item; any other id lists exactly the available items of that category; an unknown id lists nothing |
| Shop.CategoryListingsPartition | js/modules/shop.js:174-195 | Every available item appears under its own category and under no other listed category |
| Shop.CappedItemUnavailable | js/modules/shop.js:244-246 | An item whose purchase count has reached its cap is offered nowhere |
| Shop.UnlimitedItemsAlwaysOffered | js/modules/shop.js:101-171 | An uncapped catalog item is offered exactly when tool level and depth reach its required level, however often it was bought |
| Shop.ApplyEffect | js/modules/shop.js:23-171 | A pickaxe raises power by its amount and level by one; a bag adds its upgrades; a special item is offered to the inventory; nothing else changes |
| Shop.ConfirmPurchase | js/modules/shop.js:426-448 | Charges the cost without checking the balance, counts one more purchase of this id only, applies the effect, and changes nothing else |
| Shop.Purchase | js/modules/shop.js:408-414 | Refused with `InsufficientFunds` and no change iff the gems are below the cost; otherwise the confirmed purchase |
| Shop.PurchaseBelowCostScenario | js/modules/shop.js:408-414 | With 10 gems the 15-gem pickaxe upgrade is refused and nothing changes |
| Shop.PurchaseKeepsGemsNonNegative | js/modules/shop.js:408-414 | A tap never takes a non-negative gem balance below zero |
| Shop.SingleUseItemGoneAfterPurchase | js/modules/shop.js:87-100 | Once an item with a cap of one is bought, no later state that keeps the purchase record offers it again |
| Shop.BagUpgradeRaisesCapacity | js/modules/shop.js:59-100 | An affordable bag upgrade raises the capacity by ten slots per upgrade and keeps the ledger invariant |
| Shop.GrantIntoFullBagIsLost | js/modules/shop.js:110-122 | Buying a special item into a full bag still charges and counts the purchase, but the bag is unchanged |
| Shop.CatalogPurchasePreservesInvariants | js/modules/shop.js:426-448 | Every tap on a catalog item keeps the inventory ledger invariant and never lowers tool power or level |

## Left out

- Rendering is not modelled: the DOM, animations, particles, notifications, sound, timers and the modal windows. The `setTimeout` delay in `handleDigDeeper` is not modelled either; the descent happens at once.
- The modules for saving and loading, the UI wiring and the entry points (`saveManager.js`, `ui.js`, `main.js`, `game.js`) are not part of this model.
- Using an inventory item (`useItem`, `openTreasureChest`) and the item-details view are not part of this model.
- Floating point: all probabilities, weights and rarities are exact reals, so IEEE rounding (for example `0.05 * 3`) is not modelled. The two rewards and the two scaling values are integer forms proved equal to the real-valued formulas.
- Grid.Capitalize: upper-cases ASCII letters only; JavaScript's `toUpperCase` follows Unicode and can lengthen a string ("ß" becomes "SS"). The function is only applied to the catalog's ASCII variant keys.
- The order of `Math.random()` calls is not modelled. Each cell's draws are separate parameters: hardness, the special test, the gem test and the selector's pick. In the source a special cell skips the gem test, so its selector uses the second content draw rather than the third. Independent uniform draws have the same distribution in either order.
- `localeCompare` is modelled as lexicographic order of code units. Locale collation rules are not modelled.
- InventorySort.SortInventoryItems: states a sorted permutation but not which order tied entries take; the stability of `Array.prototype.sort` is not modelled.
- Entries the source builds without `quantity`, `value` or `rarity` carry quantity 1 and value or rarity 0 here. These are the values the `|| 0` and `|| 1` fallbacks in the sort comparators read. Where the source compares a missing quantity directly (`undefined < 99` when topping up a stack), `Inventory.Add` consults the entry's stackability instead, which gives the same refusal.
- `updateGameState` and `getGameState` are modelled over a string-keyed map. Keys inherited through the prototype chain, which JavaScript's `in` also sees, are not modelled.
- Inventory.RemovePreservesWellFormed: requires a quantity of at least 1; the source does not validate the quantity, and a zero or negative quantity can leave a stack at zero or above 99.
- Resources.SelectRandomSpecialItem: the draw's meaning is stated through the draw already scaled by the total weight; the floating-point multiplication is not modelled.
- Resources.SelectRandomResource: states the pick only for draws in [0, 1], the range of `Math.random()`.
- The tool's power is never read when digging: one tap always removes exactly one durability. The model keeps it that way.
- The two scaling values (`minHardness`, `maxHardnessBonus`) are written on each descent but never read by cell generation; the model records them the same way.
- The source binds each tap to a cell object, so an out-of-range index cannot occur; `Grid.Dig` treats one as a no-op.
- The source disables the dig-deeper button until the layer is complete; `Grid.HandleDigDeeper` does not require completion, since the button state is presentation.
- `shop.js` imports `updateState`, which `gameState.js` does not export. The model assumes the shop module loads.
- The messages returned by shop effects and shown in notifications are not modelled.
- The inventory tab and sort selection kept in `inventoryMeta` (`activeCategory`, `sortMethod`) are presentation state; only the functions that read them are modelled.
- The game statistics (blocks mined, maximum depth, total resources) are not modelled.
