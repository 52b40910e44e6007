/**
 * The static content catalogs of the game: the three kinds of cell content
 * (plain resources, gems and special items), their variants in the order the
 * catalogs declare them, and the per-variant constants (rarity, value, name).
 */
module Catalog {

  /** The `type` tag of a cell content or inventory entry. */
  datatype ItemType = ResourceType | GemType | SpecialType

  datatype ResourceKind = Stone | Dirt | Ore
  datatype GemKind = Blue | Purple | Green | Red
  datatype SpecialKind = Magnet | Bomb | Compass | Pickaxe | Chest

  /**
   * What a cell holds: a (type, variant) pair. Two contents are equal exactly
   * when their type tags and their variant keys are equal.
   */
  datatype Content =
    | Resource(resource: ResourceKind)
    | Gem(gem: GemKind)
    | Special(special: SpecialKind)
  {
    function Type(): ItemType {
      match this
      case Resource(_) => ResourceType
      case Gem(_) => GemType
      case Special(_) => SpecialType
    }

    /** The catalog key that names this variant. */
    function Variant(): string {
      match this
      case Resource(r) =>
        (match r case Stone => "stone" case Dirt => "dirt" case Ore => "ore")
      case Gem(g) =>
        (match g case Blue => "blue" case Purple => "purple" case Green => "green" case Red => "red")
      case Special(s) =>
        (match s
         case Magnet => "magnet" case Bomb => "bomb" case Compass => "compass"
         case Pickaxe => "pickaxe" case Chest => "chest")
    }
  }

  /** The type tag as the string the inventory compares and sorts by. */
  function TypeName(t: ItemType): string {
    match t
    case ResourceType => "resource"
    case GemType => "gem"
    case SpecialType => "special"
  }

  /** Catalog keys in declaration order; the samplers walk them in this order. */
  const SpecialOrder: seq<SpecialKind> := [Magnet, Bomb, Compass, Pickaxe, Chest]
  const GemOrder: seq<GemKind> := [Blue, Purple, Green, Red]
  const ResourceOrder: seq<ResourceKind> := [Stone, Dirt, Ore]

  /** Special-item rarity; used by the sampler as the inverse weight 1/rarity. */
  function SpecialRarity(k: SpecialKind): (r: real)
    ensures 0.0 < r <= 1.0
  {
    match k
    case Magnet => 0.8
    case Bomb => 0.85
    case Compass => 0.9
    case Pickaxe => 0.95
    case Chest => 0.75
  }

  /** Gem rarity ("higher = more rare"); also an inverse sampling weight. */
  function GemRarity(k: GemKind): (r: real)
    ensures 0.0 < r <= 1.0
  {
    match k
    case Blue => 0.5
    case Purple => 0.7
    case Green => 0.6
    case Red => 0.8
  }

  function GemValue(k: GemKind): int {
    match k
    case Blue => 10
    case Purple => 15
    case Green => 12
    case Red => 20
  }

  function ResourceValue(k: ResourceKind): int {
    match k
    case Stone => 1
    case Dirt => 1
    case Ore => 3
  }

  function SpecialName(k: SpecialKind): string {
    match k
    case Magnet => "Magnet"
    case Bomb => "Mining Bomb"
    case Compass => "Gem Compass"
    case Pickaxe => "Lucky Pickaxe"
    case Chest => "Treasure Chest"
  }

  /** The catalog key orders list every variant exactly once. */
  lemma CatalogOrdersAreComplete()
    ensures forall k: SpecialKind :: k in SpecialOrder
    ensures forall k: GemKind :: k in GemOrder
    ensures forall k: ResourceKind :: k in ResourceOrder
    ensures forall i, j :: 0 <= i < j < |SpecialOrder| ==> SpecialOrder[i] != SpecialOrder[j]
    ensures forall i, j :: 0 <= i < j < |GemOrder| ==> GemOrder[i] != GemOrder[j]
    ensures forall i, j :: 0 <= i < j < |ResourceOrder| ==> ResourceOrder[i] != ResourceOrder[j]
  {
    forall k: SpecialKind ensures k in SpecialOrder {
      assert k == SpecialOrder[0] || k == SpecialOrder[1] || k == SpecialOrder[2]
        || k == SpecialOrder[3] || k == SpecialOrder[4];
    }
    forall k: GemKind ensures k in GemOrder {
      assert k == GemOrder[0] || k == GemOrder[1] || k == GemOrder[2] || k == GemOrder[3];
    }
    forall k: ResourceKind ensures k in ResourceOrder {
      assert k == ResourceOrder[0] || k == ResourceOrder[1] || k == ResourceOrder[2];
    }
  }

  /** A content is determined by its type tag and variant key. */
  lemma TypeAndVariantDetermineContent(a: Content, b: Content)
    ensures a == b <==> (a.Type() == b.Type() && a.Variant() == b.Variant())
  {
  }
}
