/**
 * The inventory sort orders. Each order is a comparator that is a total
 * preorder, and sorting returns a rearrangement of a copy of the entries that
 * is ordered by it; the input sequence is a value and is never changed.
 */
module InventorySort {
  import opened Catalog
  import opened Inventory

  datatype SortMethod = ByName | ByType | ByRarity | ByQuantity | ByDefault

  /** The sort selector; any unrecognised string selects the default order. */
  function MethodOf(s: string): SortMethod {
    if s == "name" then ByName
    else if s == "type" then ByType
    else if s == "rarity" then ByRarity
    else if s == "quantity" then ByQuantity
    else ByDefault
  }

  // ---------------------------------------------------------------------------
  // Lexicographic order on strings (by code unit)

  /** `a` is not after `b` in lexicographic order of code units. */
  predicate StrLe(a: string, b: string)
    decreases |a|
  {
    if |a| == 0 then true
    else if |b| == 0 then false
    else if a[0] != b[0] then a[0] < b[0]
    else StrLe(a[1..], b[1..])
  }

  lemma {:induction false} StrLeTotal(a: string, b: string)
    ensures StrLe(a, b) || StrLe(b, a)
    decreases |a|
  {
    if |a| > 0 && |b| > 0 && a[0] == b[0] {
      StrLeTotal(a[1..], b[1..]);
    }
  }

  lemma {:induction false} StrLeTrans(a: string, b: string, c: string)
    requires StrLe(a, b) && StrLe(b, c)
    ensures StrLe(a, c)
    decreases |a|
  {
    if |a| > 0 && |b| > 0 && |c| > 0 && a[0] == b[0] && b[0] == c[0] {
      StrLeTrans(a[1..], b[1..], c[1..]);
    }
  }

  lemma {:induction false} StrLeAntisymmetric(a: string, b: string)
    requires StrLe(a, b) && StrLe(b, a)
    ensures a == b
    decreases |a|
  {
    if |a| > 0 && |b| > 0 {
      StrLeAntisymmetric(a[1..], b[1..]);
      assert a == [a[0]] + a[1..] && b == [b[0]] + b[1..];
    }
  }

  // ---------------------------------------------------------------------------
  // The comparators

  /** `a.quantity || 1`: a missing or zero quantity sorts as 1. */
  function QuantityKey(x: Item): int {
    if x.quantity == 0 then 1 else x.quantity
  }

  /**
   * `a` may come before `b`: the source comparator returns a value <= 0.
   * Rarity and quantity sort descending; the default groups by type, then
   * sorts resources by value and everything else by rarity, both descending.
   */
  predicate Le(m: SortMethod, a: Item, b: Item) {
    match m
    case ByName => StrLe(a.name, b.name)
    case ByType =>
      if a.content.Type() != b.content.Type() then StrLe(TypeName(a.content.Type()), TypeName(b.content.Type()))
      else StrLe(a.content.Variant(), b.content.Variant())
    case ByRarity => a.rarity >= b.rarity
    case ByQuantity => QuantityKey(a) >= QuantityKey(b)
    case ByDefault =>
      if a.content.Type() != b.content.Type() then StrLe(TypeName(a.content.Type()), TypeName(b.content.Type()))
      else if a.content.Resource? then a.value >= b.value
      else a.rarity >= b.rarity
  }

  lemma TypeNameInjective(s: ItemType, t: ItemType)
    requires TypeName(s) == TypeName(t)
    ensures s == t
  {
  }

  /** Every comparator relates each pair one way or the other. */
  lemma LeTotal(m: SortMethod, a: Item, b: Item)
    ensures Le(m, a, b) || Le(m, b, a)
  {
    match m
    case ByName => StrLeTotal(a.name, b.name);
    case ByType =>
      StrLeTotal(TypeName(a.content.Type()), TypeName(b.content.Type()));
      StrLeTotal(a.content.Variant(), b.content.Variant());
    case ByRarity =>
    case ByQuantity =>
    case ByDefault => StrLeTotal(TypeName(a.content.Type()), TypeName(b.content.Type()));
  }

  /** Types order among themselves by name; two different types are never tied. */
  lemma TypeOrderTrans(a: Item, b: Item, c: Item)
    requires a.content.Type() != b.content.Type() ==> StrLe(TypeName(a.content.Type()), TypeName(b.content.Type()))
    requires b.content.Type() != c.content.Type() ==> StrLe(TypeName(b.content.Type()), TypeName(c.content.Type()))
    ensures a.content.Type() != c.content.Type() ==> StrLe(TypeName(a.content.Type()), TypeName(c.content.Type()))
    ensures a.content.Type() == c.content.Type() && a.content.Type() != b.content.Type() ==> false
  {
    var ta, tb, tc := TypeName(a.content.Type()), TypeName(b.content.Type()), TypeName(c.content.Type());
    if a.content.Type() != b.content.Type() && b.content.Type() != c.content.Type() {
      StrLeTrans(ta, tb, tc);
      if a.content.Type() == c.content.Type() {
        StrLeAntisymmetric(ta, tb);
        TypeNameInjective(a.content.Type(), b.content.Type());
      }
    }
  }

  /** Every comparator is transitive. */
  lemma LeTrans(m: SortMethod, a: Item, b: Item, c: Item)
    requires Le(m, a, b) && Le(m, b, c)
    ensures Le(m, a, c)
  {
    match m
    case ByName => StrLeTrans(a.name, b.name, c.name);
    case ByType =>
      TypeOrderTrans(a, b, c);
      if a.content.Type() == b.content.Type() && b.content.Type() == c.content.Type() {
        StrLeTrans(a.content.Variant(), b.content.Variant(), c.content.Variant());
      }
    case ByRarity =>
    case ByQuantity =>
    case ByDefault => TypeOrderTrans(a, b, c);
  }

  // ---------------------------------------------------------------------------
  // Sorting

  predicate Sorted(m: SortMethod, s: seq<Item>) {
    forall i, j :: 0 <= i < j < |s| ==> Le(m, s[i], s[j])
  }

  /** An entry that may precede everything in a sorted sequence may be put in front of it. */
  lemma ConsSorted(m: SortMethod, y: Item, s: seq<Item>)
    requires Sorted(m, s)
    requires forall z :: z in s ==> Le(m, y, z)
    ensures Sorted(m, [y] + s)
  {
    var r := [y] + s;
    forall i, j | 0 <= i < j < |r| ensures Le(m, r[i], r[j]) {
      if i == 0 {
        assert r[j] == s[j - 1];
        assert s[j - 1] in s;
      } else {
        assert r[i] == s[i - 1] && r[j] == s[j - 1];
      }
    }
  }

  /** The head of a sorted sequence may precede all of it, and so anything the head may precede. */
  lemma HeadPrecedes(m: SortMethod, s: seq<Item>, x: Item, rest: seq<Item>)
    requires Sorted(m, s) && |s| > 0 && Le(m, s[0], x)
    requires multiset(rest) == multiset(s[1..]) + multiset{x}
    ensures forall z :: z in rest ==> Le(m, s[0], z)
  {
    forall z | z in rest ensures Le(m, s[0], z) {
      assert z in multiset(rest);
      if z != x {
        assert z in multiset(s[1..]);
        var k :| 0 <= k < |s[1..]| && s[1..][k] == z;
        assert s[k + 1] == z;
      }
    }
  }

  /** Inserts `x` before the first entry it may precede. */
  function Insert(m: SortMethod, x: Item, s: seq<Item>): (r: seq<Item>)
    requires Sorted(m, s)
    ensures multiset(r) == multiset(s) + multiset{x}
    ensures Sorted(m, r)
    decreases |s|
  {
    if |s| == 0 then [x]
    else if Le(m, x, s[0]) then
      assert forall z :: z in s ==> Le(m, x, z) by {
        forall z | z in s ensures Le(m, x, z) {
          var j :| 0 <= j < |s| && s[j] == z;
          if j > 0 { LeTrans(m, x, s[0], s[j]); }
        }
      }
      ConsSorted(m, x, s);
      [x] + s
    else
      var rest := Insert(m, x, s[1..]);
      LeTotal(m, x, s[0]);
      HeadPrecedes(m, s, x, rest);
      ConsSorted(m, s[0], rest);
      assert s == [s[0]] + s[1..];
      [s[0]] + rest
  }

  function SortBy(m: SortMethod, s: seq<Item>): (r: seq<Item>)
    ensures multiset(r) == multiset(s)
    ensures Sorted(m, r)
    decreases |s|
  {
    if |s| == 0 then []
    else
      assert s == [s[0]] + s[1..];
      Insert(m, s[0], SortBy(m, s[1..]))
  }

  /**
   * Sorts a copy of the entries by the selected order: the result is a
   * permutation of the input, ordered by that order's comparator.
   */
  function SortInventoryItems(items: seq<Item>, sortMethod: string): (r: seq<Item>)
    ensures multiset(r) == multiset(items)
    ensures |r| == |items|
    ensures Sorted(MethodOf(sortMethod), r)
  {
    var r := SortBy(MethodOf(sortMethod), items);
    assert |r| == |multiset(r)| == |multiset(items)| == |items|;
    r
  }
}
