/** The shop: a fixed catalogue in three categories, a coin balance, an
    inventory counting how many of each item the user holds, and item
    effects that raise the pet's stats. */
module Shop {
  import opened Wrappers
  import opened PetStats
  import Sorting

  /** How much an item raises each stat; 0 means the item does not touch
      that stat (the source leaves the key out, and `if (effect.x)` skips a
      missing key and a 0 alike). */
  datatype Effect = Effect(happiness: int, energy: int, focus: int)

  /** A catalogue entry; its name, description and icon are display only. */
  datatype Item = Item(id: string, price: nat, effect: Effect)

  const Food: seq<Item> := [
    Item("apple", 15, Effect(20, 0, 0)),
    Item("fish", 25, Effect(30, 15, 0)),
    Item("cake", 50, Effect(50, 0, 0)),
    Item("carrot", 20, Effect(0, 25, 0))]

  const Toys: seq<Item> := [
    Item("ball", 20, Effect(15, 0, 0)),
    Item("puzzle", 35, Effect(0, 0, 10)),
    Item("frisbee", 30, Effect(10, 20, 0)),
    Item("robot", 75, Effect(40, 20, 0))]

  const Accessories: seq<Item> := [
    Item("crown", 100, Effect(5, 5, 5)),
    Item("hat", 60, Effect(0, 0, 15)),
    Item("glasses", 80, Effect(0, 0, 20)),
    Item("cape", 90, Effect(0, 30, 0))]

  /** Every item, in the order the categories are declared. */
  const Catalog: seq<Item> := Food + Toys + Accessories

  /** The category buttons: "all", one of the three categories, or any
      other `data-category` value. */
  datatype Category = AllCategories | FoodCategory | ToysCategory | AccessoriesCategory | UnknownCategory

  /** `getItemsForCategory`: "all" lists the three categories one after
      the other; an unknown category lists nothing. */
  function ItemsForCategory(c: Category): (items: seq<Item>)
    ensures c == AllCategories ==> items == Food + Toys + Accessories
    ensures c == UnknownCategory ==> items == []
    ensures c == FoodCategory ==> items == Food
    ensures c == ToysCategory ==> items == Toys
    ensures c == AccessoriesCategory ==> items == Accessories
    ensures forall i :: 0 <= i < |items| ==> items[i] in Catalog
  {
    match c
    case AllCategories => Food + Toys + Accessories
    case FoodCategory => Food
    case ToysCategory => Toys
    case AccessoriesCategory => Accessories
    case UnknownCategory => []
  }

  function ItemId(x: Item): string {
    x.id
  }

  /** The position of the first item with the given id, or `|items|`. */
  function FirstIndex(items: seq<Item>, id: string): nat {
    Sorting.FindIndex(items, ItemId, id)
  }

  /** `findItemById`: the first catalogue item with the id, searching the
      categories in order; `None` when no item has it. */
  function FindItemById(id: string): (r: Option<Item>)
    ensures r.Some? ==> r.value in Catalog && r.value.id == id
    ensures r.None? <==> (forall i :: 0 <= i < |Catalog| ==> Catalog[i].id != id)
  {
    var k := FirstIndex(Catalog, id);
    if k < |Catalog| then Some(Catalog[k]) else None
  }

  /** The catalogue's ids are distinct, so the search finds the one item
      with an id. */
  lemma FindItemFindsEachItem(i: nat)
    requires i < |Catalog|
    ensures FindItemById(Catalog[i].id) == Some(Catalog[i])
  {
    var ids := seq(|Catalog|, j requires 0 <= j < |Catalog| => Catalog[j].id);
    assert ids == ["apple", "fish", "cake", "carrot", "ball", "puzzle", "frisbee", "robot",
                   "crown", "hat", "glasses", "cape"];
    var k := FirstIndex(Catalog, Catalog[i].id);
    assert Catalog[k].id == Catalog[i].id;
    assert k == i;
  }

  // ------------------------------------------------------------ inventory

  type Inventory = map<string, int>

  /** `inventory[id] || 0`: the count held, 0 when absent. */
  function Count(inv: Inventory, id: string): int {
    if id in inv then inv[id] else 0
  }

  /** The inventory keeps only positive counts. */
  predicate Positive(inv: Inventory) {
    forall k :: k in inv ==> inv[k] > 0
  }

  /** `hasItem`: a positive count is stored. */
  predicate HasItem(inv: Inventory, id: string) {
    id in inv && inv[id] > 0
  }

  /** `removeItemFromInventory`: one fewer, and the entry is deleted when
      nothing is left. */
  function RemoveItemFromInventory(inv: Inventory, id: string): (r: Inventory)
    requires id in inv
    ensures inv[id] > 1 ==> id in r && r[id] == inv[id] - 1
    ensures inv[id] <= 1 ==> id !in r
    ensures forall k :: k != id ==> (k in r <==> k in inv) && (k in r ==> r[k] == inv[k])
    ensures Positive(inv) ==> Positive(r)
  {
    if inv[id] - 1 <= 0 then inv - {id} else inv[id := inv[id] - 1]
  }

  /** `getInventoryItems`: the entries with a positive count. */
  function InventoryItems(inv: Inventory): (r: Inventory)
    ensures forall k :: k in r <==> HasItem(inv, k)
    ensures forall k :: k in r ==> k in inv && r[k] == inv[k]
    ensures Positive(r)
  {
    map k | k in inv && inv[k] > 0 :: inv[k]
  }

  /** An inventory of positive counts is listed in full. */
  lemma PositiveListedInFull(inv: Inventory)
    requires Positive(inv)
    ensures InventoryItems(inv) == inv
  {
  }

  // ---------------------------------------------------------------- effect

  /** `applyEffectToStats`: each stat the effect names becomes the stored
      value (85/70/95 when missing or 0, as `||` reads it) plus the effect,
      capped at 100; the others are left as they are. */
  function ApplyEffectToStats(pet: StoredStats, e: Effect): (r: StoredStats)
    ensures e.happiness != 0 ==> r.happiness == Some(Min(100.0, OrDefault(pet.happiness, DefaultHappiness) + e.happiness as real))
    ensures e.energy != 0 ==> r.energy == Some(Min(100.0, OrDefault(pet.energy, DefaultEnergy) + e.energy as real))
    ensures e.focus != 0 ==> r.focusPercentage == Some(Min(100.0, OrDefault(pet.focusPercentage, DefaultFocus) + e.focus as real))
    ensures e.happiness == 0 ==> r.happiness == pet.happiness
    ensures e.energy == 0 ==> r.energy == pet.energy
    ensures e.focus == 0 ==> r.focusPercentage == pet.focusPercentage
  {
    var h := if e.happiness != 0 then Some(Min(100.0, OrDefault(pet.happiness, DefaultHappiness) + e.happiness as real)) else pet.happiness;
    var en := if e.energy != 0 then Some(Min(100.0, OrDefault(pet.energy, DefaultEnergy) + e.energy as real)) else pet.energy;
    var f := if e.focus != 0 then Some(Min(100.0, OrDefault(pet.focusPercentage, DefaultFocus) + e.focus as real)) else pet.focusPercentage;
    StoredStats(h, en, f)
  }

  /** On stats in range with no stat at 0, a happiness and energy boost is
      the shared clamped update. */
  lemma EffectIsClampedUpdate(s: Stats, dh: int, de: int)
    requires Valid(s) && s.happiness != 0.0 && s.energy != 0.0
    requires dh > 0 && de > 0
    ensures var r := ApplyEffectToStats(Store(s), Effect(dh, de, 0));
      var u := UpdatePetStats(s, Changes(Some(dh as real), Some(de as real), None));
      r.happiness == Some(u.happiness) && r.energy == Some(u.energy) && r.focusPercentage == Some(s.focusPercentage)
  {
  }

  /** Catalogue effects are never negative, so they keep every stored stat
      in range. */
  lemma EffectKeepsRange(pet: StoredStats, e: Effect)
    requires e.happiness >= 0 && e.energy >= 0 && e.focus >= 0
    requires forall v :: v in {pet.happiness, pet.energy, pet.focusPercentage} && v.Some? ==> InRange(v.value)
    ensures var r := ApplyEffectToStats(pet, e);
      forall v :: v in {r.happiness, r.energy, r.focusPercentage} && v.Some? ==> InRange(v.value)
  {
  }

  // -------------------------------------------------------------- purchase

  /** The shop's state: the coin balance, the inventory and the stored pet
      stats that item effects change. */
  datatype ShopState = ShopState(currency: int, inventory: Inventory, pet: StoredStats)

  /** `canAffordItem`. */
  predicate CanAfford(s: ShopState, item: Item) {
    s.currency >= item.price
  }

  /** `buyItem` with `processPurchase`: an unknown id or an item the user
      cannot afford changes nothing; otherwise the price is paid, the count
      goes up by one and the item's effect is applied. */
  function BuyItem(s: ShopState, id: string): (r: ShopState)
    ensures FindItemById(id).None? ==> r == s
    ensures FindItemById(id).Some? && !CanAfford(s, FindItemById(id).value) ==> r == s
    ensures FindItemById(id).Some? && CanAfford(s, FindItemById(id).value) ==>
      var item := FindItemById(id).value;
      && r.currency == s.currency - item.price
      && r.inventory == s.inventory[id := Count(s.inventory, id) + 1]
      && r.pet == ApplyEffectToStats(s.pet, item.effect)
    ensures s.currency >= 0 ==> r.currency >= 0
    ensures Positive(s.inventory) ==> Positive(r.inventory)
  {
    match FindItemById(id)
    case None => s
    case Some(item) =>
      if !CanAfford(s, item) then s
      else ShopState(s.currency - item.price,
                     s.inventory[item.id := Count(s.inventory, item.id) + 1],
                     ApplyEffectToStats(s.pet, item.effect))
  }

  /** `useItem`: an item not held, or not in the catalogue, changes
      nothing; otherwise one is taken from the inventory and its effect is
      applied. */
  function UseItem(s: ShopState, id: string): (r: ShopState)
    ensures !HasItem(s.inventory, id) || FindItemById(id).None? ==> r == s
    ensures HasItem(s.inventory, id) && FindItemById(id).Some? ==>
      && r.currency == s.currency
      && r.inventory == RemoveItemFromInventory(s.inventory, id)
      && r.pet == ApplyEffectToStats(s.pet, FindItemById(id).value.effect)
    ensures Positive(s.inventory) ==> Positive(r.inventory)
  {
    if !HasItem(s.inventory, id) then s
    else match FindItemById(id)
      case None => s
      case Some(item) =>
        ShopState(s.currency, RemoveItemFromInventory(s.inventory, id), ApplyEffectToStats(s.pet, item.effect))
  }

  /** Using what was just bought gives back the inventory from before the
      purchase, and the price stays paid. */
  lemma UseUndoesBuyInventory(s: ShopState, id: string)
    requires Positive(s.inventory)
    requires FindItemById(id).Some? && CanAfford(s, FindItemById(id).value)
    ensures UseItem(BuyItem(s, id), id).inventory == s.inventory
    ensures UseItem(BuyItem(s, id), id).currency == s.currency - FindItemById(id).value.price
  {
    var b := BuyItem(s, id);
    assert HasItem(b.inventory, id);
    var r := RemoveItemFromInventory(b.inventory, id);
    if id in s.inventory {
      assert r == s.inventory;
    } else {
      assert r == s.inventory;
    }
  }
}
