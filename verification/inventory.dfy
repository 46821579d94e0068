/** The player's bag and purse (`Inventory` in
    rpg-vibe-2025/js/systems/inventory.js): at most 30 distinct stacks, each
    clamped to its item's stack size, and a coin balance that cannot be
    overdrawn. The quest event `addItem` submits is added by module Game. */
module Inventory {
  import opened Common
  import Player

  type ItemId = string

  /** Distinct stacks the bag can hold (`maxSlots`). */
  const MaxSlots: nat := 30
  /** Stack limit of an item whose definition gives none. */
  const DefaultStack: int := 99
  /** Coins at the start of a game. */
  const StartingCoins: int := 100

  datatype Category = Resource | Food | Ingredient | Tool | Equipment | Recipe | QuestItem

  /** An `ItemData` entry; 0 stands for an absent `stackSize`, `energy` or
      `health` field (all three are read through JavaScript truthiness). */
  datatype ItemDef = ItemDef(category: Category, stackSize: int, energy: int, health: int)

  type ItemCatalog = map<ItemId, ItemDef>

  datatype Inventory = Inventory(items: map<ItemId, int>, coins: int)

  const Empty := Inventory(map[], StartingCoins)

  /** `stackSize || 99`. */
  function StackLimit(d: ItemDef): int {
    if d.stackSize != 0 then d.stackSize else DefaultStack
  }

  /** `this.items[id]` is truthy: present with a non-zero count. */
  predicate Holds(inv: Inventory, id: ItemId) {
    id in inv.items && inv.items[id] != 0
  }

  /** `hasItem(id, qty)`. */
  predicate HasItem(inv: Inventory, id: ItemId, qty: int) {
    Holds(inv, id) && inv.items[id] >= qty
  }

  /** `getItemCount(id)`: the stored count, 0 when absent. */
  function Count(inv: Inventory, id: ItemId): int {
    if id in inv.items then inv.items[id] else 0
  }

  /** No stored count is zero or negative. */
  predicate Positive(inv: Inventory) {
    forall k | k in inv.items :: inv.items[k] > 0
  }

  /** Every stack is within the slot cap. */
  predicate WithinSlots(inv: Inventory) {
    |inv.items| <= MaxSlots
  }

  /** Every item definition has a non-negative stack size, so every limit is
      at least 1. */
  predicate CatalogOk(cat: ItemCatalog) {
    forall k | k in cat :: cat[k].stackSize >= 0
  }

  /** The storing half of `addItem(itemId, qty)`: unknown items and new
      stacks beyond the slot cap are refused; otherwise the count becomes
      `min(count + qty, limit)`, silently dropping the excess, and the call
      still succeeds. */
  function StoreItem(cat: ItemCatalog, inv: Inventory, id: ItemId, qty: int): (r: (Inventory, bool))
    ensures !r.1 <==> id !in cat || (!Holds(inv, id) && |inv.items| >= MaxSlots)
    ensures !r.1 ==> r.0 == inv
    ensures r.1 ==> (&& id in r.0.items
                     && r.0.items[id] <= StackLimit(cat[id])
                     && r.0.items[id] <= Count(inv, id) + qty
                     && (r.0.items[id] == StackLimit(cat[id]) || r.0.items[id] == Count(inv, id) + qty))
    ensures r.1 ==> r.0.items - {id} == inv.items - {id} && r.0.coins == inv.coins
  {
    if id !in cat then (inv, false)
    else if !Holds(inv, id) && |inv.items| >= MaxSlots then (inv, false)
    else
      var base := if Holds(inv, id) then inv.items[id] else 0;
      (inv.(items := inv.items[id := Min(base + qty, StackLimit(cat[id]))]), true)
  }

  /** One unit of each listed item stored in order, each refusal ignored:
      the storing half of a loop of `addItem(itemId, 1)` calls. Items not
      listed, and the purse, are untouched. */
  function StoreEach(cat: ItemCatalog, inv: Inventory, items: seq<ItemId>): (r: Inventory)
    ensures r.coins == inv.coins
    ensures forall x | x !in items :: (x in r.items <==> x in inv.items) && (x in inv.items ==> r.items[x] == inv.items[x])
    decreases |items|
  {
    if items == [] then inv
    else
      assert forall x | x !in items :: x != items[0] && x !in items[1..];
      StoreEach(cat, StoreItem(cat, inv, items[0], 1).0, items[1..])
  }

  /** Storing never reads the purse: storing over a bag with another purse
      gives the same bag with that purse. */
  lemma {:induction false} StoreEachIgnoresCoins(cat: ItemCatalog, inv: Inventory, items: seq<ItemId>, coins: int)
    ensures StoreEach(cat, inv.(coins := coins), items) == StoreEach(cat, inv, items).(coins := coins)
    decreases |items|
  {
    if items != [] {
      var a := StoreItem(cat, inv, items[0], 1).0;
      assert StoreItem(cat, inv.(coins := coins), items[0], 1).0 == a.(coins := coins);
      StoreEachIgnoresCoins(cat, a, items[1..], coins);
    }
  }

  /** `removeItem(itemId, qty)`: fails unchanged unless `qty` are held;
      otherwise subtracts exactly `qty` and deletes a stack that reaches 0. */
  function RemoveItem(inv: Inventory, id: ItemId, qty: int): (r: (Inventory, bool))
    ensures r.1 <==> HasItem(inv, id, qty)
    ensures !r.1 ==> r.0 == inv
    ensures r.1 ==> Count(r.0, id) == Count(inv, id) - qty
    ensures r.1 ==> (id in r.0.items ==> r.0.items[id] > 0)
    ensures r.0.items - {id} == inv.items - {id} && r.0.coins == inv.coins
  {
    if !HasItem(inv, id, qty) then (inv, false)
    else
      var left := inv.items[id] - qty;
      if left <= 0 then (inv.(items := inv.items - {id}), true)
      else (inv.(items := inv.items[id := left]), true)
  }

  /** `addCoins(amt)`. */
  function AddCoins(inv: Inventory, amount: int): (r: Inventory)
    ensures r.coins - inv.coins == amount && r.items == inv.items
  {
    inv.(coins := inv.coins + amount)
  }

  /** `removeCoins(amt)`: refuses to overdraw. */
  function RemoveCoins(inv: Inventory, amount: int): (r: (Inventory, bool))
    ensures r.1 <==> inv.coins >= amount
    ensures r.1 ==> r.0.coins + amount == inv.coins && r.0.items == inv.items
    ensures !r.1 ==> r.0 == inv
    ensures inv.coins >= 0 && amount >= 0 ==> r.0.coins >= 0
  {
    if inv.coins < amount then (inv, false)
    else (inv.(coins := inv.coins - amount), true)
  }

  /** `useItem(itemId)`: only a held FOOD item can be used; it restores the
      player's energy and health by its values (when non-zero) and one unit
      is consumed. Anything else fails with no change. */
  function UseItem(cat: ItemCatalog, inv: Inventory, p: Player.Player, id: ItemId)
    : (r: (Inventory, Player.Player, bool))
    ensures r.2 <==> id in cat && cat[id].category == Food && HasItem(inv, id, 1)
    ensures !r.2 ==> r.0 == inv && r.1 == p
    ensures r.2 ==> (&& Count(r.0, id) == Count(inv, id) - 1
                     && r.0.items - {id} == inv.items - {id})
    ensures r.1.energy <= Max(p.energy, p.maxEnergy) && r.1.health <= Max(p.health, p.maxHealth)
    ensures r.1 == p.(energy := r.1.energy, health := r.1.health)
    ensures r.2 ==> var e := cat[id].energy;
                    && (e == 0 ==> r.1.energy == p.energy)
                    && (e != 0 ==> && r.1.energy <= p.maxEnergy && r.1.energy <= p.energy + e
                                   && (r.1.energy == p.maxEnergy || r.1.energy == p.energy + e))
    ensures r.2 ==> var h := cat[id].health;
                    && (h == 0 ==> r.1.health == p.health)
                    && (h != 0 ==> && r.1.health <= p.maxHealth && r.1.health <= p.health + h
                                   && (r.1.health == p.maxHealth || r.1.health == p.health + h))
  {
    if id !in cat || !HasItem(inv, id, 1) then (inv, p, false)
    else if cat[id].category != Food then (inv, p, false)
    else
      var d := cat[id];
      var p1 := if d.energy != 0 then Player.RestoreEnergy(p, d.energy) else p;
      var p2 := if d.health != 0 then Player.RestoreHealth(p1, d.health) else p1;
      var (inv1, ok) := RemoveItem(inv, id, 1);
      (inv1, p2, ok)
  }

  /** `getSaveData()`. */
  datatype SaveData = SaveData(items: map<ItemId, int>, coins: int)

  /** The object `loadSaveData` receives: each key may be missing. */
  datatype LoadData = LoadData(items: Option<map<ItemId, int>>, coins: Option<int>)

  function Save(inv: Inventory): SaveData {
    SaveData(inv.items, inv.coins)
  }

  /** `loadSaveData(data)`: each present key replaces its field. */
  function Load(inv: Inventory, d: LoadData): (r: Inventory)
    ensures d.items.Some? ==> r.items == d.items.value
    ensures d.items.None? ==> r.items == inv.items
    ensures d.coins.Some? ==> r.coins == d.coins.value
    ensures d.coins.None? ==> r.coins == inv.coins
  {
    Inventory(if d.items.Some? then d.items.value else inv.items,
              if d.coins.Some? then d.coins.value else inv.coins)
  }

  /** A save read back as a complete load object. */
  function AsLoad(s: SaveData): LoadData {
    LoadData(Some(s.items), Some(s.coins))
  }

  /** Loading a save restores the bag and purse exactly, whatever was loaded
      over. */
  lemma SaveLoadRoundTrip(inv: Inventory, other: Inventory)
    ensures Load(other, AsLoad(Save(inv))) == inv
  {
  }

  /** Adding an item never grows the bag beyond the slot cap. */
  lemma StoreKeepsSlotCap(cat: ItemCatalog, inv: Inventory, id: ItemId, qty: int)
    requires WithinSlots(inv)
    ensures WithinSlots(StoreItem(cat, inv, id, qty).0)
  {
    var r := StoreItem(cat, inv, id, qty);
    if r.1 {
      if id in inv.items {
        assert r.0.items.Keys == inv.items.Keys;
      } else {
        assert |inv.items| < MaxSlots;
        assert r.0.items.Keys == inv.items.Keys + {id};
      }
    }
  }

  /** Adding a positive quantity and removing never leave a zero or negative
      stack behind. */
  lemma StoreKeepsPositive(cat: ItemCatalog, inv: Inventory, id: ItemId, qty: int)
    requires CatalogOk(cat) && Positive(inv) && qty > 0
    ensures Positive(StoreItem(cat, inv, id, qty).0)
  {
  }

  lemma RemoveKeepsPositive(inv: Inventory, id: ItemId, qty: int)
    requires Positive(inv)
    ensures Positive(RemoveItem(inv, id, qty).0)
  {
    var r := RemoveItem(inv, id, qty);
    forall k | k in r.0.items
      ensures r.0.items[k] > 0
    {
      if k != id {
        assert k in r.0.items - {id};
      }
    }
  }

  /** Removing what was just added, when nothing was clamped, gives the bag
      back exactly: removal is the inverse of addition. */
  lemma RemoveUndoesStore(cat: ItemCatalog, inv: Inventory, id: ItemId, qty: int)
    requires Positive(inv) && qty > 0
    requires StoreItem(cat, inv, id, qty).1
    requires Count(inv, id) + qty <= StackLimit(cat[id])
    ensures RemoveItem(StoreItem(cat, inv, id, qty).0, id, qty) == (inv, true)
  {
    var s := StoreItem(cat, inv, id, qty).0;
    var r := RemoveItem(s, id, qty);
    assert r.1;
    assert r.0.items - {id} == inv.items - {id};
    if id in inv.items {
      assert r.0.items.Keys == inv.items.Keys;
      assert r.0.items[id] == inv.items[id];
    } else {
      assert id !in r.0.items;
    }
    assert r.0.items == inv.items;
  }
}
