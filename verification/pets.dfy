/** The companion roster (`PetManager` in js/systems/pets.js): each species
    adopted at most once, the first adoption becomes the active companion,
    and feeding or petting raises stats that are capped at 100. */
module Pets {
  import opened Common
  import Inventory

  type PetId = string

  /** Stats cap for happiness and affection; hunger floor is 0. */
  const StatCap: int := 100

  datatype Stats = Stats(happiness: int, hunger: int, energy: int)

  /** A `PetData` entry: the stats a new pet starts with and its favourite
      foods. */
  datatype PetDef = PetDef(baseStats: Stats, favoriteFood: seq<Inventory.ItemId>)

  type PetCatalog = map<PetId, PetDef>

  datatype Pet = Pet(
    id: PetId,
    customName: Option<string>,
    happiness: int,
    hunger: int,
    energy: int,
    affection: int,
    adoptedDay: int)

  /** Owned pets in adoption order and the active one, named by species id. */
  datatype Roster = Roster(owned: seq<Pet>, active: Option<PetId>)

  const Empty := Roster([], None)

  predicate Owns(r: Roster, id: PetId) {
    exists k | 0 <= k < |r.owned| :: r.owned[k].id == id
  }

  /** Owned species are pairwise distinct. */
  predicate DistinctPets(r: Roster) {
    forall a, b | 0 <= a < b < |r.owned| :: r.owned[a].id != r.owned[b].id
  }

  /** `ownedPets.find(p => p.id === petId)`: the first owned pet of that
      species. */
  function Find(owned: seq<Pet>, id: PetId): (r: Option<nat>)
    ensures r.Some? ==> r.value < |owned| && owned[r.value].id == id
                        && forall k | 0 <= k < r.value :: owned[k].id != id
    ensures r.None? ==> forall k | 0 <= k < |owned| :: owned[k].id != id
  {
    if owned == [] then None
    else if owned[0].id == id then Some(0)
    else match Find(owned[1..], id)
      case None => None
      case Some(k) => Some(k + 1)
  }

  /** `adoptPet(petId, customName)`: refuses an owned or unknown species;
      otherwise appends a pet with the species' base stats and affection 0,
      and makes it active only if no pet was active. */
  function AdoptPet(cat: PetCatalog, r: Roster, id: PetId, customName: Option<string>, day: int)
    : (res: (Roster, bool))
    ensures res.1 <==> !Owns(r, id) && id in cat
    ensures !res.1 ==> res.0 == r
    ensures res.1 ==> var b := cat[id].baseStats;
                      && res.0.owned == r.owned + [Pet(id, customName, b.happiness, b.hunger, b.energy, 0, day)]
                      && res.0.active == (if r.active.None? then Some(id) else r.active)
    ensures DistinctPets(r) ==> DistinctPets(res.0)
    ensures id in cat ==> Owns(res.0, id)
  {
    if Find(r.owned, id).Some? then (r, false)
    else if id !in cat then (r, false)
    else
      var b := cat[id].baseStats;
      var pet := Pet(id, customName, b.happiness, b.hunger, b.energy, 0, day);
      var owned := r.owned + [pet];
      assert owned[|r.owned|].id == id;
      (Roster(owned, if r.active.None? then Some(id) else r.active), true)
  }

  /** The stat changes of one feeding: favourites lower hunger by 40 and
      raise happiness by 15 and affection by 5; other food by 25, 5 and 2. */
  function Fed(p: Pet, favourite: bool): (q: Pet)
    ensures q == p.(hunger := q.hunger, happiness := q.happiness, affection := q.affection)
    ensures var d := if favourite then 40 else 25;
            && q.hunger >= 0 && q.hunger >= p.hunger - d
            && (q.hunger == 0 || q.hunger == p.hunger - d)
    ensures var d := if favourite then 15 else 5;
            && q.happiness <= StatCap && q.happiness <= p.happiness + d
            && (q.happiness == StatCap || q.happiness == p.happiness + d)
    ensures var d := if favourite then 5 else 2;
            && q.affection <= StatCap && q.affection <= p.affection + d
            && (q.affection == StatCap || q.affection == p.affection + d)
  {
    p.(hunger := Max(0, p.hunger - (if favourite then 40 else 25)),
       happiness := Min(StatCap, p.happiness + (if favourite then 15 else 5)),
       affection := Min(StatCap, p.affection + (if favourite then 5 else 2)))
  }

  /** `feedPet(petId, foodItemId)`: needs an owned pet and a held food item;
      consumes exactly one unit and updates that pet only. */
  function FeedPet(cat: PetCatalog, r: Roster, inv: Inventory.Inventory, id: PetId, food: Inventory.ItemId)
    : (res: (Roster, Inventory.Inventory, bool))
    ensures res.2 <==> Owns(r, id) && Inventory.HasItem(inv, food, 1) && id in cat
    ensures !res.2 ==> res.0 == r && res.1 == inv
    ensures res.2 ==> && Inventory.Count(res.1, food) == Inventory.Count(inv, food) - 1
                      && res.1.items - {food} == inv.items - {food}
                      && var k := Find(r.owned, id).value;
                         res.0 == r.(owned := r.owned[k := Fed(r.owned[k], food in cat[id].favoriteFood)])
  {
    match Find(r.owned, id)
    case None => (r, inv, false)
    case Some(k) =>
      if !Inventory.HasItem(inv, food, 1) || id !in cat then (r, inv, false)
      else
        var (inv1, _) := Inventory.RemoveItem(inv, food, 1);
        var pet := Fed(r.owned[k], food in cat[id].favoriteFood);
        (r.(owned := r.owned[k := pet]), inv1, true)
  }

  /** `petInteract(petId)`: +10 happiness and +3 affection, each capped. */
  function PetInteract(r: Roster, id: PetId): (res: (Roster, bool))
    ensures res.1 <==> Owns(r, id)
    ensures !res.1 ==> res.0 == r
    ensures res.1 ==> |res.0.owned| == |r.owned| && res.0.active == r.active
    ensures res.1 ==> var k := Find(r.owned, id).value;
                      var p := r.owned[k];
                      var q := res.0.owned[k];
                      && (forall j | 0 <= j < |r.owned| && j != k :: res.0.owned[j] == r.owned[j])
                      && q == p.(happiness := q.happiness, affection := q.affection)
                      && q.happiness <= StatCap && q.happiness <= p.happiness + 10
                      && (q.happiness == StatCap || q.happiness == p.happiness + 10)
                      && q.affection <= StatCap && q.affection <= p.affection + 3
                      && (q.affection == StatCap || q.affection == p.affection + 3)
  {
    match Find(r.owned, id)
    case None => (r, false)
    case Some(k) =>
      var p := r.owned[k];
      (r.(owned := r.owned[k := p.(happiness := Min(StatCap, p.happiness + 10),
                                   affection := Min(StatCap, p.affection + 3))]), true)
  }

  /** `setActivePet(petId)`: only an owned pet can become active. */
  function SetActivePet(r: Roster, id: PetId): (res: (Roster, bool))
    ensures res.1 <==> Owns(r, id)
    ensures res.1 ==> res.0 == r.(active := Some(id))
    ensures !res.1 ==> res.0 == r
  {
    if Find(r.owned, id).Some? then (r.(active := Some(id)), true) else (r, false)
  }

  /** The active pet, when there is one, is an owned pet. */
  predicate ActiveOwned(r: Roster) {
    r.active.Some? ==> Owns(r, r.active.value)
  }

  /** `getSaveData()`: the owned pets and the active pet's id. */
  datatype SaveData = SaveData(owned: seq<Pet>, activeId: Option<PetId>)

  /** The object `loadSaveData` receives: each key may be missing. */
  datatype LoadData = LoadData(owned: Option<seq<Pet>>, activeId: Option<PetId>)

  function Save(r: Roster): SaveData {
    SaveData(r.owned, r.active)
  }

  function AsLoad(s: SaveData): LoadData {
    LoadData(Some(s.owned), s.activeId)
  }

  /** `loadSaveData(data)`: owned pets are replaced when present; a non-empty
      active id is then looked up among the (possibly new) owned pets, and
      clears the active pet when it names none of them. */
  function Load(r: Roster, d: LoadData): (res: Roster)
    ensures res.owned == (if d.owned.Some? then d.owned.value else r.owned)
    ensures d.activeId.Some? && d.activeId.value != "" ==>
              (res.active == Some(d.activeId.value) <==> Owns(res, d.activeId.value))
              && (res.active.None? <==> !Owns(res, d.activeId.value))
    ensures d.activeId.None? || d.activeId.value == "" ==> res.active == r.active
  {
    var owned := if d.owned.Some? then d.owned.value else r.owned;
    var active :=
      if d.activeId.Some? && d.activeId.value != "" then
        (if Find(owned, d.activeId.value).Some? then d.activeId else None)
      else r.active;
    Roster(owned, active)
  }

  /** Adoption keeps the active pet among the owned ones. */
  lemma AdoptKeepsActiveOwned(cat: PetCatalog, r: Roster, id: PetId, name: Option<string>, day: int)
    requires ActiveOwned(r)
    ensures ActiveOwned(AdoptPet(cat, r, id, name, day).0)
  {
    var res := AdoptPet(cat, r, id, name, day);
    if res.1 && r.active.Some? {
      var k :| 0 <= k < |r.owned| && r.owned[k].id == r.active.value;
      assert res.0.owned[k] == r.owned[k];
    } else if res.1 {
      assert res.0.owned[|r.owned|].id == id;
    }
  }

  /** A roster whose active pet is owned comes back unchanged from a save,
      whatever roster it is loaded over — provided it has an active pet
      (without one the save carries no id and the old active pet stays). */
  lemma SaveLoadRoundTrip(r: Roster, other: Roster)
    requires ActiveOwned(r) && r.active.Some? && r.active.value != ""
    ensures Load(other, AsLoad(Save(r))) == r
  {
  }

  /** Saving a roster without an active pet and loading it over one that has
      an active pet keeps the latter's active id. */
  lemma LoadKeepsStaleActive()
    ensures var other := Roster([Pet("sheepdog", None, 80, 50, 100, 0, 1)], Some("sheepdog"));
            Load(other, AsLoad(Save(Empty))) == Roster([], Some("sheepdog"))
  {
  }
}
