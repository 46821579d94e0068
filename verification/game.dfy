/** How the quest engine is wired into the rest of the game: reward delivery
    through the inventory, the player, the pet roster and a friendship sink
    (`grantRewards`), the quest events the other ledgers raise, and the
    event producers of rpg-vibe-2025/js/engine/game.js (`tryInteract`,
    `tryForage`, `handleNPCInteraction`).

    Adding an item may raise a `collect` event, the event may complete a
    quest, and the quest's item rewards add items again; that cycle is the
    mutually recursive group AddItem, UpdateObjective, CompleteQuest,
    GrantRewards and GrantItems. It terminates because every completion
    removes an active quest and nothing in the group starts one. */
module Game {
  import opened Common
  import Player
  import Inventory
  import Pets
  import Crafting
  import World
  import Quests

  type ItemId = string
  type NpcId = string

  /** The whole mutable game state the core touches. `friendship` is the
      relationship sink of `grantRewards`: None when no relationship manager
      is installed, otherwise the `(npc, amount)` calls it received, in
      order. `questHook` says whether the quest engine is installed as the
      global the inventory, crafting and world ledgers report to. */
  datatype Game = Game(
    quests: Quests.QuestState,
    inv: Inventory.Inventory,
    player: Player.Player,
    pets: Pets.Roster,
    crafting: Crafting.Crafting,
    world: World.World,
    friendship: Option<seq<(NpcId, int)>>,
    questHook: bool)

  /** The static data tables. */
  datatype Content = Content(
    quests: Quests.Catalog,
    items: Inventory.ItemCatalog,
    pets: Pets.PetCatalog,
    recipes: Crafting.RecipeCatalog,
    areas: World.AreaCatalog)

  /** What every step of the group keeps: the quest engine only evolves, the
      catalog still knows every active quest, the friendship sink is only
      appended to, the slot cap and distinct pets survive, and (for
      non-negative amounts) objective progress stays within its counts. */
  ghost predicate Keeps(c: Content, g: Game, r: Game, nonneg: bool) {
    && Quests.Evolves(g.quests, r.quests)
    && Quests.Known(c.quests, r.quests)
    && (r.friendship.None? <==> g.friendship.None?)
    && (g.friendship.Some? ==> g.friendship.value <= r.friendship.value)
    && (Inventory.WithinSlots(g.inv) ==> Inventory.WithinSlots(r.inv))
    && (Pets.DistinctPets(g.pets) ==> Pets.DistinctPets(r.pets))
    && (nonneg && Quests.Bounded(g.quests.active) ==> Quests.Bounded(r.quests.active))
  }

  /** The recipe book, the map and the hook are out of the group's reach. */
  predicate SameSetting(g: Game, r: Game) {
    r.crafting == g.crafting && r.world == g.world && r.questHook == g.questHook
  }

  lemma KeepsTrans(c: Content, a: Game, b: Game, d: Game, nonneg: bool)
    requires Keeps(c, a, b, nonneg) && Keeps(c, b, d, nonneg)
    ensures Keeps(c, a, d, nonneg)
  {
    Quests.EvolvesTrans(a.quests, b.quests, d.quests);
    if a.friendship.Some? {
      assert a.friendship.value == b.friendship.value[..|a.friendship.value|];
      assert b.friendship.value == d.friendship.value[..|b.friendship.value|];
    }
  }

  // ----- the reward / event group -----

  /** `Inventory.addItem(itemId, qty)`: stores the item and, when the quest
      engine is installed, reports a `collect` event of the same quantity. */
  function AddItem(c: Content, g: Game, id: ItemId, qty: int, clk: Quests.Clock): (r: (Game, bool))
    requires Quests.Known(c.quests, g.quests)
    ensures r.1 <==> id in c.items && (Inventory.Holds(g.inv, id) || |g.inv.items| < Inventory.MaxSlots)
    ensures !r.1 ==> r.0 == g
    ensures !g.questHook ==> r.0 == g.(inv := Inventory.StoreItem(c.items, g.inv, id, qty).0)
    ensures g.questHook && r.1 ==>
              r.0 == UpdateObjective(c, g.(inv := Inventory.StoreItem(c.items, g.inv, id, qty).0),
                                     Quests.Collect, id, qty, clk).0
    ensures Keeps(c, g, r.0, qty >= 0) && SameSetting(g, r.0)
    decreases |g.quests.active|, 4, 0
  {
    var (inv, ok) := Inventory.StoreItem(c.items, g.inv, id, qty);
    if !ok then (g, false)
    else
      assert Inventory.WithinSlots(g.inv) ==> Inventory.WithinSlots(inv) by {
        if Inventory.WithinSlots(g.inv) {
          Inventory.StoreKeepsSlotCap(c.items, g.inv, id, qty);
        }
      }
      var g1 := g.(inv := inv);
      if g.questHook then
        var g2 := UpdateObjective(c, g1, Quests.Collect, id, qty, clk).0;
        KeepsTrans(c, g, g1, g2, qty >= 0);
        (g2, true)
      else (g1, true)
  }

  /** `updateObjective(type, target, amount)`: advances the first matching
      objective and, when that finishes its quest, completes the quest on
      the spot. Reports whether anything matched. */
  function UpdateObjective(c: Content, g: Game, kind: Quests.EventKind, target: string, amount: int, clk: Quests.Clock)
    : (r: (Game, bool))
    requires Quests.Known(c.quests, g.quests)
    ensures r.1 <==> Quests.FindMatch(g.quests.active, kind, target).Some?
    ensures !r.1 ==> r.0 == g
    ensures r.1 ==> var (qs, at) := Quests.Advance(g.quests, kind, target, amount);
                    var inst := qs.active[at.value.0];
                    && (!Quests.IsComplete(inst) ==> r.0 == g.(quests := qs))
                    && (Quests.IsComplete(inst) ==> r.0 == CompleteQuest(c, g.(quests := qs), inst.id, clk).0)
                    && (Quests.IsComplete(inst) && Quests.UniqueActive(g.quests.active) ==>
                          !Quests.IsActive(r.0.quests, inst.id))
    ensures Keeps(c, g, r.0, amount >= 0) && SameSetting(g, r.0)
    decreases |g.quests.active|, 3, 0
  {
    var (qs, at) := Quests.Advance(g.quests, kind, target, amount);
    if at.None? then (g, false)
    else
      var g1 := g.(quests := qs);
      var inst := qs.active[at.value.0];
      if Quests.IsComplete(inst) then
        assert inst.id == g.quests.active[at.value.0].id;
        Quests.ActiveIdsMeaning(qs, inst.id);
        var g2 := CompleteQuest(c, g1, inst.id, clk).0;
        KeepsTrans(c, g, g1, g2, amount >= 0);
        (g2, true)
      else (g1, true)
  }

  /** `completeQuest(questId)`: refused when the quest is not active;
      otherwise the quest is retired, its rewards are delivered, each of its
      `unlocks` is logged (not started), and the completion is logged last. */
  function CompleteQuest(c: Content, g: Game, id: Quests.QuestId, clk: Quests.Clock): (r: (Game, bool))
    requires Quests.Known(c.quests, g.quests)
    ensures r.1 <==> Quests.IsActive(g.quests, id)
    ensures !r.1 ==> r.0 == g
    ensures r.1 ==> && id in c.quests
                    && |r.0.quests.active| < |g.quests.active|
                    && (!c.quests[id].repeatable ==> id in r.0.quests.completed)
                    && (Quests.UniqueActive(g.quests.active) ==> !Quests.IsActive(r.0.quests, id))
                    && |r.0.quests.log| > 0
                    && r.0.quests.log[|r.0.quests.log| - 1] == Quests.Entry(id, Quests.Completed, clk)
    ensures r.1 ==> var rw := c.quests[id].rewards;
                    rw.pet.Some? && rw.pet.value != "" && rw.pet.value in c.pets ==> Pets.Owns(r.0.pets, rw.pet.value)
    ensures r.1 && !g.questHook ==>
              var def := c.quests[id];
              && r.0.quests.active == RemoveAt(g.quests.active, Quests.FindActive(g.quests.active, id).value)
              && r.0.quests.completed == g.quests.completed + (if def.repeatable then [] else [id])
              && r.0.quests.log == g.quests.log + Quests.UnlockEntries(def.unlocks, clk)
                                   + [Quests.Entry(id, Quests.Completed, clk)]
              && r.0.inv == Inventory.StoreEach(c.items, g.inv, def.rewards.items).(coins := g.inv.coins + def.rewards.coins)
              && Player.LifetimeXp(r.0.player) == Player.LifetimeXp(g.player) + def.rewards.xp
              && (g.friendship.Some? ==> r.0.friendship == Some(g.friendship.value + def.rewards.friendship))
    ensures Keeps(c, g, r.0, true) && SameSetting(g, r.0)
    decreases |g.quests.active|, 2, 0
  {
    match Quests.Retire(c.quests, g.quests, id)
    case None => (g, false)
    case Some(qs) =>
      var def := c.quests[id];
      var g1 := g.(quests := qs);
      var g2 := GrantRewards(c, g1, def.rewards, clk);
      var g3 := g2.(quests := Quests.LogCompletion(g2.quests, id, def.unlocks, clk));
      KeepsTrans(c, g, g1, g2, true);
      KeepsTrans(c, g, g2, g3, true);
      assert !def.repeatable ==> id in qs.completed;
      Quests.PrefixMember(qs.completed, g3.quests.completed, id);
      Quests.ActiveIdsMeaning(qs, id);
      Quests.ActiveIdsMeaning(g3.quests, id);
      (g3, true)
  }

  /** `grantRewards(rewards)`: coins and XP when non-zero, one unit of each
      listed item, the friendship amounts when a relationship manager is
      installed, and the pet when its id is non-empty. The `energy` field
      some rewards carry is not read. */
  function GrantRewards(c: Content, g: Game, rw: Quests.Rewards, clk: Quests.Clock): (r: Game)
    requires Quests.Known(c.quests, g.quests)
    ensures Keeps(c, g, r, true) && SameSetting(g, r)
    ensures !g.questHook ==> && r.quests == g.quests
                             && r.inv.coins == g.inv.coins + rw.coins
                             && r.inv == Inventory.StoreEach(c.items, g.inv, rw.items).(coins := g.inv.coins + rw.coins)
                             && Player.LifetimeXp(r.player) == Player.LifetimeXp(g.player) + rw.xp
                             && (g.friendship.Some? ==> r.friendship == Some(g.friendship.value + rw.friendship))
    ensures rw.pet.Some? && rw.pet.value != "" && rw.pet.value in c.pets ==> Pets.Owns(r.pets, rw.pet.value)
    decreases |g.quests.active|, 6, 0
  {
    var g1 := if rw.coins != 0 then g.(inv := Inventory.AddCoins(g.inv, rw.coins)) else g;
    assert Keeps(c, g, g1, true) by { Quests.EvolvesRefl(g.quests); }
    assert g1.inv == g.inv.(coins := g.inv.coins + rw.coins);
    Inventory.StoreEachIgnoresCoins(c.items, g.inv, rw.items, g.inv.coins + rw.coins);
    var g2 := GrantItems(c, g1, rw.items, clk);
    var g3 := GrantPersonal(c, g2, rw, clk);
    KeepsTrans(c, g, g1, g2, true);
    KeepsTrans(c, g, g2, g3, true);
    g3
  }

  /** The rewards of `grantRewards` that go to the player rather than the
      bag: XP when non-zero, the friendship amounts when a relationship
      manager is installed, and the pet when its id is non-empty. None of
      them reaches the quest engine. */
  function GrantPersonal(c: Content, g: Game, rw: Quests.Rewards, clk: Quests.Clock): (r: Game)
    requires Quests.Known(c.quests, g.quests)
    ensures Keeps(c, g, r, true) && SameSetting(g, r)
    ensures r.quests == g.quests && r.inv == g.inv
    ensures Player.LifetimeXp(r.player) == Player.LifetimeXp(g.player) + rw.xp
    ensures g.friendship.Some? ==> r.friendship == Some(g.friendship.value + rw.friendship)
    ensures rw.pet.Some? && rw.pet.value != "" && rw.pet.value in c.pets ==> Pets.Owns(r.pets, rw.pet.value)
    ensures rw.pet.None? || rw.pet.value == "" ==> r.pets == g.pets
  {
    var g1 := if rw.xp != 0 then g.(player := Player.AddXP(g.player, rw.xp)) else g;
    var g2 := if g1.friendship.Some? then g1.(friendship := Some(g1.friendship.value + rw.friendship)) else g1;
    Quests.EvolvesRefl(g.quests);
    if rw.pet.Some? && rw.pet.value != "" then
      g2.(pets := Pets.AdoptPet(c.pets, g2.pets, rw.pet.value, None, Quests.GameDay(clk)).0)
    else g2
  }

  /** The item loop of `grantRewards`: `addItem(itemId, 1)` for each listed
      item, in order, each failure ignored. */
  function GrantItems(c: Content, g: Game, items: seq<ItemId>, clk: Quests.Clock): (r: Game)
    requires Quests.Known(c.quests, g.quests)
    ensures Keeps(c, g, r, true) && SameSetting(g, r)
    ensures !g.questHook ==> r == g.(inv := Inventory.StoreEach(c.items, g.inv, items))
    decreases |g.quests.active|, 5, |items|
  {
    if items == [] then g
    else
      var g1 := AddItem(c, g, items[0], 1, clk).0;
      var g2 := GrantItems(c, g1, items[1..], clk);
      KeepsTrans(c, g, g1, g2, true);
      g2
  }

  // ----- operations that raise quest events -----

  /** `handleChoice(questId, choiceId)`: for an active quest that offers the
      choice, logs it and delivers its rewards; the quest's own progress is
      neither required nor changed. */
  function HandleChoice(c: Content, g: Game, id: Quests.QuestId, choiceId: string, clk: Quests.Clock)
    : (r: (Game, bool))
    requires Quests.Known(c.quests, g.quests)
    ensures r.1 <==> Quests.IsActive(g.quests, id) && id in c.quests && choiceId in c.quests[id].choices
    ensures !r.1 ==> r.0 == g
    ensures r.1 ==> && |r.0.quests.log| > |g.quests.log|
                    && r.0.quests.log[|g.quests.log|] == Quests.Entry(id, Quests.Chose(choiceId), clk)
    ensures r.1 && !g.questHook ==>
              var rw := c.quests[id].choices[choiceId].rewards;
              && r.0.quests == g.quests.(log := g.quests.log + [Quests.Entry(id, Quests.Chose(choiceId), clk)])
              && r.0.inv == Inventory.StoreEach(c.items, g.inv, rw.items).(coins := g.inv.coins + rw.coins)
              && Player.LifetimeXp(r.0.player) == Player.LifetimeXp(g.player) + rw.xp
              && (g.friendship.Some? ==> r.0.friendship == Some(g.friendship.value + rw.friendship))
    ensures r.1 ==> var rw := c.quests[id].choices[choiceId].rewards;
                    rw.pet.Some? && rw.pet.value != "" && rw.pet.value in c.pets ==> Pets.Owns(r.0.pets, rw.pet.value)
    ensures Keeps(c, g, r.0, true) && SameSetting(g, r.0)
  {
    Quests.ActiveIdsMeaning(g.quests, id);
    var (qs, rw) := Quests.Choose(c.quests, g.quests, id, choiceId, clk);
    if rw.None? then (g, false)
    else
      var g1 := g.(quests := qs);
      var g2 := GrantRewards(c, g1, rw.value, clk);
      KeepsTrans(c, g, g1, g2, true);
      assert g1.quests.log <= g2.quests.log;
      (g2, true)
  }

  /** `craft(recipeId)` (js/systems/crafting.js): when the recipe can be
      crafted, removes its ingredients, adds the result, awards XP when
      non-zero and, with the quest engine installed, reports one `craft`
      event for the recipe. It reports success even when the result could
      not be stored: the ingredients are not given back. */
  function Craft(c: Content, g: Game, id: Crafting.RecipeId, clk: Quests.Clock): (r: (Game, bool))
    requires Quests.Known(c.quests, g.quests)
    ensures r.1 <==> Crafting.CanCraft(c.recipes, g.crafting, g.inv, id)
    ensures !r.1 ==> r.0 == g
    ensures r.1 ==> Keeps(c, g, r.0, c.recipes[id].quantity >= 0) && SameSetting(g, r.0)
    ensures r.1 && !g.questHook ==> r.0 == Crafted(c, g, id, clk)
    ensures r.1 && g.questHook ==> r.0 == UpdateObjective(c, Crafted(c, g, id, clk), Quests.Craft, id, 1, clk).0
  {
    if !Crafting.CanCraft(c.recipes, g.crafting, g.inv, id) then (g, false)
    else
      var g3 := Crafted(c, g, id, clk);
      if g.questHook then
        var g4 := UpdateObjective(c, g3, Quests.Craft, id, 1, clk).0;
        KeepsTrans(c, g, g3, g4, c.recipes[id].quantity >= 0);
        (g4, true)
      else (g3, true)
  }

  /** The state `craft` reports its event from: the ingredients removed
      (each removal's failure ignored), the result added through `addItem`,
      and the recipe's XP awarded. Without the quest engine installed, the
      bag is the ingredient removal with the result stored on top, and only
      the bag and the player change. */
  function Crafted(c: Content, g: Game, id: Crafting.RecipeId, clk: Quests.Clock): (r: Game)
    requires Quests.Known(c.quests, g.quests)
    requires Crafting.CanCraft(c.recipes, g.crafting, g.inv, id)
    ensures Keeps(c, g, r, c.recipes[id].quantity >= 0) && SameSetting(g, r)
    ensures !g.questHook ==>
              var recipe := c.recipes[id];
              && r.inv == Inventory.StoreItem(c.items, Crafting.RemoveIngredients(g.inv, recipe.ingredients),
                                              recipe.result, recipe.quantity).0
              && Player.LifetimeXp(r.player) == Player.LifetimeXp(g.player) + recipe.xp
              && r == g.(inv := r.inv, player := r.player)
  {
    var recipe := c.recipes[id];
    var g1 := g.(inv := Crafting.RemoveIngredients(g.inv, recipe.ingredients));
    var n := recipe.quantity >= 0;
    assert Keeps(c, g, g1, n) by {
      Quests.EvolvesRefl(g.quests);
      assert g1.inv.items.Keys <= g.inv.items.Keys by {
        forall x | x in g1.inv.items ensures x in g.inv.items {
          if x !in Crafting.ItemsOf(recipe.ingredients) {
            assert x in g1.inv.items - Crafting.ItemsOf(recipe.ingredients);
          } else {
            var k :| 0 <= k < |recipe.ingredients| && recipe.ingredients[k].item == x;
            assert Inventory.HasItem(g.inv, recipe.ingredients[k].item, recipe.ingredients[k].qty);
          }
        }
      }
      assert |g1.inv.items.Keys| <= |g.inv.items.Keys| by {
        SubsetCard(g1.inv.items.Keys, g.inv.items.Keys);
      }
    }
    var g2 := AddItem(c, g1, recipe.result, recipe.quantity, clk).0;
    var g3 := if recipe.xp != 0 then g2.(player := Player.AddXP(g2.player, recipe.xp)) else g2;
    KeepsTrans(c, g, g1, g2, n);
    assert Keeps(c, g2, g3, n) by { Quests.EvolvesRefl(g2.quests); }
    KeepsTrans(c, g, g2, g3, n);
    g3
  }

  lemma SubsetCard<T>(a: set<T>, b: set<T>)
    requires a <= b
    ensures |a| <= |b|
  {
    assert b == a + (b - a);
  }

  /** `changeArea(areaId, x, y)` (js/systems/world.js): the world's gate and
      bookkeeping, then, on entry and with the quest engine installed, a
      `location` event for the area. */
  function ChangeArea(c: Content, g: Game, id: World.AreaId, x: int, y: int, clk: Quests.Clock)
    : (r: (Game, World.Entry))
    requires Quests.Known(c.quests, g.quests)
    ensures r.0.world == World.ChangeArea(c.areas, g.world, g.inv, id, x, y).0
    ensures r.1 == World.ChangeArea(c.areas, g.world, g.inv, id, x, y).1
    ensures !r.1.Entered? ==> r.0 == g
    ensures r.1.Entered? && !g.questHook ==> r.0 == g.(world := r.0.world)
    ensures r.1.Entered? && g.questHook ==>
              r.0 == UpdateObjective(c, g.(world := r.0.world), Quests.Location, id, 1, clk).0
    ensures Keeps(c, g, r.0, true) && r.0.crafting == g.crafting && r.0.questHook == g.questHook
  {
    var (w, e) := World.ChangeArea(c.areas, g.world, g.inv, id, x, y);
    Quests.EvolvesRefl(g.quests);
    if !e.Entered? then (g, e)
    else
      var g1 := g.(world := w);
      if g.questHook then
        var g2 := UpdateObjective(c, g1, Quests.Location, id, 1, clk).0;
        KeepsTrans(c, g, g1, g2, true);
        (g2, e)
      else (g1, e)
  }

  /** `forage(spotIndex)` (js/systems/world.js): the world's timer and random
      pick, then `addItem(itemId, 1)` for the picked item. */
  function Forage(c: Content, g: Game, idx: nat, now: int, pick: nat, clk: Quests.Clock)
    : (r: (Game, Option<ItemId>))
    requires Quests.Known(c.quests, g.quests)
    ensures r.0.world == World.Forage(c.areas, g.world, idx, now, pick).0
    ensures r.1 == World.Forage(c.areas, g.world, idx, now, pick).1
    ensures r.1.None? ==> r.0 == g.(world := r.0.world)
    ensures r.1.Some? && !g.questHook ==>
              r.0 == g.(world := r.0.world, inv := Inventory.StoreItem(c.items, g.inv, r.1.value, 1).0)
    ensures r.1.Some? ==> r.0 == AddItem(c, g.(world := r.0.world), r.1.value, 1, clk).0
    ensures Keeps(c, g, r.0, true) && r.0.crafting == g.crafting && r.0.questHook == g.questHook
  {
    var (w, item) := World.Forage(c.areas, g.world, idx, now, pick);
    Quests.EvolvesRefl(g.quests);
    var g1 := g.(world := w);
    match item
    case None => (g1, None)
    case Some(i) =>
      var g2 := AddItem(c, g1, i, 1, clk).0;
      KeepsTrans(c, g, g1, g2, true);
      (g2, item)
  }

  // ----- the producers of rpg-vibe-2025/js/engine/game.js -----

  /** Pixels per map tile. */
  const TileSize: int := 32
  /** Interaction and forage reach (40 pixels), squared. */
  const ReachSquared: int := 1600

  /** The player is within reach of the centre of tile (x, y). */
  predicate Near(px: int, py: int, x: int, y: int) {
    var dx := px - (x * TileSize + 16);
    var dy := py - (y * TileSize + 16);
    dx * dx + dy * dy < ReachSquared
  }

  datatype InteractKind = Pickup | Clean | Inspect | Read | OtherKind

  /** An area interactable; `item` is what a pickup yields. */
  datatype Interactable = Interactable(kind: InteractKind, x: int, y: int, item: Option<ItemId>)

  /** The interactable `tryInteract` acts on: the first one in reach whose
      type it handles (a nearby one of another type is passed over). */
  function FirstHandled(inters: seq<Interactable>, px: int, py: int): (r: Option<nat>)
    ensures r.Some? ==> && r.value < |inters|
                        && Near(px, py, inters[r.value].x, inters[r.value].y)
                        && inters[r.value].kind != OtherKind
                        && forall k | 0 <= k < r.value ::
                             !(Near(px, py, inters[k].x, inters[k].y) && inters[k].kind != OtherKind)
    ensures r.None? ==> forall k | 0 <= k < |inters| ::
                          !(Near(px, py, inters[k].x, inters[k].y) && inters[k].kind != OtherKind)
  {
    if inters == [] then None
    else if Near(px, py, inters[0].x, inters[0].y) && inters[0].kind != OtherKind then Some(0)
    else match FirstHandled(inters[1..], px, py)
      case None => None
      case Some(k) => Some(k + 1)
  }

  /** `tryInteract()` over the current area's interactables and the player's
      position: a pickup that the bag accepts disappears (a refused one
      stays); cleaning needs a broom, removes the dirt and sends the
      `interact`/`dhaba_dirt` event straight to the quest engine; inspecting
      and reading change nothing. Returns the new interactables and whether
      one was handled. */
  function TryInteract(c: Content, g: Game, inters: seq<Interactable>, px: int, py: int, clk: Quests.Clock)
    : (r: (Game, seq<Interactable>, bool))
    requires Quests.Known(c.quests, g.quests)
    ensures r.2 <==> FirstHandled(inters, px, py).Some?
    ensures !r.2 ==> r.0 == g && r.1 == inters
    ensures r.2 ==> var k := FirstHandled(inters, px, py).value;
                    var it := inters[k];
                    && (it.kind == Inspect || it.kind == Read ==> r.0 == g && r.1 == inters)
                    && (it.kind == Clean ==>
                          && (r.1 == RemoveAt(inters, k) <==> Inventory.HasItem(g.inv, "broom", 1))
                          && (!Inventory.HasItem(g.inv, "broom", 1) ==> r.0 == g && r.1 == inters)
                          && (Inventory.HasItem(g.inv, "broom", 1) ==>
                                r.0 == UpdateObjective(c, g, Quests.Interact, "dhaba_dirt", 1, clk).0))
                    && (it.kind == Pickup ==>
                          && (r.1 == RemoveAt(inters, k) <==>
                                it.item.Some? && AddItem(c, g, it.item.value, 1, clk).1)
                          && (r.1 != inters ==> r.1 == RemoveAt(inters, k))
                          && r.0 == (if it.item.Some? && AddItem(c, g, it.item.value, 1, clk).1
                                     then AddItem(c, g, it.item.value, 1, clk).0 else g))
    ensures Keeps(c, g, r.0, true) && SameSetting(g, r.0)
  {
    Quests.EvolvesRefl(g.quests);
    match FirstHandled(inters, px, py)
    case None => (g, inters, false)
    case Some(k) =>
      var it := inters[k];
      assert |RemoveAt(inters, k)| != |inters|;
      match it.kind
      case Pickup =>
        if it.item.Some? && AddItem(c, g, it.item.value, 1, clk).1 then
          (AddItem(c, g, it.item.value, 1, clk).0, RemoveAt(inters, k), true)
        else (g, inters, true)
      case Clean =>
        if !Inventory.HasItem(g.inv, "broom", 1) then (g, inters, true)
        else (UpdateObjective(c, g, Quests.Interact, "dhaba_dirt", 1, clk).0, RemoveAt(inters, k), true)
      case Inspect => (g, inters, true)
      case Read => (g, inters, true)
  }

  /** The spot `tryForage` uses: the first spot of the current area in reach
      that is ready. */
  function FirstReadySpot(areas: World.AreaCatalog, w: World.World, px: int, py: int, now: int): (r: Option<nat>)
    ensures r.Some? ==> && w.current in areas
                        && r.value < |areas[w.current].forageSpots|
                        && var spots := areas[w.current].forageSpots;
                           && Near(px, py, spots[r.value].x, spots[r.value].y)
                           && World.CanForage(areas, w, r.value, now)
                           && forall i | 0 <= i < r.value ::
                                !(Near(px, py, spots[i].x, spots[i].y) && World.CanForage(areas, w, i, now))
    ensures r.None? && w.current in areas ==>
              var spots := areas[w.current].forageSpots;
              forall i | 0 <= i < |spots| :: !(Near(px, py, spots[i].x, spots[i].y) && World.CanForage(areas, w, i, now))
  {
    if w.current !in areas then None
    else ReadyFrom(areas, w, px, py, now, 0)
  }

  function ReadyFrom(areas: World.AreaCatalog, w: World.World, px: int, py: int, now: int, i: nat): (r: Option<nat>)
    requires w.current in areas && i <= |areas[w.current].forageSpots|
    ensures var spots := areas[w.current].forageSpots;
            && (r.Some? ==> && i <= r.value < |spots|
                            && Near(px, py, spots[r.value].x, spots[r.value].y)
                            && World.CanForage(areas, w, r.value, now)
                            && forall j | i <= j < r.value ::
                                 !(Near(px, py, spots[j].x, spots[j].y) && World.CanForage(areas, w, j, now)))
            && (r.None? ==> forall j | i <= j < |spots| ::
                              !(Near(px, py, spots[j].x, spots[j].y) && World.CanForage(areas, w, j, now)))
    decreases |areas[w.current].forageSpots| - i
  {
    var spots := areas[w.current].forageSpots;
    if i == |spots| then None
    else if Near(px, py, spots[i].x, spots[i].y) && World.CanForage(areas, w, i, now) then Some(i)
    else ReadyFrom(areas, w, px, py, now, i + 1)
  }

  /** `tryForage()`: at the first ready spot in reach, forages there and, for
      the `{itemId, quantity}` the forager returns (`found`), reports a
      `collect` event for the item and then one for `any_forage`, each with
      the quantity. Returns the spot used. */
  function TryForage(c: Content, g: Game, px: int, py: int, now: int, found: Option<(ItemId, int)>, clk: Quests.Clock)
    : (r: (Game, Option<nat>))
    requires Quests.Known(c.quests, g.quests)
    ensures r.1 == FirstReadySpot(c.areas, g.world, px, py, now)
    ensures r.1.None? || found.None? ==> r.0 == g
    ensures r.1.Some? && found.Some? ==>
              var (item, qty) := found.value;
              var g1 := UpdateObjective(c, g, Quests.Collect, item, qty, clk).0;
              r.0 == UpdateObjective(c, g1, Quests.Collect, ForageWildcard, qty, clk).0
    ensures Keeps(c, g, r.0, found.None? || found.value.1 >= 0) && SameSetting(g, r.0)
  {
    Quests.EvolvesRefl(g.quests);
    match FirstReadySpot(c.areas, g.world, px, py, now)
    case None => (g, None)
    case Some(i) =>
      match found
      case None => (g, Some(i))
      case Some((item, qty)) =>
        var g1 := UpdateObjective(c, g, Quests.Collect, item, qty, clk).0;
        var g2 := UpdateObjective(c, g1, Quests.Collect, ForageWildcard, qty, clk).0;
        KeepsTrans(c, g, g1, g2, qty >= 0);
        (g2, Some(i))
  }

  /** The second target `tryForage` reports. */
  const ForageWildcard: string := "any_forage"

  /** The objective `handleNPCInteraction` looks for in one quest: the first
      unfinished `give` objective whose target is exactly this NPC. */
  function PendingGive(objs: seq<Quests.Objective>, npc: NpcId): (r: Option<nat>)
    ensures r.Some? ==> && r.value < |objs| && IsPendingGive(objs[r.value], npc)
                        && forall j | 0 <= j < r.value :: !IsPendingGive(objs[j], npc)
    ensures r.None? ==> forall j | 0 <= j < |objs| :: !IsPendingGive(objs[j], npc)
  {
    if objs == [] then None
    else if IsPendingGive(objs[0], npc) then Some(0)
    else match PendingGive(objs[1..], npc)
      case None => None
      case Some(j) => Some(j + 1)
  }

  predicate IsPendingGive(o: Quests.Objective, npc: NpcId) {
    o.kind == Quests.Give && o.target == npc && o.current < o.count
  }

  /** Some active quest still waits for a gift to this NPC. */
  predicate AnyPendingGive(active: seq<Quests.Instance>, npc: NpcId) {
    exists k, j | 0 <= k < |active| && 0 <= j < |active[k].objectives| :: IsPendingGive(active[k].objectives[j], npc)
  }

  /** The ids of the active quests, in start order. */
  function Ids(active: seq<Quests.Instance>): (r: seq<Quests.QuestId>)
    ensures |r| == |active| && forall k | 0 <= k < |r| :: r[k] == active[k].id
  {
    seq(|active|, k requires 0 <= k < |active| => active[k].id)
  }

  /** The loop of `handleNPCInteraction(npc)` over the quests that were
      active when it began (`snapshot`). Each quest is looked at as it is
      now; for its first pending gift to the NPC, a held item is taken out of
      the bag (one unit) and a `give` event is sent, and the walk stops after
      milk is given to the stray dog. A missing item only warns. */
  function GiveWalk(c: Content, g: Game, snapshot: seq<Quests.QuestId>, npc: NpcId, clk: Quests.Clock): (r: Game)
    requires Quests.Known(c.quests, g.quests)
    ensures Keeps(c, g, r, true) && SameSetting(g, r)
    ensures !AnyPendingGive(g.quests.active, npc) ==> r == g
    decreases |snapshot|
  {
    Quests.EvolvesRefl(g.quests);
    if snapshot == [] then g
    else match Quests.FindActive(g.quests.active, snapshot[0])
      case None => GiveWalk(c, g, snapshot[1..], npc, clk)
      case Some(k) =>
        match PendingGive(g.quests.active[k].objectives, npc)
        case None => GiveWalk(c, g, snapshot[1..], npc, clk)
        case Some(j) =>
          var item := g.quests.active[k].objectives[j].item;
          if item.Some? && Inventory.HasItem(g.inv, item.value, 1) then
            var g1 := g.(inv := Inventory.RemoveItem(g.inv, item.value, 1).0);
            assert Keeps(c, g, g1, true) by {
              assert g1.inv.items.Keys <= g.inv.items.Keys;
              SubsetCard(g1.inv.items.Keys, g.inv.items.Keys);
            }
            var g2 := UpdateObjective(c, g1, Quests.Give, npc, 1, clk).0;
            KeepsTrans(c, g, g1, g2, true);
            if npc == "stray_dog" && item.value == "milk" then g2
            else
              var g3 := GiveWalk(c, g2, snapshot[1..], npc, clk);
              KeepsTrans(c, g, g2, g3, true);
              g3
          else GiveWalk(c, g, snapshot[1..], npc, clk)
  }

  /** `handleNPCInteraction(npc)` up to the dialogue it opens: the gift walk
      over the quests active at the start. With no pending gift for the NPC
      nothing changes. */
  function HandleNpcInteraction(c: Content, g: Game, npc: NpcId, clk: Quests.Clock): (r: Game)
    requires Quests.Known(c.quests, g.quests)
    ensures Keeps(c, g, r, true) && SameSetting(g, r)
    ensures !AnyPendingGive(g.quests.active, npc) ==> r == g
  {
    GiveWalk(c, g, Ids(g.quests.active), npc, clk)
  }

  // ----- properties relating several calls -----

  /** Completing a quest twice: the second call is refused and changes
      nothing (nothing in the first call restarts the quest). */
  lemma CompleteTwiceRefused(c: Content, g: Game, id: Quests.QuestId, clk: Quests.Clock, clk2: Quests.Clock)
    requires Quests.Known(c.quests, g.quests) && Quests.UniqueActive(g.quests.active)
    requires CompleteQuest(c, g, id, clk).1
    ensures var g1 := CompleteQuest(c, g, id, clk).0;
            CompleteQuest(c, g1, id, clk2) == (g1, false)
  {
  }

  /** Unlocks are advisory: completing a quest never makes another quest
      active. */
  lemma UnlocksAreAdvisory(c: Content, g: Game, id: Quests.QuestId, other: Quests.QuestId, clk: Quests.Clock)
    requires Quests.Known(c.quests, g.quests)
    requires !Quests.IsActive(g.quests, other)
    ensures !Quests.IsActive(CompleteQuest(c, g, id, clk).0.quests, other)
  {
    var g1 := CompleteQuest(c, g, id, clk).0;
    Quests.ActiveIdsMeaning(g.quests, other);
    Quests.ActiveIdsMeaning(g1.quests, other);
  }

  /** A quest that is neither active nor completed before an event is not
      completed after it: only active quests are ever completed. */
  lemma CompletedOnlyFromActive(c: Content, g: Game, r: Game, q: Quests.QuestId)
    requires Keeps(c, g, r, false)
    requires !Quests.IsActive(g.quests, q) && q !in g.quests.completed
    ensures q !in r.quests.completed && !Quests.IsActive(r.quests, q)
  {
    Quests.ActiveIdsMeaning(g.quests, q);
    Quests.ActiveIdsMeaning(r.quests, q);
    var n := |g.quests.completed|;
    forall k | 0 <= k < |r.quests.completed| ensures r.quests.completed[k] != q {
      if k < n {
        assert r.quests.completed[k] == g.quests.completed[k];
      }
    }
  }

  /** A quest whose only prerequisite is an active one-shot quest cannot be
      started before that quest is completed, and can be started right
      after. */
  lemma PrerequisiteChain(c: Content, g: Game, a: Quests.QuestId, b: Quests.QuestId, clk: Quests.Clock)
    requires Quests.Known(c.quests, g.quests)
    requires b in c.quests && c.quests[b].prerequisites == [a]
    requires Quests.IsActive(g.quests, a) && a !in g.quests.completed
    requires a in c.quests && !c.quests[a].repeatable
    requires !Quests.IsActive(g.quests, b) && b !in g.quests.completed
    ensures !Quests.MayStart(c.quests, g.quests, b)
    ensures Quests.MayStart(c.quests, CompleteQuest(c, g, a, clk).0.quests, b)
  {
    var g1 := CompleteQuest(c, g, a, clk).0;
    CompletedOnlyFromActive(c, g, g1, b);
    assert c.quests[b].prerequisites[0] == a;
  }

  /** A repeatable quest can be started again as soon as it is completed,
      with a fresh copy of its objectives. */
  lemma RepeatableRestarts(c: Content, g: Game, d: Quests.QuestId, clk: Quests.Clock, clk2: Quests.Clock)
    requires Quests.Known(c.quests, g.quests) && Quests.UniqueActive(g.quests.active)
    requires Quests.IsActive(g.quests, d) && d in c.quests && c.quests[d].repeatable
    requires forall p | p in c.quests[d].prerequisites :: p in g.quests.completed
    ensures var g1 := CompleteQuest(c, g, d, clk).0;
            var (qs, ok) := Quests.StartQuest(c.quests, g1.quests, d, clk2);
            && ok
            && qs.active[|qs.active| - 1] == Quests.Instance(d, c.quests[d].objectives, Quests.GameDay(clk2), clk2.now)
  {
    var g1 := CompleteQuest(c, g, d, clk).0;
    forall p | p in c.quests[d].prerequisites ensures p in g1.quests.completed {
      Quests.PrefixMember(g.quests.completed, g1.quests.completed, p);
    }
  }

  /** `tryForage` reports a forage twice to the quest engine: an objective
      waiting for any forage advances by two for one foraged item. */
  lemma ForageCountsTwice()
    ensures var o := Quests.Objective("forage", Quests.Collect, "any_forage", 5, 0, None);
            var def := Quests.QuestDef(Quests.Side, None, [], [o], Quests.NoRewards, [], false, map[]);
            var areas := map["forest" := World.Area(None, [], [World.Spot(0, 0, ["wild_berries"], 4)])];
            var c := Content(map["sq_forage" := def], map[], map[], map[], areas);
            var qs := Quests.QuestState([Quests.Instance("sq_forage", [o], 1, 0)], [], []);
            var g := Game(qs, Inventory.Empty, Player.Fresh, Pets.Empty, Crafting.Initial,
                          World.World("forest", ["forest"], map[], []), None, false);
            var r := TryForage(c, g, 16, 16, 0, Some(("wild_berries", 1)), Quests.Clock(0, 1));
            && r.1 == Some(0)
            && |r.0.quests.active| == 1 && |r.0.quests.active[0].objectives| == 1
            && r.0.quests.active[0].objectives[0].current == 2
  {
    var o := Quests.Objective("forage", Quests.Collect, "any_forage", 5, 0, None);
    var def := Quests.QuestDef(Quests.Side, None, [], [o], Quests.NoRewards, [], false, map[]);
    var areas := map["forest" := World.Area(None, [], [World.Spot(0, 0, ["wild_berries"], 4)])];
    var c := Content(map["sq_forage" := def], map[], map[], map[], areas);
    var qs := Quests.QuestState([Quests.Instance("sq_forage", [o], 1, 0)], [], []);
    var g := Game(qs, Inventory.Empty, Player.Fresh, Pets.Empty, Crafting.Initial,
                  World.World("forest", ["forest"], map[], []), None, false);
    var clk := Quests.Clock(0, 1);
    assert Quests.IsWildcard(o.target) by {
      assert o.target[..4] == "any_";
    }
    assert Quests.Known(c.quests, qs) by {
      assert qs.active[0] in qs.active;
    }
    assert ReadyFrom(areas, g.world, 16, 16, 0, 0) == Some(0);
    // the item's own event
    var (qs1, at1) := Quests.Advance(qs, Quests.Collect, "wild_berries", 1);
    assert at1 == Some((0, 0));
    assert qs1.active[0].objectives[0].current == 1;
    assert !Quests.IsComplete(qs1.active[0]);
    var g1 := UpdateObjective(c, g, Quests.Collect, "wild_berries", 1, clk).0;
    assert g1 == g.(quests := qs1);
    // the wildcard event
    var (qs2, at2) := Quests.Advance(qs1, Quests.Collect, ForageWildcard, 1);
    assert at2 == Some((0, 0));
    assert qs2.active[0].objectives[0].current == 2;
    assert !Quests.IsComplete(qs2.active[0]);
    var g2 := UpdateObjective(c, g1, Quests.Collect, ForageWildcard, 1, clk).0;
    assert g2 == g1.(quests := qs2);
  }

  /** Crafting is not rolled back: when the result cannot be stored, the
      ingredients are still consumed and the craft still succeeds. */
  lemma CraftKeepsNoRollback(c: Content, g: Game, id: Crafting.RecipeId, clk: Quests.Clock)
    requires Quests.Known(c.quests, g.quests) && !g.questHook
    requires Crafting.CanCraft(c.recipes, g.crafting, g.inv, id)
    requires c.recipes[id].result !in c.items
    ensures Craft(c, g, id, clk).1
    ensures Craft(c, g, id, clk).0.inv == Crafting.RemoveIngredients(g.inv, c.recipes[id].ingredients)
  {
  }

  /** A gift can go unrewarded: when an older quest holds an already full
      `give` objective for the same NPC (while other objectives keep it
      open), the gift meant for a newer quest is taken from the bag but the
      event is absorbed by the full objective, and no quest advances. */
  lemma GiftAbsorbedByFullObjective()
    ensures var (c, g) := GiftScene();
            var r := HandleNpcInteraction(c, g, "stray_dog", Quests.Clock(0, 1));
            && r.quests == g.quests
            && Inventory.Count(g.inv, "milk") == 1
            && Inventory.Count(r.inv, "milk") == 0
  {
    var (c, g) := GiftScene();
    var qs := g.quests;
    var clk := Quests.Clock(0, 1);
    var snap := Ids(qs.active);
    assert snap == ["q1", "q2"];
    assert Quests.FindActive(qs.active, "q1") == Some(0);
    assert PendingGive(qs.active[0].objectives, "stray_dog") == None;
    SkipQuiet(c, g, snap, "stray_dog", clk);
    assert Quests.FindActive(qs.active, "q2") == Some(1);
    assert PendingGive(qs.active[1].objectives, "stray_dog") == Some(0);
    GiftToDogEndsWalk(c, g, snap[1..], clk);
    var g1 := g.(inv := Inventory.RemoveItem(g.inv, "milk", 1).0);
    assert Quests.FindMatch(qs.active, Quests.Give, "stray_dog") == Some((0, 0));
    Quests.FullMatchChangesNothing(qs, Quests.Give, "stray_dog", 1);
    assert !Quests.IsComplete(qs.active[0]);
  }

  /** The scene of GiftAbsorbedByFullObjective: q1 has a full gift objective
      for the stray dog and an open one, q2 waits for milk for the dog, and
      one milk is held. */
  function GiftScene(): (Content, Game) {
    var full := Quests.Objective("give", Quests.Give, "stray_dog", 1, 1, Some("milk"));
    var open := Quests.Objective("give", Quests.Give, "stray_dog", 1, 0, Some("milk"));
    var other := Quests.Objective("find", Quests.Collect, "tea_leaves", 3, 0, None);
    var cat := map["q1" := Quests.QuestDef(Quests.Side, None, [], [full, other], Quests.NoRewards, [], false, map[]),
                   "q2" := Quests.QuestDef(Quests.Side, None, [], [open], Quests.NoRewards, [], false, map[])];
    var qs := Quests.QuestState([Quests.Instance("q1", [full, other], 1, 0), Quests.Instance("q2", [open], 1, 0)], [], []);
    (Content(cat, map[], map[], map[], map[]),
     Game(qs, Inventory.Inventory(map["milk" := 1], 100), Player.Fresh, Pets.Empty,
          Crafting.Initial, World.Initial, None, false))
  }

  /** A quest in the snapshot with no pending gift for the NPC is passed
      over without any change. */
  lemma SkipQuiet(c: Content, g: Game, snapshot: seq<Quests.QuestId>, npc: NpcId, clk: Quests.Clock)
    requires Quests.Known(c.quests, g.quests) && |snapshot| > 0
    requires var k := Quests.FindActive(g.quests.active, snapshot[0]);
             k.None? || PendingGive(g.quests.active[k.value].objectives, npc).None?
    ensures GiveWalk(c, g, snapshot, npc, clk) == GiveWalk(c, g, snapshot[1..], npc, clk)
  {
  }

  /** One step of the gift walk, for any NPC: at the first quest of the
      snapshot that still waits for a gift to the NPC, a missing item only
      warns and the walk moves on; a held item loses one unit, then one
      `give` event is sent, and the walk moves on unless it was milk for the
      stray dog. */
  lemma GiftStep(c: Content, g: Game, snapshot: seq<Quests.QuestId>, npc: NpcId, clk: Quests.Clock)
    requires Quests.Known(c.quests, g.quests) && |snapshot| > 0
    requires Quests.FindActive(g.quests.active, snapshot[0]).Some?
    requires PendingGive(g.quests.active[Quests.FindActive(g.quests.active, snapshot[0]).value].objectives, npc).Some?
    ensures var objs := g.quests.active[Quests.FindActive(g.quests.active, snapshot[0]).value].objectives;
            var item := objs[PendingGive(objs, npc).value].item;
            && (!(item.Some? && Inventory.HasItem(g.inv, item.value, 1)) ==>
                  GiveWalk(c, g, snapshot, npc, clk) == GiveWalk(c, g, snapshot[1..], npc, clk))
            && (item.Some? && Inventory.HasItem(g.inv, item.value, 1) ==>
                  var g1 := g.(inv := Inventory.RemoveItem(g.inv, item.value, 1).0);
                  var g2 := UpdateObjective(c, g1, Quests.Give, npc, 1, clk).0;
                  GiveWalk(c, g, snapshot, npc, clk)
                  == (if npc == "stray_dog" && item.value == "milk" then g2 else GiveWalk(c, g2, snapshot[1..], npc, clk)))
  {
  }

  /** Milk given to the stray dog ends the walk: the quests after it in the
      snapshot are not looked at. */
  lemma GiftToDogEndsWalk(c: Content, g: Game, snapshot: seq<Quests.QuestId>, clk: Quests.Clock)
    requires Quests.Known(c.quests, g.quests) && |snapshot| > 0
    requires Quests.FindActive(g.quests.active, snapshot[0]).Some?
    requires var objs := g.quests.active[Quests.FindActive(g.quests.active, snapshot[0]).value].objectives;
             && PendingGive(objs, "stray_dog").Some?
             && objs[PendingGive(objs, "stray_dog").value].item == Some("milk")
    requires Inventory.HasItem(g.inv, "milk", 1)
    ensures GiveWalk(c, g, snapshot, "stray_dog", clk)
            == UpdateObjective(c, g.(inv := Inventory.RemoveItem(g.inv, "milk", 1).0), Quests.Give, "stray_dog", 1, clk).0
  {
  }
}

