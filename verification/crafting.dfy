/** Recipes and the player's recipe book (`CraftingSystem` in
    js/systems/crafting.js). The `craft` operation itself, which also feeds
    the player and the quest engine, is composed in module Game. */
module Crafting {
  import opened Common
  import Inventory

  type RecipeId = string

  datatype Ingredient = Ingredient(item: Inventory.ItemId, qty: int)

  /** A `CraftingRecipes` entry; `xp` 0 stands for no XP. */
  datatype Recipe = Recipe(result: Inventory.ItemId, quantity: int, ingredients: seq<Ingredient>, xp: int)

  type RecipeCatalog = map<RecipeId, Recipe>

  datatype Crafting = Crafting(known: seq<RecipeId>)

  /** The two recipes a new game starts with. */
  const Initial := Crafting(["masala_chai", "ginger_tea"])

  /** `learnRecipe(recipeId)`: adds an existing recipe not yet known. */
  function LearnRecipe(cat: RecipeCatalog, c: Crafting, id: RecipeId): (r: (Crafting, bool))
    ensures r.1 <==> id !in c.known && id in cat
    ensures r.1 ==> r.0.known == c.known + [id]
    ensures !r.1 ==> r.0 == c
    ensures NoDup(c.known) ==> NoDup(r.0.known)
  {
    if id !in c.known && id in cat then (Crafting(c.known + [id]), true) else (c, false)
  }

  /** The ingredient check of `canCraft`, in recipe order. */
  function AllHeld(inv: Inventory.Inventory, ings: seq<Ingredient>): (r: bool)
    ensures r <==> forall k | 0 <= k < |ings| :: Inventory.HasItem(inv, ings[k].item, ings[k].qty)
  {
    if ings == [] then true
    else Inventory.HasItem(inv, ings[0].item, ings[0].qty) && AllHeld(inv, ings[1..])
  }

  /** `canCraft(recipeId)`: the recipe exists, is known, and every ingredient
      is held in at least its quantity. */
  function CanCraft(cat: RecipeCatalog, c: Crafting, inv: Inventory.Inventory, id: RecipeId): (r: bool)
    ensures r <==> && id in cat && id in c.known
                   && forall k | 0 <= k < |cat[id].ingredients| ::
                        Inventory.HasItem(inv, cat[id].ingredients[k].item, cat[id].ingredients[k].qty)
  {
    id in cat && id in c.known && AllHeld(inv, cat[id].ingredients)
  }

  /** The items an ingredient list names. */
  function ItemsOf(ings: seq<Ingredient>): set<Inventory.ItemId> {
    set k | 0 <= k < |ings| :: ings[k].item
  }

  /** The ingredient removal of `craft`: `removeItem` for each ingredient in
      order, each call's failure ignored. Items no ingredient names, and the
      purse, are untouched. */
  function RemoveIngredients(inv: Inventory.Inventory, ings: seq<Ingredient>): (r: Inventory.Inventory)
    ensures forall x | x !in ItemsOf(ings) :: Inventory.Count(r, x) == Inventory.Count(inv, x)
    ensures r.items - ItemsOf(ings) == inv.items - ItemsOf(ings)
    ensures r.coins == inv.coins
    decreases |ings|
  {
    if ings == [] then inv
    else
      var next := Inventory.RemoveItem(inv, ings[0].item, ings[0].qty).0;
      var r := RemoveIngredients(next, ings[1..]);
      var s, s' := ItemsOf(ings), ItemsOf(ings[1..]);
      assert s == {ings[0].item} + s';
      assert r.items - s == (r.items - s') - {ings[0].item};
      assert inv.items - s == (inv.items - {ings[0].item}) - s';
      assert next.items - s == (next.items - {ings[0].item}) - s';
      assert next.items - s == (next.items - s') - {ings[0].item};
      r
  }

  /** With each ingredient naming a different item and every one held, the
      removal takes exactly each ingredient's quantity. */
  lemma {:induction false} RemoveIngredientsExact(inv: Inventory.Inventory, ings: seq<Ingredient>, k: nat)
    requires k < |ings|
    requires forall a, b | 0 <= a < b < |ings| :: ings[a].item != ings[b].item
    requires forall j | 0 <= j < |ings| :: Inventory.HasItem(inv, ings[j].item, ings[j].qty)
    ensures Inventory.Count(RemoveIngredients(inv, ings), ings[k].item)
            == Inventory.Count(inv, ings[k].item) - ings[k].qty
    decreases |ings|
  {
    var next := Inventory.RemoveItem(inv, ings[0].item, ings[0].qty).0;
    var rest := ings[1..];
    assert ItemsOf(ings) == {ings[0].item} + ItemsOf(rest);
    if k == 0 {
      assert ings[0].item !in ItemsOf(rest);
    } else {
      forall j | 0 <= j < |rest|
        ensures Inventory.HasItem(next, rest[j].item, rest[j].qty)
      {
        assert rest[j].item != ings[0].item;
        assert rest[j].item in inv.items - {ings[0].item};
      }
      RemoveIngredientsExact(next, rest, k - 1);
      assert ings[k].item != ings[0].item;
      assert ings[k].item in inv.items - {ings[0].item};
    }
  }

  /** One line of `getAvailableRecipes`: the recipe id, its definition when
      there is one, and whether it can be crafted now. */
  datatype Listing = Listing(id: RecipeId, recipe: Option<Recipe>, craftable: bool)

  /** `getAvailableRecipes()`: exactly the known recipes, in the order they
      were learnt, each flagged with its `canCraft` value. */
  function AvailableRecipes(cat: RecipeCatalog, c: Crafting, inv: Inventory.Inventory): (r: seq<Listing>)
    ensures |r| == |c.known|
    ensures forall k | 0 <= k < |r| ::
              && r[k].id == c.known[k]
              && (r[k].recipe.Some? <==> c.known[k] in cat)
              && (r[k].craftable <==> CanCraft(cat, c, inv, c.known[k]))
  {
    seq(|c.known|, k requires 0 <= k < |c.known| =>
      var id := c.known[k];
      Listing(id, if id in cat then Some(cat[id]) else None, CanCraft(cat, c, inv, id)))
  }

  /** `getSaveData()` / `loadSaveData(data)`: the recipe book is replaced when
      the key is present. */
  function Load(c: Crafting, known: Option<seq<RecipeId>>): (r: Crafting)
    ensures known.Some? ==> r.known == known.value
    ensures known.None? ==> r == c
  {
    if known.Some? then Crafting(known.value) else c
  }
}
