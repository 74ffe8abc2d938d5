/**
 * The recipe detail page: lookup of the recipe named by the route, and the
 * buttons that put one ingredient, or all of them, on the shopping list.
 */
module RecipeDetailPage {
  import opened Wrappers
  import opened Strings
  import opened Seqs
  import opened Catalog
  import opened AppContext
  import ShoppingListPage

  /** The test `r.id === id`. */
  function HasId(id: int): Recipe -> bool {
    (r: Recipe) => r.id == id
  }

  /**
   * `nigerianRecipes.find(r => r.id === id)`: the first recipe with that id,
   * or `None` (the "Recipe not found" state) when no recipe has it.
   */
  function FindRecipe(catalog: seq<Recipe>, id: int): (r: Option<Recipe>)
    ensures r.Some? ==> r.value.id == id
    ensures r.Some? ==> exists k :: 0 <= k < |catalog| && catalog[k] == r.value
                                  && forall j :: 0 <= j < k ==> catalog[j].id != id
    ensures r.None? <==> forall k :: 0 <= k < |catalog| ==> catalog[k].id != id
  {
    match FindIndex(catalog, HasId(id))
    case Some(k) => Some(catalog[k])
    case None => None
  }

  /** The candidate `addIngredientToList` builds: quantity 1, no unit, tagged with the recipe. */
  function IngredientItem(recipe: Recipe, ingredient: string): (item: Item)
    ensures item.name == ingredient && OrOne(item.quantity) == 1
    ensures forall id :: ShoppingListPage.Label(NewEntry(item, id))
                         == (if recipe.name == "" then ShoppingListPage.OtherItems else recipe.name)
  {
    Item(ingredient, Num(1), Some(""), Some(recipe.id), Some(recipe.name))
  }

  /**
   * An ingredient that is new to the list becomes an entry with quantity 1,
   * an empty unit and the recipe's id, shown in the recipe's group (in
   * "Other Items" when the recipe's name is empty).
   */
  lemma NewIngredientEntry(list: seq<Entry>, recipe: Recipe, ingredient: string, now: int)
    requires !HasName(list, ingredient)
    ensures var r := AddItem(list, IngredientItem(recipe, ingredient), now);
      && |r| == |list| + 1
      && r[|list|] == Entry(now, ingredient, Num(1), Some(""), Some(recipe.id), Some(recipe.name))
      && ShoppingListPage.Label(r[|list|]) == (if recipe.name == "" then ShoppingListPage.OtherItems else recipe.name)
  {
    AddNewName(list, IngredientItem(recipe, ingredient), now);
  }

  /** The candidates "Add All" builds, one per ingredient, in ingredient order. */
  function IngredientItems(recipe: Recipe): (items: seq<Item>)
    ensures |items| == |recipe.ingredients|
    ensures forall k :: 0 <= k < |items| ==> items[k] == IngredientItem(recipe, recipe.ingredients[k])
  {
    seq(|recipe.ingredients|, k requires 0 <= k < |recipe.ingredients| => IngredientItem(recipe, recipe.ingredients[k]))
  }

  /** `addIngredientToList(ingredient)`, stamped with the clock reading `now`. */
  method AddIngredientToList(store: Store, recipe: Recipe, ingredient: string, now: int)
    modifies store
    ensures store.shoppingList == AddItem(old(store.shoppingList), IngredientItem(recipe, ingredient), now)
    ensures HasName(store.shoppingList, ingredient)
    ensures store.chatHistory == old(store.chatHistory)
  {
    store.AddToShoppingList(IngredientItem(recipe, ingredient), now);
  }

  /**
   * `addAllIngredients`: one add per ingredient, in ingredient order, the
   * k-th stamped with the clock reading `clock[k]`. Afterwards every
   * ingredient is on the list under some letter case.
   */
  method AddAllIngredients(store: Store, recipe: Recipe, clock: seq<int>)
    requires |clock| == |recipe.ingredients|
    modifies store
    ensures store.shoppingList == AddMany(old(store.shoppingList), IngredientItems(recipe), clock)
    ensures forall k :: 0 <= k < |recipe.ingredients| ==> HasName(store.shoppingList, recipe.ingredients[k])
    ensures store.chatHistory == old(store.chatHistory)
  {
    var items := IngredientItems(recipe);
    ghost var start := store.shoppingList;
    for i := 0 to |items|
      invariant store.shoppingList == AddMany(start, items[..i], clock[..i])
      invariant store.chatHistory == old(store.chatHistory)
    {
      AddIngredientToList(store, recipe, recipe.ingredients[i], clock[i]);
      AddManyStep(start, items, clock, i);
    }
    assert items[..|items|] == items && clock[..|clock|] == clock;
    IngredientsPresent(start, recipe, clock);
  }

  /** One more add extends the sequence of adds by one. */
  lemma AddManyStep(list: seq<Entry>, items: seq<Item>, ids: seq<int>, i: nat)
    requires |items| == |ids| && i < |items|
    ensures AddMany(list, items[..i + 1], ids[..i + 1]) == AddItem(AddMany(list, items[..i], ids[..i]), items[i], ids[i])
  {
    assert items[..i + 1][..i] == items[..i] && ids[..i + 1][..i] == ids[..i];
  }

  /** After "Add All" every ingredient is on the list. */
  lemma IngredientsPresent(list: seq<Entry>, recipe: Recipe, clock: seq<int>)
    requires |clock| == |recipe.ingredients|
    ensures forall k :: 0 <= k < |recipe.ingredients| ==>
      HasName(AddMany(list, IngredientItems(recipe), clock), recipe.ingredients[k])
  {
    var items := IngredientItems(recipe);
    AddManyKeepsNames(list, items, clock);
    forall k | 0 <= k < |recipe.ingredients|
      ensures HasName(AddMany(list, items, clock), recipe.ingredients[k])
    {
      assert items[k].name == recipe.ingredients[k];
    }
  }

  /**
   * Adding an ingredient already on the list (under any letter case) keeps
   * the length and adds 1 to that entry's quantity; its recipe name, and so
   * its group, stay those of the earlier entry.
   */
  lemma AddPresentIngredient(list: seq<Entry>, recipe: Recipe, ingredient: string, now: int, i: nat)
    requires i < |list| && Lower(list[i].name) == Lower(ingredient)
    requires list[i].quantity.Num?
    ensures var r := AddItem(list, IngredientItem(recipe, ingredient), now);
      && |r| == |list|
      && r[i].quantity == Num(list[i].quantity.n + 1)
      && r[i].recipeName == list[i].recipeName
      && ShoppingListPage.Label(r[i]) == ShoppingListPage.Label(list[i])
  {
    AddExistingName(list, IngredientItem(recipe, ingredient), now);
  }

  /**
   * The clock collision: when "Add All" reads the same millisecond `t` for
   * every add of new, distinct names, all the new entries share the id `t`,
   * and removing any one of them removes them all.
   */
  lemma SameTickCollision(list: seq<Entry>, recipe: Recipe, t: int)
    requires IdAbsent(list, t)
    requires forall k :: 0 <= k < |recipe.ingredients| ==> !HasName(list, recipe.ingredients[k])
    requires forall j, k :: 0 <= j < k < |recipe.ingredients| ==>
      Lower(recipe.ingredients[j]) != Lower(recipe.ingredients[k])
    ensures var r := AddMany(list, IngredientItems(recipe), seq(|recipe.ingredients|, _ => t));
      && |r| == |list| + |recipe.ingredients|
      && (forall k :: |list| <= k < |r| ==> r[k].id == t)
      && RemoveById(r, t) == list
  {
    var items := IngredientItems(recipe);
    var clock := seq(|recipe.ingredients|, _ => t);
    AddManyAllNew(list, items, clock);
    var added := NewEntries(items, clock);
    FilterAppend(list, added, IdIsNot(t));
    FilterAll(list, IdIsNot(t));
    FilterNone(added, IdIsNot(t));
  }

  /**
   * After such a collision, saving an edit of any one new entry unchanged
   * (its copy carries every key, recipe fields included) overwrites every new
   * entry with that one: the list then holds identical copies, and the older
   * entries stay.
   */
  lemma SameTickEditMakesCopies(list: seq<Entry>, recipe: Recipe, t: int, k: nat)
    requires IdAbsent(list, t)
    requires forall k :: 0 <= k < |recipe.ingredients| ==> !HasName(list, recipe.ingredients[k])
    requires forall j, k :: 0 <= j < k < |recipe.ingredients| ==>
      Lower(recipe.ingredients[j]) != Lower(recipe.ingredients[k])
    requires |list| <= k < |list| + |recipe.ingredients|
    ensures var r := AddMany(list, IngredientItems(recipe), seq(|recipe.ingredients|, _ => t));
      && |r| == |list| + |recipe.ingredients|
      && var u := UpdateById(r, t, FullPatch(r[k]));
        && |u| == |r|
        && u[..|list|] == list
        && forall j :: |list| <= j < |u| ==> u[j] == r[k]
  {
    var r := AddMany(list, IngredientItems(recipe), seq(|recipe.ingredients|, _ => t));
    SameTickCollision(list, recipe, t);
    AddManyAllNew(list, IngredientItems(recipe), seq(|recipe.ingredients|, _ => t));
    assert r[..|list|] == list;
    AddedIngredientHasAllKeys(list, recipe, t, k);
    FullPatchOverwritesTail(r, |list|, t, r[k]);
  }

  /** Each entry "Add All" appends carries every key: quantity, unit, recipe id and name. */
  lemma AddedIngredientHasAllKeys(list: seq<Entry>, recipe: Recipe, t: int, k: nat)
    requires forall k :: 0 <= k < |recipe.ingredients| ==> !HasName(list, recipe.ingredients[k])
    requires forall j, k :: 0 <= j < k < |recipe.ingredients| ==>
      Lower(recipe.ingredients[j]) != Lower(recipe.ingredients[k])
    requires |list| <= k < |list| + |recipe.ingredients|
    ensures var r := AddMany(list, IngredientItems(recipe), seq(|recipe.ingredients|, _ => t));
      k < |r| && HasAllKeys(r[k]) && r[k].recipeName == Some(recipe.name)
  {
    var items := IngredientItems(recipe);
    var clock := seq(|recipe.ingredients|, _ => t);
    AddManyAllNew(list, items, clock);
    var added := NewEntries(items, clock);
    assert AddMany(list, items, clock)[k] == added[k - |list|];
  }

  /**
   * Saving a copy of `e`, which has every key, under id `t` overwrites every entry from
   * position `n` on, all carrying `t`, and keeps the entries before `n`,
   * none of which carries it.
   */
  lemma FullPatchOverwritesTail(r: seq<Entry>, n: nat, t: int, e: Entry)
    requires HasAllKeys(e)
    requires n <= |r|
    requires IdAbsent(r[..n], t)
    requires forall j :: n <= j < |r| ==> r[j].id == t
    ensures var u := UpdateById(r, t, FullPatch(e));
      && |u| == |r|
      && u[..n] == r[..n]
      && forall j :: n <= j < |u| ==> u[j] == e
  {
    var u := UpdateById(r, t, FullPatch(e));
    forall j | 0 <= j < n ensures u[j] == r[j] {
      assert r[..n][j] == r[j];
    }
  }

  /**
   * With distinct clock readings that no entry carries, "Add All" keeps the
   * ids distinct, so each new entry can be removed on its own.
   */
  lemma FreshClockKeepsIdsDistinct(list: seq<Entry>, recipe: Recipe, clock: seq<int>)
    requires |clock| == |recipe.ingredients|
    requires IdsDistinct(list)
    requires forall k :: 0 <= k < |clock| ==> IdAbsent(list, clock[k])
    requires forall j, k :: 0 <= j < k < |clock| ==> clock[j] != clock[k]
    ensures IdsDistinct(AddMany(list, IngredientItems(recipe), clock))
  {
    AddManyFreshIds(list, IngredientItems(recipe), clock);
  }
}
