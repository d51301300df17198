/**
 * The built-in catalog the app ships with, a worked search over it, and
 * multi-step sequences of handlers on the controller.
 */
module Scenarios {
  import opened Wrappers
  import opened Sequences
  import opened Text
  import opened Recipes
  import opened App

  const Pizza: Recipe := Recipe(
    "1", "Classic Margherita Pizza", "Pizza",
    "https://images.unsplash.com/photo-1504674900247-0877df9cc836?w=600&q=80",
    ["flour", "tomatoes", "mozzarella", "basil", "olive oil"],
    "1. Preheat oven to 475°F (245°C). 2. Spread pizza dough. 3. Apply tomato sauce, mozzarella, and basil. 4. Bake 10-12 min. 5. Drizzle with olive oil, serve.",
    "A simple yet delicious pizza with fresh mozzarella and basil.")

  const Bowl: Recipe := Recipe(
    "2", "Vegan Buddha Bowl", "Bowl",
    "https://images.unsplash.com/photo-1512058564366-c9e3e0466c54?w=600&q=80",
    ["quinoa", "chickpeas", "avocado", "spinach", "carrots", "sesame seeds"],
    "1. Cook quinoa. 2. Roast chickpeas. 3. Assemble bowl: quinoa, veggies, avocado, chickpeas. 4. Top with sesame seeds.",
    "A wholesome, plant-based bowl for a nutritious meal.")

  const Pasta: Recipe := Recipe(
    "3", "Spaghetti Carbonara", "Pasta",
    "https://images.unsplash.com/photo-1523987355523-c7b5b0723c6e?w=600&q=80",
    ["spaghetti", "eggs", "bacon", "parmesan", "black pepper"],
    "1. Boil spaghetti. 2. Cook bacon. 3. Mix eggs and cheese. 4. Combine all with hot pasta, toss quickly.",
    "An Italian classic with creamy sauce and crispy bacon.")

  /** The catalog the app ships with. */
  const BuiltInCatalog: seq<Recipe> := [Pizza, Bowl, Pasta]

  lemma QueryBa()
    ensures Trim("ba") == "ba" && Query("ba") == "ba"
  {
    TrimBa();
    assert Lower("ba") == "ba";
  }

  lemma TrimBa()
    ensures Trim("ba") == "ba"
  {
    var ba := "ba";
    assert !IsWhitespace(ba[0]) && !IsWhitespace(ba[1]);
    TrimPadded([], ba, []);
    assert [] + ba + [] == ba;
  }

  lemma PizzaMatchesBa()
    ensures MatchesQuery(Pizza, "ba")
  {
    assert "basil" in Pizza.ingredients && Lower("basil") == "basil";
    assert OccursAt("basil", "ba", 0);
  }

  lemma PastaMatchesBa()
    ensures MatchesQuery(Pasta, "ba")
  {
    assert "bacon" in Pasta.ingredients && Lower("bacon") == "bacon";
    assert OccursAt("bacon", "ba", 0);
  }

  lemma LowerBowlName()
    ensures Lower(Bowl.name) == "vegan buddha bowl"
  {
  }

  /** The bowl's name has a 'b' only before 'u' and before 'o'. */
  lemma BowlNameMissesBa()
    ensures !Includes(Lower(Bowl.name), "ba")
  {
    LowerBowlName();
    var v, u, h, w := "vegan ", "budd", "ha ", "bowl";
    assert "vegan buddha bowl" == v + u + h + w;
    IncludesNeedsEveryChar(v, "ba", 'b');
    IncludesNeedsEveryChar(u, "ba", 'a');
    IncludesNeedsEveryChar(h, "ba", 'b');
    IncludesNeedsEveryChar(w, "ba", 'a');
    IncludesPairSplit(v, u, "ba");
    IncludesPairSplit(v + u, h, "ba");
    IncludesPairSplit(v + u + h, w, "ba");
  }

  /** No ingredient of the bowl has a 'b'. */
  lemma BowlIngredientMissesBa(ing: string)
    requires ing in Bowl.ingredients
    ensures !Includes(Lower(ing), "ba")
  {
    assert Lower(ing) == ing;
    IncludesNeedsEveryChar(ing, "ba", 'b');
  }

  lemma BowlMissesBa()
    ensures !MatchesQuery(Bowl, "ba")
  {
    BowlNameMissesBa();
    forall ing | ing in Bowl.ingredients ensures !Includes(Lower(ing), "ba") {
      BowlIngredientMissesBa(ing);
    }
  }

  /** "ba" matches the pizza through "basil" and the carbonara through "bacon", not the bowl. */
  lemma SearchBaOverBuiltInCatalog()
    ensures FilteredRecipes(BuiltInCatalog, AllCategory, "ba") == [Pizza, Pasta]
  {
    QueryBa();
    PizzaMatchesBa();
    PastaMatchesBa();
    BowlMissesBa();
    FilteredOfThree(Pizza, Bowl, Pasta, AllCategory, "ba");
  }

  /** Over three recipes of which only the middle one is hidden, the browse page lists the other two. */
  lemma FilteredOfThree(x: Recipe, y: Recipe, z: Recipe, category: string, search: string)
    requires Visible(x, category, search) && !Visible(y, category, search) && Visible(z, category, search)
    ensures FilteredRecipes([x, y, z], category, search) == [x, z]
  {
    PipelineIsOneFilter([x, y, z], category, search);
    FilterOfThree(x, y, z, (r: Recipe) => Visible(r, category, search));
  }

  lemma FilterOfThree<T(!new)>(a: T, b: T, c: T, p: T -> bool)
    requires p(a) && !p(b) && p(c)
    ensures Filter([a, b, c], p) == [a, c]
  {
    assert [a, b, c][1..] == [b, c] && [b, c][1..] == [c] && [c][1..] == [];
  }

  /** The sidebar over the built-in catalog lists "All" and the three categories in catalog order. */
  lemma BuiltInCategories()
    ensures AllCategories(BuiltInCatalog) == ["All", "Pizza", "Bowl", "Pasta"]
  {
    assert Pizza.category == "Pizza" && Bowl.category == "Bowl" && Pasta.category == "Pasta";
    assert "Pizza"[1] != "Pasta"[1];
    AllCategoriesOfThree(Pizza, Bowl, Pasta);
  }

  /** Over three recipes of three different categories, the sidebar lists "All" and those categories in order. */
  lemma AllCategoriesOfThree(x: Recipe, y: Recipe, z: Recipe)
    requires x.category != y.category && y.category != z.category && x.category != z.category
    ensures AllCategories([x, y, z]) == [AllCategory, x.category, y.category, z.category]
  {
    var abc := [x.category, y.category, z.category];
    CategoriesOfThree(x, y, z);
    AllCategoriesOfDistinct([x, y, z], abc);
    assert [AllCategory] + abc == [AllCategory, x.category, y.category, z.category];
  }

  lemma AllCategoriesOfDistinct(catalog: seq<Recipe>, cs: seq<string>)
    requires Categories(catalog) == cs && NoDuplicates(cs)
    ensures AllCategories(catalog) == [AllCategory] + cs
  {
    DistinctKeepsDistinct(cs);
  }

  lemma CategoriesOfThree(x: Recipe, y: Recipe, z: Recipe)
    ensures Categories([x, y, z]) == [x.category, y.category, z.category]
  {
  }

  /** Signing in and out again from a signed-out state restores the whole state. */
  method LoginThenLogout(c: Controller, username: string, password: string)
    requires c.Valid() && c.user.None?
    modifies c
    ensures c.Valid() && c.State() == old(c.State())
  {
    var _ := c.Login(username, password);
    c.Logout();
  }

  /** Favoriting twice while signed in leaves the id in a duplicate-free list exactly once. */
  method FavoriteTwice(c: Controller, id: string)
    requires c.Valid() && c.user.Some? && NoDuplicates(c.favorites)
    modifies c
    ensures c.Valid() && c.favorites == WithFavorite(old(c.favorites), id)
    ensures multiset(c.favorites)[id] == 1
  {
    c.HandleFav(id);
    c.HandleFav(id);
    NoDuplicatesOnce(c.favorites, id);
  }

  /** Favoriting while signed out only asks for a login. */
  method FavoriteSignedOut(c: Controller, id: string)
    requires c.Valid() && c.user.None?
    modifies c
    ensures c.Valid() && c.favorites == old(c.favorites) && c.showLogin
  {
    c.HandleFav(id);
  }

  /** Toggling the theme twice restores the whole state. */
  method ToggleThemeTwice(c: Controller)
    requires c.Valid()
    modifies c
    ensures c.Valid() && c.State() == old(c.State())
  {
    c.ToggleTheme();
    c.ToggleTheme();
    ToggleTwice(old(c.theme));
  }

  /** Picking a recipe from the favorites page and going back lands on the browse page. */
  method DetailsAndBack(c: Controller, id: string)
    requires c.Valid()
    modifies c
    ensures c.Valid() && c.page == Browse && c.detailsId == Some(id)
    ensures c.favorites == old(c.favorites) && c.user == old(c.user)
  {
    c.ShowFavorites();
    c.GoToRecipe(id);
    c.BackFromDetails();
  }
}
