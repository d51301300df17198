/**
 * The recipe catalog and the values the `App` component derives from it on
 * every render: the category list shown in the sidebar, the recipes shown on
 * the browse page, on the favorites page and on the details page.
 */
module Recipes {
  import opened Wrappers
  import opened Sequences
  import opened Text

  /** One catalog entry. The catalog is read-only configuration. */
  datatype Recipe = Recipe(
    id: string,
    name: string,
    category: string,
    image: string,
    ingredients: seq<string>,
    instructions: string,
    description: string)

  /** The category value that disables the category step. */
  const AllCategory: string := "All"

  /** The category step keeps `r`. */
  predicate InCategory(r: Recipe, category: string) {
    category == AllCategory || r.category == category
  }

  /** The query the search step looks for: the search text trimmed, then lower-cased. */
  function Query(search: string): string {
    Lower(Trim(search))
  }

  /** `q` occurs in the lower-cased name or in at least one lower-cased ingredient. */
  predicate MatchesQuery(r: Recipe, q: string) {
    || Includes(Lower(r.name), q)
    || exists ing :: ing in r.ingredients && Includes(Lower(ing), q)
  }

  /** The search step keeps `r`: a blank search keeps everything. */
  predicate PassesSearch(r: Recipe, search: string) {
    Trim(search) == [] || MatchesQuery(r, Query(search))
  }

  /** Whether the browse page shows `r`, as a single test on the recipe. */
  predicate Visible(r: Recipe, category: string, search: string) {
    InCategory(r, category) && PassesSearch(r, search)
  }

  /** The first step of `getFilteredRecipes`. */
  function ByCategory(recipes: seq<Recipe>, category: string): seq<Recipe> {
    if category != AllCategory then Filter(recipes, (r: Recipe) => r.category == category) else recipes
  }

  /** The second step of `getFilteredRecipes`. */
  function BySearch(recipes: seq<Recipe>, search: string): seq<Recipe> {
    if Trim(search) != [] then
      var q := Query(search);
      Filter(recipes, r => MatchesQuery(r, q))
    else recipes
  }

  /** The two-step pipeline is one filter of the catalog by `Visible`. */
  lemma {:induction false} PipelineIsOneFilter(catalog: seq<Recipe>, category: string, search: string)
    ensures BySearch(ByCategory(catalog, category), search)
         == Filter(catalog, r => Visible(r, category, search))
  {
    var visible := (r: Recipe) => Visible(r, category, search);
    var byCategory := (r: Recipe) => r.category == category;
    var q := Query(search);
    var bySearch := (r: Recipe) => MatchesQuery(r, q);
    if category != AllCategory {
      if Trim(search) != [] {
        FilterFilter(catalog, byCategory, bySearch, visible);
      } else {
        FilterFilter(catalog, byCategory, _ => true, visible);
        FilterKeepsAll(Filter(catalog, byCategory), _ => true);
      }
    } else {
      if Trim(search) != [] {
        FilterFilter(catalog, _ => true, bySearch, visible);
      } else {
        FilterKeepsAll(catalog, visible);
        return;
      }
      FilterKeepsAll(catalog, _ => true);
    }
  }

  /**
   * `getFilteredRecipes`: the catalog recipes the browse page lists. The
   * result keeps catalog order and holds exactly the visible recipes, each
   * as often as the catalog holds it.
   */
  function FilteredRecipes(catalog: seq<Recipe>, category: string, search: string): (r: seq<Recipe>)
    ensures IsSubsequence(r, catalog)
    ensures forall x :: x in r <==> x in catalog && Visible(x, category, search)
    ensures forall x :: multiset(r)[x] == if Visible(x, category, search) then multiset(catalog)[x] else 0
  {
    PipelineIsOneFilter(catalog, category, search);
    FilterCounts(catalog, (x: Recipe) => Visible(x, category, search));
    BySearch(ByCategory(catalog, category), search)
  }

  /**
   * With a category other than "All", every listed recipe has that category,
   * and every catalog recipe of that category that passes the search is listed.
   */
  lemma CategoryFilterIsExact(catalog: seq<Recipe>, category: string, search: string)
    requires category != AllCategory
    ensures forall x :: x in FilteredRecipes(catalog, category, search) ==> x.category == category
    ensures forall x :: x in catalog && x.category == category && PassesSearch(x, search)
                        ==> x in FilteredRecipes(catalog, category, search)
  {
  }

  /**
   * With a non-blank search, a recipe is listed exactly when it is in the
   * catalog, passes the category step and the lower-cased query occurs in
   * its lower-cased name or in one of its lower-cased ingredients.
   */
  lemma SearchIsExact(catalog: seq<Recipe>, category: string, search: string, x: Recipe)
    requires Trim(search) != []
    ensures x in FilteredRecipes(catalog, category, search)
        <==> && x in catalog && InCategory(x, category)
             && (|| Includes(Lower(x.name), Query(search))
                 || exists k :: 0 <= k < |x.ingredients| && Includes(Lower(x.ingredients[k]), Query(search)))
  {
    var q := Query(search);
    if exists ing :: ing in x.ingredients && Includes(Lower(ing), q) {
      var ing :| ing in x.ingredients && Includes(Lower(ing), q);
      var k :| 0 <= k < |x.ingredients| && x.ingredients[k] == ing;
    }
  }

  /** A blank search (empty or whitespace only) leaves the category step's list as it is. */
  lemma BlankSearchKeepsList(catalog: seq<Recipe>, category: string, search: string)
    requires AllWhitespace(search)
    ensures FilteredRecipes(catalog, category, search) == ByCategory(catalog, category)
    ensures category == AllCategory ==> FilteredRecipes(catalog, category, search) == catalog
  {
  }

  /** The search is case-insensitive: lower-casing the search text changes nothing. */
  lemma SearchIgnoresCase(catalog: seq<Recipe>, category: string, search: string)
    ensures FilteredRecipes(catalog, category, Lower(search)) == FilteredRecipes(catalog, category, search)
  {
    LowerTrim(search);
    LowerTwice(Trim(search));
    assert Trim(Lower(search)) == [] <==> Trim(search) == [];
    assert Query(Lower(search)) == Query(search);
  }

  /** Whitespace around the search text changes nothing. */
  lemma SearchIgnoresPadding(catalog: seq<Recipe>, category: string, search: string)
    ensures FilteredRecipes(catalog, category, Trim(search)) == FilteredRecipes(catalog, category, search)
  {
    TrimTwice(search);
  }

  /** The category of each catalog entry, in catalog order. */
  function Categories(catalog: seq<Recipe>): (cs: seq<string>)
    ensures |cs| == |catalog|
    ensures forall k :: 0 <= k < |catalog| ==> cs[k] == catalog[k].category
  {
    seq(|catalog|, i requires 0 <= i < |catalog| => catalog[i].category)
  }

  /**
   * `allCategories`: "All", then each category that occurs in the catalog
   * once, in order of its first occurrence in the catalog.
   */
  function AllCategories(catalog: seq<Recipe>): (r: seq<string>)
    ensures |r| >= 1 && r[0] == AllCategory
    ensures forall k :: 0 <= k < |catalog| ==> catalog[k].category in r[1..]
    ensures NoDuplicates(r[1..])
    ensures InFirstOccurrenceOrder(r[1..], Categories(catalog))
  {
    var cs := Categories(catalog);
    var d := Distinct(cs);
    var r := [AllCategory] + d;
    assert r[1..] == d;
    assert forall k :: 0 <= k < |catalog| ==> catalog[k].category in d by {
      forall k | 0 <= k < |catalog| ensures catalog[k].category in d { assert cs[k] in cs; }
    }
    r
  }

  /**
   * `Array.prototype.find` on the catalog by id, as the details page does:
   * the first recipe with that id, or nothing when no recipe has it.
   */
  function FindRecipe(catalog: seq<Recipe>, id: string): (r: Option<Recipe>)
    ensures r.None? <==> forall k :: 0 <= k < |catalog| ==> catalog[k].id != id
    ensures r.Some? ==> exists k :: && 0 <= k < |catalog| && catalog[k] == r.value && r.value.id == id
                                    && forall j :: 0 <= j < k ==> catalog[j].id != id
  {
    if catalog == [] then None
    else if catalog[0].id == id then Some(catalog[0])
    else
      var rest := FindRecipe(catalog[1..], id);
      assert forall k :: 1 <= k < |catalog| ==> catalog[k] == catalog[1..][k - 1];
      if rest.Some? then
        var k :| && 0 <= k < |catalog[1..]| && catalog[1..][k] == rest.value && rest.value.id == id
                 && forall j :: 0 <= j < k ==> catalog[1..][j].id != id;
        assert forall j :: 0 <= j < k + 1 ==> catalog[j].id != id by {
          forall j | 0 <= j < k + 1 ensures catalog[j].id != id {
            if j > 0 { assert catalog[j] == catalog[1..][j - 1]; }
          }
        }
        assert catalog[k + 1] == rest.value;
        rest
      else rest
  }

  /**
   * The favorites page list: the catalog recipes whose id is a favorite, in
   * catalog order (not in the order they were favorited); favorite ids that
   * name no recipe are ignored.
   */
  function FavoriteRecipes(catalog: seq<Recipe>, favorites: seq<string>): (r: seq<Recipe>)
    ensures IsSubsequence(r, catalog)
    ensures forall x :: x in r <==> x in catalog && x.id in favorites
    ensures forall x :: multiset(r)[x] == if x.id in favorites then multiset(catalog)[x] else 0
  {
    var isFavorite := (r: Recipe) => r.id in favorites;
    FilterCounts(catalog, isFavorite);
    Filter(catalog, isFavorite)
  }
}
