# Recipe explorer: the client-side state controller

The recipe explorer is a single-page React application. Its `App` component
holds every piece of application state: the signed-in user, the list of
favorite recipe ids, the theme, the selected category, the search text, the
current page (browse, favorites or details), the recipe shown on the details
page, and whether the login and register modals are open. It derives the list
of recipes to show from a fixed catalog on every render. This project models
that controller in Dafny and proves what its handlers and derivations promise.

Modules:

- `Wrappers`: `Option`, for JavaScript `null` slots and failed lookups.
- `Sequences`: `Filter` (`Array.prototype.filter`), `Distinct`
  (`Array.from(new Set(...))`), and the predicates used to state their
  results: subsequence, no duplicates, first-occurrence order.
- `Text`: `Trim` (`String.prototype.trim`, with ECMAScript's exact set of
  whitespace and line-terminator code points), `LowerChar`/`Lower`
  (`toLowerCase` on ASCII letters) and `Includes` (`String.prototype.includes`).
- `Recipes`: the `Recipe` record; `FilteredRecipes` (`getFilteredRecipes`)
  with its exact characterisation by the `Visible` predicate; `AllCategories`;
  the details-page lookup `FindRecipe`; and the favorites-page list
  `FavoriteRecipes`. The catalog is a parameter everywhere.
- `App`: the `Controller` class. Its fields are the component's state slots
  and its methods are the handlers. Each method's contract gives the whole new
  state through the `State()` snapshot. The pure rules the handlers follow are
  `ToggledTheme`, `WithFavorite` and `WithoutFavorite`, with lemmas about them.
- `Scenarios`: the catalog the app ships with, the worked search "ba" over
  it, the category list it yields, and multi-step handler sequences.

Facts about the code that shape the model:

- `handleFav` without a user opens the login modal (`showLogin := true`) and
  leaves the favorites alone (App.js:115-118). `HandleFav` does the same.
- Favorites are not restricted to catalog ids: `handleFav` appends any id it
  is given (App.js:119-121), and the stored list read at start-up is taken as
  it is (App.js:48-51). The favorites page lists only catalog recipes whose id
  is a favorite, so ids that name no recipe are ignored (`FavoriteRecipes`).
- `logout` sets the user to none whatever it was before (App.js:75-78), so
  logging in and then out restores the state only from a signed-out state
  (`LoginThenLogout`).
- The register modal's handler calls `login` and then closes the modal
  whether or not `login` accepted the pair (App.js:207-211), and
  `SubmitRegister` models that handler alone. The modals themselves refuse an
  empty username or password before calling their handler (App.js:664 and
  App.js:705), and `login` rejects exactly those pairs (App.js:67). So from
  the user interface a rejected pair never reaches `SubmitLogin` or
  `SubmitRegister`.

## Model

| member | source | states |
|---|---|---|
| Recipes.FilteredRecipes | recipe_app_frontend/src/App.js:99-113 | the result is a subsequence of the catalog (catalog order). A recipe is in it iff it is in the catalog and `Visible`. Every visible recipe keeps its catalog multiplicity. |
| Recipes.PipelineIsOneFilter | recipe_app_frontend/src/App.js:99-113 | the category step followed by the search step equals one filter of the catalog by `Visible`. |
| Recipes.CategoryFilterIsExact | recipe_app_frontend/src/App.js:101-103 | with a category other than "All", every listed recipe has that category. Every catalog recipe of that category that passes the search is listed. |
| Recipes.SearchIsExact | recipe_app_frontend/src/App.js:104-111 | with a non-blank trimmed search, a recipe is listed iff it is in the catalog, passes the category step, and the trimmed lower-cased query occurs in its lower-cased name or in one of its lower-cased ingredients. |
| Recipes.BlankSearchKeepsList | recipe_app_frontend/src/App.js:100-104 | an empty or whitespace-only search returns the category step's list unchanged. With "All" that is the whole catalog. |
| Recipes.SearchIgnoresCase | recipe_app_frontend/src/App.js:105-109 | lower-casing the search text does not change the result. |
| Recipes.SearchIgnoresPadding | recipe_app_frontend/src/App.js:104-105 | trimming the search text beforehand does not change the result. |
| Recipes.AllCategories | recipe_app_frontend/src/App.js:97 | the first entry is "All". Every catalog category appears after it, each only once, only catalog categories appear, and they are in order of first occurrence in the catalog. |
| Recipes.FindRecipe | recipe_app_frontend/src/App.js:182 | finds nothing iff no catalog recipe has the id. Otherwise it returns the first catalog recipe with that id. |
| Recipes.FavoriteRecipes | recipe_app_frontend/src/App.js:175 | the favorites page lists, in catalog order, exactly the catalog recipes whose id is a favorite, each as often as the catalog holds it. |
| Sequences.Filter | recipe_app_frontend/src/App.js:102 | `filter` keeps catalog order (subsequence) and keeps exactly the elements passing the test. |
| Sequences.FilterCounts | recipe_app_frontend/src/App.js:102 | every element passing the test keeps its multiplicity, and every other element is gone. |
| Sequences.FilterFilter | recipe_app_frontend/src/App.js:102-110 | two successive filters equal one filter by the conjunction of their tests. |
| Sequences.Distinct | recipe_app_frontend/src/App.js:97 | `Array.from(new Set(s))` has no duplicates and the same elements as `s`, in order of first occurrence. |
| Sequences.DistinctKeepsDistinct | recipe_app_frontend/src/App.js:97 | a `Set` built from a duplicate-free list gives that list back, in the same order. |
| Text.Trim | recipe_app_frontend/src/App.js:104-105 | `trim` returns a slice of the input that lies between two all-whitespace runs and has non-whitespace ends. It is empty iff the input is all whitespace. |
| Text.TrimPadded | recipe_app_frontend/src/App.js:104-105 | trimming whitespace-padded text with non-whitespace ends gives that text back, so `Trim` is determined uniquely. |
| Text.TrimTwice | recipe_app_frontend/src/App.js:104-105 | `trim` is idempotent. |
| Text.LowerChar | recipe_app_frontend/src/App.js:105 | the result is never an ASCII upper-case letter. Upper-case letters move to lower case. Every other character is unchanged. |
| Text.LowerTwice | recipe_app_frontend/src/App.js:105 | `toLowerCase` is idempotent. |
| Text.LowerTrim | recipe_app_frontend/src/App.js:105 | lower-casing commutes with trimming. |
| Text.Includes | recipe_app_frontend/src/App.js:108-109 | `includes` holds iff the query occurs in the text at some position. |
| App.ToggledTheme | recipe_app_frontend/src/App.js:61 | the new theme is always "light" or "dark" and always differs from the old one. Every theme other than "light" becomes "light". |
| App.ToggleTwice | recipe_app_frontend/src/App.js:61 | toggling "light" or "dark" twice gives it back. |
| App.WithFavorite | recipe_app_frontend/src/App.js:119-121 | after adding, the id is present and no other new id appears. An id already present leaves the list unchanged. An absent id is appended at the end, with the old list kept as a prefix. A duplicate-free list stays duplicate-free. |
| App.WithFavoriteIdempotent | recipe_app_frontend/src/App.js:119-121 | adding the same favorite twice equals adding it once. |
| App.WithoutFavorite | recipe_app_frontend/src/App.js:124 | no occurrence of the id remains. The rest is a subsequence of the old list, and every other id keeps its multiplicity. A duplicate-free list stays duplicate-free. |
| App.RemoveUndoesAdd | recipe_app_frontend/src/App.js:119-124 | removing an id that was just added to a list without it restores the list. |
| App.RemoveAbsent | recipe_app_frontend/src/App.js:124 | removing an absent id changes nothing. |
| App.Controller.constructor | recipe_app_frontend/src/App.js:57-91 | the initial state has the stored user and favorites, the "light" theme, category "All", an empty search, the browse page, no selected recipe and both modals closed. |
| App.Controller.ToggleTheme | recipe_app_frontend/src/App.js:61 | only the theme changes, to `ToggledTheme` of the old theme. |
| App.Controller.Login | recipe_app_frontend/src/App.js:65-74 | returns true iff username and password are both non-empty. On true it only sets the user to that username. On false the state is unchanged. |
| App.Controller.Logout | recipe_app_frontend/src/App.js:75-78 | only the user changes, to none. |
| App.Controller.HandleFav | recipe_app_frontend/src/App.js:114-122 | with no user, only `showLogin` changes, to true. With a user, only the favorites change, to `WithFavorite`. Duplicate-freedom is preserved. |
| App.Controller.RemoveFav | recipe_app_frontend/src/App.js:123-125 | needs no user. Only the favorites change, to `WithoutFavorite`, so the id is gone. |
| App.Controller.GoToRecipe | recipe_app_frontend/src/App.js:126-129 | sets the details id to the given id and the page to details. Nothing else changes. |
| App.Controller.OpenLogin | recipe_app_frontend/src/App.js:137 | only opens the login modal. |
| App.Controller.ShowFavorites | recipe_app_frontend/src/App.js:139 | only switches to the favorites page. |
| App.Controller.ShowBrowse | recipe_app_frontend/src/App.js:140 | only switches to the browse page. |
| App.Controller.ChooseCategory | recipe_app_frontend/src/App.js:154-157 | sets the category and returns to the browse page. Nothing else changes. |
| App.Controller.SetSearch | recipe_app_frontend/src/App.js:162 | only the search text changes. |
| App.Controller.BackFromDetails | recipe_app_frontend/src/App.js:186 | only returns to the browse page. The details id is kept. |
| App.Controller.CloseLogin | recipe_app_frontend/src/App.js:194 | only closes the login modal. |
| App.Controller.SubmitLogin | recipe_app_frontend/src/App.js:195-197 | a successful login sets the user and closes the login modal. A failed one changes nothing, so the modal stays open (the modal's own guard keeps such pairs away, App.js:664). |
| App.Controller.LoginToRegister | recipe_app_frontend/src/App.js:198-201 | closes the login modal and opens the register modal. |
| App.Controller.CloseRegister | recipe_app_frontend/src/App.js:206 | only closes the register modal. |
| App.Controller.SubmitRegister | recipe_app_frontend/src/App.js:207-211 | the handler sets the user iff both credentials are non-empty, and closes the register modal in either case (the modal's own guard keeps rejected pairs away, App.js:705). |
| App.Controller.RegisterToLogin | recipe_app_frontend/src/App.js:212-215 | closes the register modal and opens the login modal. |
| App.Controller.VisibleRecipes | recipe_app_frontend/src/App.js:163-164 | the browse list for the current category and search text holds, in catalog order, exactly the `Visible` catalog recipes, each as often as the catalog holds it. |
| Scenarios.SearchBaOverBuiltInCatalog | recipe_app_frontend/src/App.js:5-36 | over the shipped catalog, category "All" with search "ba" lists the pizza ("basil") and the carbonara ("bacon"), in that order, but not the bowl. |
| Scenarios.BuiltInCategories | recipe_app_frontend/src/App.js:97 | over the shipped catalog the sidebar lists "All", "Pizza", "Bowl", "Pasta". |
| Scenarios.LoginThenLogout | recipe_app_frontend/src/App.js:65-78 | from a signed-out state, `login` followed by `logout` restores the whole state. |
| Scenarios.FavoriteTwice | recipe_app_frontend/src/App.js:114-122 | a signed-in user who favorites an id twice, starting from a duplicate-free list, ends up with that id exactly once. |
| Scenarios.FavoriteSignedOut | recipe_app_frontend/src/App.js:115-118 | favoriting while signed out leaves the favorites unchanged and opens the login modal. |
| Scenarios.ToggleThemeTwice | recipe_app_frontend/src/App.js:61 | toggling the theme twice restores the whole state. |
| Scenarios.DetailsAndBack | recipe_app_frontend/src/App.js:126-129 | opening a recipe from the favorites page and then going back lands on the browse page, with the same user and favorites. |

## Left out

- The local-storage mirror of `user` and `favorites`, and the `JSON.parse`/`JSON.stringify` in `getInitialUser` and `getInitialFavorites`, are browser I/O and library calls. The values read back at start-up are constructor parameters. A stored user that parses to a falsy non-null value is not represented.
- The `data-theme` attribute effect and the injected style element change the DOM only.
- All JSX rendering and the presentational components (`Header`, `Sidebar`, `SearchBar`, `RecipeList`, `RecipeDetails`, `FavoritesPage`, `LoginModal`, `RegisterModal`) are left out, including the modals' own guards that refuse an empty username or password and show a message (App.js:664, App.js:705). The handlers those components call are modelled as `Controller` methods.
- React hook semantics are left out: batching, stale closures and re-render scheduling. Each handler is one atomic update of the state it names.
- Text.LowerChar: lower-cases only the ASCII letters A-Z. JavaScript's `toLowerCase` also maps non-ASCII letters, and its full Unicode case mapping is not modelled.
- Text.Includes: works on Unicode scalar values. JavaScript strings are UTF-16 code units, so a surrogate pair is one character here.
- The hard-coded catalog is a parameter of every derivation. Its three entries appear only in `Scenarios`, for the worked example.
- The details page renders only when `detailsId` is truthy. `GoToRecipe` always stores a string id, so the model keeps the id, and the render condition belongs to the left-out JSX.
