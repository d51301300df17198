/**
 * The state controller of the `App` component: its state slots, the
 * handlers that change them, and the pure rules those handlers follow.
 * Each handler is one atomic state update; the copies the source mirrors
 * into the browser's local storage are not modelled, and the values read
 * back from it at start-up are constructor parameters.
 */
module App {
  import opened Wrappers
  import opened Sequences
  import opened Recipes

  /** The signed-in user: only a name, since no credential is ever checked. */
  datatype User = User(username: string)

  /** The `currentPage` slot: "browse", "favorites" or "details". */
  datatype Page = Browse | Favorites | Details

  const Light: string := "light"
  const Dark: string := "dark"

  /** The theme after `toggleTheme`: "light" becomes "dark", anything else becomes "light". */
  function ToggledTheme(theme: string): (r: string)
    ensures r == Light || r == Dark
    ensures r != theme
    ensures theme != Light ==> r == Light
  {
    if theme == Light then Dark else Light
  }

  /** Toggling a light or dark theme twice gives it back. */
  lemma ToggleTwice(theme: string)
    requires theme == Light || theme == Dark
    ensures ToggledTheme(ToggledTheme(theme)) == theme
  {
  }

  /** `login` accepts a pair exactly when both are non-empty (truthy) strings. */
  predicate Accepts(username: string, password: string) {
    username != [] && password != []
  }

  /**
   * The favorites list after a signed-in `handleFav(id)`: `id` is appended
   * unless it is already present. The old list stays a prefix.
   */
  function WithFavorite(favorites: seq<string>, id: string): (r: seq<string>)
    ensures id in r
    ensures forall x :: x in r <==> x in favorites || x == id
    ensures favorites <= r && |r| <= |favorites| + 1
    ensures id in favorites ==> r == favorites
    ensures id !in favorites ==> |r| == |favorites| + 1 && r[|favorites|] == id
    ensures NoDuplicates(favorites) ==> NoDuplicates(r)
  {
    if id in favorites then favorites else favorites + [id]
  }

  /** Adding a favorite twice is adding it once. */
  lemma WithFavoriteIdempotent(favorites: seq<string>, id: string)
    ensures WithFavorite(WithFavorite(favorites, id), id) == WithFavorite(favorites, id)
  {
  }

  /**
   * The favorites list after `removeFav(id)`: every occurrence of `id` is
   * gone, and every other id keeps its relative order and its multiplicity.
   */
  function WithoutFavorite(favorites: seq<string>, id: string): (r: seq<string>)
    ensures id !in r
    ensures IsSubsequence(r, favorites)
    ensures forall x :: x != id ==> multiset(r)[x] == multiset(favorites)[x]
    ensures NoDuplicates(favorites) ==> NoDuplicates(r)
  {
    var keep := (x: string) => x != id;
    assert NoDuplicates(favorites) ==> NoDuplicates(Filter(favorites, keep)) by {
      if NoDuplicates(favorites) { FilterNoDuplicates(favorites, keep); }
    }
    FilterCounts(favorites, keep);
    Filter(favorites, keep)
  }

  /** Removing a favorite that was just added to a list without it restores the list. */
  lemma RemoveUndoesAdd(favorites: seq<string>, id: string)
    requires id !in favorites
    ensures WithoutFavorite(WithFavorite(favorites, id), id) == favorites
  {
    var keep := (x: string) => x != id;
    FilterAppend(favorites, [id], keep);
    FilterKeepsAll(favorites, keep);
    assert Filter([id], keep) == [];
  }

  /** Removing an absent id changes nothing. */
  lemma RemoveAbsent(favorites: seq<string>, id: string)
    requires id !in favorites
    ensures WithoutFavorite(favorites, id) == favorites
  {
    FilterKeepsAll(favorites, (x: string) => x != id);
  }

  /** A snapshot of every state slot of the controller. */
  datatype AppState = AppState(
    user: Option<User>,
    favorites: seq<string>,
    theme: string,
    category: string,
    searchValue: string,
    page: Page,
    detailsId: Option<string>,
    showLogin: bool,
    showRegister: bool)

  class Controller {
    var user: Option<User>
    var favorites: seq<string>
    var theme: string
    var category: string
    var searchValue: string
    var page: Page
    var detailsId: Option<string>
    var showLogin: bool
    var showRegister: bool

    /** The theme only ever holds one of its two values. */
    ghost predicate Valid()
      reads this
    {
      theme == Light || theme == Dark
    }

    function State(): AppState
      reads this
    {
      AppState(user, favorites, theme, category, searchValue, page, detailsId, showLogin, showRegister)
    }

    /**
     * The state of a fresh page load: the user and favorites read back from
     * storage, light theme, all categories, empty search, the browse page,
     * no recipe selected and both modals closed.
     */
    constructor (storedUser: Option<User>, storedFavorites: seq<string>)
      ensures Valid()
      ensures State() == AppState(storedUser, storedFavorites, Light, AllCategory, "", Browse, None, false, false)
    {
      user := storedUser;
      favorites := storedFavorites;
      theme := Light;
      category := AllCategory;
      searchValue := "";
      page := Browse;
      detailsId := None;
      showLogin := false;
      showRegister := false;
    }

    /** `toggleTheme`. */
    method ToggleTheme()
      requires Valid()
      modifies this
      ensures Valid()
      ensures State() == old(State()).(theme := ToggledTheme(old(theme)))
    {
      theme := ToggledTheme(theme);
    }

    /** `login`: signs `username` in when both credentials are non-empty, otherwise changes nothing. */
    method Login(username: string, password: string) returns (ok: bool)
      requires Valid()
      modifies this
      ensures Valid()
      ensures ok <==> Accepts(username, password)
      ensures ok ==> State() == old(State()).(user := Some(User(username)))
      ensures !ok ==> State() == old(State())
    {
      if username != [] && password != [] {
        user := Some(User(username));
        return true;
      }
      return false;
    }

    /** `logout`. */
    method Logout()
      requires Valid()
      modifies this
      ensures Valid()
      ensures State() == old(State()).(user := None)
    {
      user := None;
    }

    /**
     * `handleFav`: without a signed-in user it only opens the login modal;
     * with one it adds `id` to the favorites unless it is already there.
     */
    method HandleFav(id: string)
      requires Valid()
      modifies this
      ensures Valid()
      ensures old(user).None? ==> State() == old(State()).(showLogin := true)
      ensures old(user).Some? ==> State() == old(State()).(favorites := WithFavorite(old(favorites), id))
      ensures NoDuplicates(old(favorites)) ==> NoDuplicates(favorites)
    {
      if user.None? {
        showLogin := true;
        return;
      }
      if id !in favorites {
        favorites := favorites + [id];
      }
    }

    /** `removeFav`: needs no signed-in user. */
    method RemoveFav(id: string)
      requires Valid()
      modifies this
      ensures Valid()
      ensures State() == old(State()).(favorites := WithoutFavorite(old(favorites), id))
      ensures id !in favorites
    {
      favorites := WithoutFavorite(favorites, id);
    }

    /** `goToRecipe`: open the details page of `id`. */
    method GoToRecipe(id: string)
      requires Valid()
      modifies this
      ensures Valid()
      ensures State() == old(State()).(detailsId := Some(id), page := Details)
    {
      detailsId := Some(id);
      page := Details;
    }

    /** The header's login button. */
    method OpenLogin()
      requires Valid()
      modifies this
      ensures Valid()
      ensures State() == old(State()).(showLogin := true)
    {
      showLogin := true;
    }

    /** The header's favorites link. */
    method ShowFavorites()
      requires Valid()
      modifies this
      ensures Valid()
      ensures State() == old(State()).(page := Favorites)
    {
      page := Favorites;
    }

    /** The header's browse link. */
    method ShowBrowse()
      requires Valid()
      modifies this
      ensures Valid()
      ensures State() == old(State()).(page := Browse)
    {
      page := Browse;
    }

    /** The sidebar's category buttons: select `c` and go back to browsing. */
    method ChooseCategory(c: string)
      requires Valid()
      modifies this
      ensures Valid()
      ensures State() == old(State()).(category := c, page := Browse)
    {
      category := c;
      page := Browse;
    }

    /** The search bar's input. */
    method SetSearch(text: string)
      requires Valid()
      modifies this
      ensures Valid()
      ensures State() == old(State()).(searchValue := text)
    {
      searchValue := text;
    }

    /** The details page's back button. */
    method BackFromDetails()
      requires Valid()
      modifies this
      ensures Valid()
      ensures State() == old(State()).(page := Browse)
    {
      page := Browse;
    }

    /** The login modal's close button. */
    method CloseLogin()
      requires Valid()
      modifies this
      ensures Valid()
      ensures State() == old(State()).(showLogin := false)
    {
      showLogin := false;
    }

    /** The login modal's submit: the modal closes only when the login succeeds. */
    method SubmitLogin(username: string, password: string) returns (ok: bool)
      requires Valid()
      modifies this
      ensures Valid()
      ensures ok <==> Accepts(username, password)
      ensures ok ==> State() == old(State()).(user := Some(User(username)), showLogin := false)
      ensures !ok ==> State() == old(State())
    {
      ok := Login(username, password);
      if ok {
        showLogin := false;
      }
    }

    /** The login modal's link to the register modal. */
    method LoginToRegister()
      requires Valid()
      modifies this
      ensures Valid()
      ensures State() == old(State()).(showLogin := false, showRegister := true)
    {
      showLogin := false;
      showRegister := true;
    }

    /** The register modal's close button. */
    method CloseRegister()
      requires Valid()
      modifies this
      ensures Valid()
      ensures State() == old(State()).(showRegister := false)
    {
      showRegister := false;
    }

    /**
     * The register modal's submit: registering is logging in, and the modal
     * closes whether or not the login succeeded.
     */
    method SubmitRegister(username: string, password: string)
      requires Valid()
      modifies this
      ensures Valid()
      ensures Accepts(username, password) ==>
                State() == old(State()).(user := Some(User(username)), showRegister := false)
      ensures !Accepts(username, password) ==> State() == old(State()).(showRegister := false)
    {
      var _ := Login(username, password);
      showRegister := false;
    }

    /** The register modal's link back to the login modal. */
    method RegisterToLogin()
      requires Valid()
      modifies this
      ensures Valid()
      ensures State() == old(State()).(showRegister := false, showLogin := true)
    {
      showRegister := false;
      showLogin := true;
    }

    /** The browse page's list: `getFilteredRecipes` over the current category and search text. */
    method VisibleRecipes(catalog: seq<Recipe>) returns (r: seq<Recipe>)
      ensures IsSubsequence(r, catalog)
      ensures forall x :: x in r <==> x in catalog && Visible(x, category, searchValue)
      ensures forall x :: multiset(r)[x] == if Visible(x, category, searchValue) then multiset(catalog)[x] else 0
    {
      r := FilteredRecipes(catalog, category, searchValue);
    }
  }
}
