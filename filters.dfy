/** backend/api/filters.py: the query-string filters of the recipe listing
    (author, favorited, in the shopping cart, tag slugs) and the name-prefix
    filter of ingredients. A queryset is a sequence of rows in listing order;
    every filter keeps a sub-sequence of it. */
module Filters {
  import opened Wrappers
  import opened Text
  import opened Sorting
  import opened RecipeModels
  import opened Requests
  import opened Responses
  import opened Store

  /** The recipe filter's parameters, already converted by their form fields:
      `author` a number, the two flags booleans, `tags` the repeated slugs. */
  datatype RecipeQuery = RecipeQuery(
    author: Option<int>,
    isFavorited: Option<bool>,
    isInShoppingCart: Option<bool>,
    tags: seq<string>)

  /** A filter keeps the order of the rows it keeps. */
  lemma {:induction false} FilterKeepsOrder<T(!new)>(s: seq<T>, keep: T -> bool, le: (T, T) -> bool)
    requires SortedBy(s, le)
    ensures SortedBy(Filter(s, keep), le)
  {
    if s != [] {
      assert SortedBy(s[1..], le) by {
        forall i, j | 0 <= i < j < |s[1..]| ensures le(s[1..][i], s[1..][j]) {
          assert s[1..][i] == s[i + 1] && s[1..][j] == s[j + 1];
        }
      }
      FilterKeepsOrder(s[1..], keep, le);
      var rest := Filter(s[1..], keep);
      forall y | y in rest ensures le(s[0], y) {
        var k :| 0 <= k < |s[1..]| && s[1..][k] == y;
        assert s[1..][k] == s[k + 1];
      }
    }
  }

  // ----- RecipeFilter -----

  /** `author = NumberFilter()`: recipes by that author id; no value, no filter. */
  function ByAuthor(qs: seq<Recipe>, author: Option<int>): (r: seq<Recipe>)
    ensures author.None? ==> r == qs
    ensures author.Some? ==> forall x :: x in r <==> x in qs && x.author == author.value
  {
    if author.None? then qs else Filter(qs, (x: Recipe) => x.author == author.value)
  }

  /** `get_is_favorited` / `get_is_in_shopping_cart`: only a true flag from a
      signed-in requester narrows the queryset, to the recipes whose pair with
      the requester is stored in the table of `rel`; otherwise the queryset is
      returned as it is. */
  function ByRelation(t: Tables, rel: Relation, qs: seq<Recipe>, user: Principal, value: bool): (r: seq<Recipe>)
    ensures !(user.Authenticated? && value) ==> r == qs
    ensures user.Authenticated? && value ==>
              forall x :: x in r <==> x in qs && UserRecipe(user.user.id, x.id) in Pairs(t, rel)
  {
    if user.Authenticated? && value then
      Filter(qs, (x: Recipe) => UserRecipe(user.user.id, x.id) in Pairs(t, rel))
    else qs
  }

  /** Some tag has this slug. */
  predicate IsTagSlug(t: Tables, slug: string) {
    exists k :: k in t.tags && t.tags[k].slug == slug
  }

  /** The recipe is linked to a tag whose slug is one of `slugs`. */
  predicate HasTagAmong(t: Tables, recipe: RecipeId, slugs: seq<string>) {
    exists rt :: rt in t.recipeTags && rt.recipe == recipe && rt.tag in t.tags && t.tags[rt.tag].slug in slugs
  }

  /** `tags = ModelMultipleChoiceFilter(field_name='tags__slug', to_field_name='slug')`:
      every given slug must name a tag, or the filter form is invalid; no slugs,
      no filter; otherwise the recipes carrying at least one of the tags, each once. */
  function ByTags(t: Tables, qs: seq<Recipe>, slugs: seq<string>): (r: Result<seq<Recipe>, ApiError>)
    ensures r.Ok? <==> forall s :: s in slugs ==> IsTagSlug(t, s)
    ensures r.Err? ==> r.error == InvalidFilter
    ensures r.Ok? && slugs == [] ==> r.value == qs
    ensures r.Ok? && slugs != [] ==> forall x :: x in r.value <==> x in qs && HasTagAmong(t, x.id, slugs)
  {
    if exists s :: s in slugs && !IsTagSlug(t, s) then Err(InvalidFilter)
    else if slugs == [] then Ok(qs)
    else Ok(Filter(qs, (x: Recipe) => HasTagAmong(t, x.id, slugs)))
  }

  /** What a recipe must satisfy to stay in the filtered listing, condition by
      condition. */
  ghost predicate Matches(t: Tables, q: RecipeQuery, user: Principal, x: Recipe) {
    && (q.author.Some? ==> x.author == q.author.value)
    && (q.isFavorited == Some(true) && user.Authenticated? ==> UserRecipe(user.user.id, x.id) in t.favorites)
    && (q.isInShoppingCart == Some(true) && user.Authenticated? ==> UserRecipe(user.user.id, x.id) in t.cart)
    && (q.tags != [] ==> HasTagAmong(t, x.id, q.tags))
  }

  /** The whole `RecipeFilter`: the form is validated first, then the declared
      filters run one after the other. */
  function ApplyRecipeFilter(t: Tables, qs: seq<Recipe>, q: RecipeQuery, user: Principal): (r: Result<seq<Recipe>, ApiError>)
    ensures r.Ok? <==> forall s :: s in q.tags ==> IsTagSlug(t, s)
  {
    var a := ByAuthor(qs, q.author);
    var f := ByRelation(t, Favorites, a, user, q.isFavorited == Some(true));
    var c := ByRelation(t, ShoppingCart, f, user, q.isInShoppingCart == Some(true));
    ByTags(t, c, q.tags)
  }

  /** The listing keeps exactly the recipes of its input that match every
      given condition, and keeps their order. */
  lemma ApplyRecipeFilterMatches(t: Tables, qs: seq<Recipe>, q: RecipeQuery, user: Principal, le: (Recipe, Recipe) -> bool)
    requires ApplyRecipeFilter(t, qs, q, user).Ok?
    ensures forall x :: x in ApplyRecipeFilter(t, qs, q, user).value <==> x in qs && Matches(t, q, user, x)
    ensures SortedBy(qs, le) ==> SortedBy(ApplyRecipeFilter(t, qs, q, user).value, le)
  {
    var a := ByAuthor(qs, q.author);
    var f := ByRelation(t, Favorites, a, user, q.isFavorited == Some(true));
    var c := ByRelation(t, ShoppingCart, f, user, q.isInShoppingCart == Some(true));
    if SortedBy(qs, le) {
      if q.author.Some? {
        FilterKeepsOrder(qs, (x: Recipe) => x.author == q.author.value, le);
      }
      if user.Authenticated? && q.isFavorited == Some(true) {
        FilterKeepsOrder(a, (x: Recipe) => UserRecipe(user.user.id, x.id) in Pairs(t, Favorites), le);
      }
      if user.Authenticated? && q.isInShoppingCart == Some(true) {
        FilterKeepsOrder(f, (x: Recipe) => UserRecipe(user.user.id, x.id) in Pairs(t, ShoppingCart), le);
      }
      if q.tags != [] {
        FilterKeepsOrder(c, (x: Recipe) => HasTagAmong(t, x.id, q.tags), le);
      }
    }
  }

  /** With no parameters, or with flags an anonymous requester sends, the
      listing is returned whole. */
  lemma EmptyQueryKeepsAll(t: Tables, qs: seq<Recipe>, q: RecipeQuery, user: Principal)
    requires q.author.None? && q.tags == []
    requires user.Anonymous? || (q.isFavorited != Some(true) && q.isInShoppingCart != Some(true))
    ensures ApplyRecipeFilter(t, qs, q, user) == Ok(qs)
  {
  }

  // ----- IngredientFilter -----

  /** `name = CharFilter(lookup_expr='istartswith')`: an empty or missing value
      filters nothing; otherwise the ingredients whose name starts with it,
      ignoring case. */
  function IngredientNameFilter(qs: seq<Ingredient>, name: Option<string>): (r: seq<Ingredient>)
    ensures name.None? || name.value == "" ==> r == qs
    ensures name.Some? && name.value != "" ==>
              forall x :: x in r <==> x in qs && IStartsWith(x.name, name.value)
  {
    if name.None? || name.value == "" then qs
    else Filter(qs, (x: Ingredient) => IStartsWith(x.name, name.value))
  }

  /** An ingredient whose name starts with the typed text, in the same case,
      is always found. */
  lemma IngredientNameFilterFindsExactPrefix(qs: seq<Ingredient>, name: string, x: Ingredient)
    requires name != "" && x in qs && StartsWith(x.name, name)
    ensures x in IngredientNameFilter(qs, Some(name))
  {
    PrefixIsIPrefix(x.name, name);
  }
}
