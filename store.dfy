/** The database behind the models of backend/recipes/models.py and
    backend/users/models.py, as one value: the tables, the integrity the
    constraints and foreign keys keep, the `on_delete=CASCADE` deletions, and a
    `Store` object whose methods are the row writes the views and serializers
    issue. */
module Store {
  import opened Wrappers
  import opened UserModels
  import opened RecipeModels

  /** All tables. The many-to-many `Recipe.tags` is a set of pairs; the other
      relation tables keep their rows in insertion order. `nextRecipeId` is the
      primary key the next created recipe gets. */
  datatype Tables = Tables(
    users: map<UserId, User>,
    ingredients: map<IngredientId, Ingredient>,
    tags: map<TagId, Tag>,
    recipes: map<RecipeId, Recipe>,
    recipeIngredients: seq<RecipeIngredient>,
    recipeTags: set<RecipeTag>,
    favorites: seq<UserRecipe>,
    cart: seq<UserRecipe>,
    follows: seq<Follow>,
    shortLinks: seq<ShortLink>,
    nextRecipeId: RecipeId)

  /** The two (user, recipe) tables: Favorite and ShoppingCart. */
  datatype Relation = Favorites | ShoppingCart

  function Pairs(t: Tables, rel: Relation): seq<UserRecipe> {
    match rel
    case Favorites => t.favorites
    case ShoppingCart => t.cart
  }

  /** `t` with the table of `rel` replaced by `rows` and every other table kept. */
  function WithPairs(t: Tables, rel: Relation, rows: seq<UserRecipe>): (r: Tables)
    ensures Pairs(r, rel) == rows
    ensures rel == Favorites ==> r.cart == t.cart
    ensures rel == ShoppingCart ==> r.favorites == t.favorites
    ensures r.(favorites := t.favorites, cart := t.cart) == t
  {
    match rel
    case Favorites => t.(favorites := rows)
    case ShoppingCart => t.(cart := rows)
  }

  // ----- sequences of rows -----

  ghost predicate NoDup<T>(s: seq<T>) {
    forall i, j :: 0 <= i < j < |s| ==> s[i] != s[j]
  }

  /** The rows of `s` that `keep` accepts, in their order: `queryset.filter(...)`. */
  function Filter<T(!new)>(s: seq<T>, keep: T -> bool): (r: seq<T>)
    ensures |r| <= |s|
    ensures forall x :: x in r <==> x in s && keep(x)
  {
    if s == [] then []
    else
      assert s == [s[0]] + s[1..];
      (if keep(s[0]) then [s[0]] else []) + Filter(s[1..], keep)
  }

  lemma {:induction false} FilterNoDup<T(!new)>(s: seq<T>, keep: T -> bool)
    requires NoDup(s)
    ensures NoDup(Filter(s, keep))
  {
    if s != [] {
      FilterNoDup(s[1..], keep);
      assert s[0] !in s[1..] by {
        forall k | 0 <= k < |s[1..]| ensures s[1..][k] != s[0] {
          assert s[1..][k] == s[k + 1];
        }
      }
    }
  }

  lemma {:induction false} FilterAppend<T(!new)>(a: seq<T>, b: seq<T>, keep: T -> bool)
    ensures Filter(a + b, keep) == Filter(a, keep) + Filter(b, keep)
  {
    if a != [] {
      assert (a + b)[1..] == a[1..] + b;
      FilterAppend(a[1..], b, keep);
    } else {
      assert a + b == b;
    }
  }

  /** A filter that rejects nothing returns its input, and one that rejects
      something is shorter. */
  lemma {:induction false} FilterLength<T(!new)>(s: seq<T>, keep: T -> bool)
    ensures (forall x :: x in s ==> keep(x)) <==> Filter(s, keep) == s
    ensures (exists x :: x in s && !keep(x)) <==> |Filter(s, keep)| < |s|
  {
    if s != [] {
      FilterLength(s[1..], keep);
      assert s == [s[0]] + s[1..];
    }
  }

  /** Filtering by `q` after `p` is filtering by `q` alone when `q` implies `p`. */
  lemma {:induction false} FilterNarrower<T(!new)>(s: seq<T>, p: T -> bool, q: T -> bool)
    requires forall x :: q(x) ==> p(x)
    ensures Filter(Filter(s, p), q) == Filter(s, q)
  {
    if s != [] {
      FilterNarrower(s[1..], p, q);
      var head := if p(s[0]) then [s[0]] else [];
      assert Filter(s, p) == head + Filter(s[1..], p);
      FilterAppend(head, Filter(s[1..], p), q);
      if p(s[0]) {
        assert head[1..] == [];
      }
    }
  }

  /** `Model.objects.filter(...).delete()` on rows equal to `x`. */
  function RemoveRow<T(==,!new)>(s: seq<T>, x: T): seq<T> {
    Filter(s, y => y != x)
  }

  /** In a table without duplicate rows, deleting `x` removes one row when `x`
      is there and none otherwise. */
  lemma {:induction false} RemoveRowCount<T(!new)>(s: seq<T>, x: T)
    requires NoDup(s)
    ensures |s| - |RemoveRow(s, x)| == if x in s then 1 else 0
  {
    if s != [] {
      assert NoDup(s[1..]);
      RemoveRowCount(s[1..], x);
      assert s == [s[0]] + s[1..];
      if s[0] == x {
        assert x !in s[1..] by {
          forall k | 0 <= k < |s[1..]| ensures s[1..][k] != x {
            assert s[1..][k] == s[k + 1];
          }
        }
      }
    }
  }

  /** Deleting `x` changes the table exactly when `x` is in it, and leaves no `x`. */
  lemma RemoveRowChanges<T(!new)>(s: seq<T>, x: T)
    ensures x !in s <==> RemoveRow(s, x) == s
    ensures x in s <==> |RemoveRow(s, x)| < |s|
    ensures x !in RemoveRow(s, x)
    ensures NoDup(s) ==> NoDup(RemoveRow(s, x))
  {
    FilterLength(s, y => y != x);
    if NoDup(s) {
      FilterNoDup(s, y => y != x);
    }
  }

  /** Inserting a row that was not there and then deleting it restores the table. */
  lemma RemoveAppended<T(!new)>(s: seq<T>, x: T)
    requires x !in s
    ensures RemoveRow(s + [x], x) == s
  {
    FilterAppend(s, [x], y => y != x);
    FilterLength(s, y => y != x);
  }

  // ----- integrity -----

  ghost predicate RecipesWellFormed(t: Tables) {
    forall k :: k in t.recipes ==>
      && t.recipes[k].id == k
      && t.recipes[k].author in t.users
      && t.recipes[k].cookingTime >= MinCookingTime
      && k < t.nextRecipeId
  }

  ghost predicate RecipeIngredientsWellFormed(t: Tables) {
    forall i :: 0 <= i < |t.recipeIngredients| ==>
      && t.recipeIngredients[i].recipe in t.recipes
      && t.recipeIngredients[i].ingredient in t.ingredients
      && t.recipeIngredients[i].amount >= 1
  }

  ghost predicate RecipeTagsWellFormed(t: Tables) {
    forall rt :: rt in t.recipeTags ==> rt.recipe in t.recipes && rt.tag in t.tags
  }

  /** A Favorite or ShoppingCart table: both keys are live rows and the pair is
      unique (`unique_favorite`, `unique_shopping_cart`). */
  ghost predicate PairsWellFormed(rows: seq<UserRecipe>, t: Tables) {
    && NoDup(rows)
    && forall i :: 0 <= i < |rows| ==> rows[i].user in t.users && rows[i].recipe in t.recipes
  }

  /** The Follow table: both users are live rows and the pair is unique
      (`unique_user_following`). */
  ghost predicate FollowsWellFormed(t: Tables) {
    && NoDup(t.follows)
    && forall i :: 0 <= i < |t.follows| ==> t.follows[i].user in t.users && t.follows[i].following in t.users
  }

  /** Everything the schema guarantees about a stored state. */
  ghost predicate Consistent(t: Tables) {
    && UsersWellFormed(t.users)
    && IngredientsWellFormed(t.ingredients)
    && TagsWellFormed(t.tags)
    && RecipesWellFormed(t)
    && RecipeIngredientsWellFormed(t)
    && RecipeTagsWellFormed(t)
    && PairsWellFormed(t.favorites, t)
    && PairsWellFormed(t.cart, t)
    && FollowsWellFormed(t)
    && ShortLinksWellFormed(t.shortLinks)
  }

  // ----- cascades -----

  /** Deleting a recipe: its ingredient rows, tag links, favorites and cart
      rows go with it (`on_delete=CASCADE`); nothing else changes. */
  function WithoutRecipe(t: Tables, id: RecipeId): (r: Tables)
    ensures forall k :: k in r.recipes <==> k in t.recipes && k != id
    ensures forall x :: x in r.recipeIngredients <==> x in t.recipeIngredients && x.recipe != id
    ensures forall x :: x in r.recipeTags <==> x in t.recipeTags && x.recipe != id
    ensures forall x :: x in r.favorites <==> x in t.favorites && x.recipe != id
    ensures forall x :: x in r.cart <==> x in t.cart && x.recipe != id
    ensures r.users == t.users && r.ingredients == t.ingredients && r.tags == t.tags
    ensures r.follows == t.follows && r.shortLinks == t.shortLinks && r.nextRecipeId == t.nextRecipeId
  {
    t.(recipes := t.recipes - {id},
       recipeIngredients := Filter(t.recipeIngredients, (x: RecipeIngredient) => x.recipe != id),
       recipeTags := (set x | x in t.recipeTags && x.recipe != id),
       favorites := Filter(t.favorites, (x: UserRecipe) => x.recipe != id),
       cart := Filter(t.cart, (x: UserRecipe) => x.recipe != id))
  }

  lemma PairsFiltered(t: Tables, r: Tables, rows: seq<UserRecipe>, keep: UserRecipe -> bool)
    requires PairsWellFormed(rows, t)
    requires forall x :: x in Filter(rows, keep) ==> x.user in r.users && x.recipe in r.recipes
    ensures PairsWellFormed(Filter(rows, keep), r)
  {
    FilterNoDup(rows, keep);
  }

  /** The cascade leaves a consistent database consistent. */
  lemma WithoutRecipeConsistent(t: Tables, id: RecipeId)
    requires Consistent(t)
    ensures Consistent(WithoutRecipe(t, id))
  {
    var r := WithoutRecipe(t, id);
    assert RecipeIngredientsWellFormed(r) by {
      forall i | 0 <= i < |r.recipeIngredients|
        ensures r.recipeIngredients[i].recipe in r.recipes
      {
        assert r.recipeIngredients[i] in t.recipeIngredients;
      }
    }
    PairsFiltered(t, r, t.favorites, (x: UserRecipe) => x.recipe != id);
    PairsFiltered(t, r, t.cart, (x: UserRecipe) => x.recipe != id);
  }

  /** Deleting a user: their recipes (with those recipes' own cascades), their
      favorites and cart rows, and every Follow in which they are either side
      go with them. */
  function WithoutUser(t: Tables, id: UserId): (r: Tables)
    ensures forall k :: k in r.users <==> k in t.users && k != id
    ensures forall k :: k in r.recipes <==> k in t.recipes && t.recipes[k].author != id
    ensures forall f :: f in r.follows <==> f in t.follows && f.user != id && f.following != id
    ensures forall x :: x in r.favorites <==> x in t.favorites && x.user != id && x.recipe in r.recipes
    ensures forall x :: x in r.cart <==> x in t.cart && x.user != id && x.recipe in r.recipes
    ensures forall x :: x in r.recipeIngredients <==> x in t.recipeIngredients && x.recipe in r.recipes
    ensures forall x :: x in r.recipeTags <==> x in t.recipeTags && x.recipe in r.recipes
    ensures r.ingredients == t.ingredients && r.tags == t.tags
    ensures r.shortLinks == t.shortLinks && r.nextRecipeId == t.nextRecipeId
  {
    var kept := map k | k in t.recipes && t.recipes[k].author != id :: t.recipes[k];
    t.(users := t.users - {id},
       recipes := kept,
       recipeIngredients := Filter(t.recipeIngredients, (x: RecipeIngredient) => x.recipe in kept),
       recipeTags := (set x | x in t.recipeTags && x.recipe in kept),
       favorites := Filter(t.favorites, (x: UserRecipe) => x.user != id && x.recipe in kept),
       cart := Filter(t.cart, (x: UserRecipe) => x.user != id && x.recipe in kept),
       follows := Filter(t.follows, (f: Follow) => f.user != id && f.following != id))
  }

  lemma WithoutUserConsistent(t: Tables, id: UserId)
    requires Consistent(t)
    ensures Consistent(WithoutUser(t, id))
  {
    WithoutUserRecipeTables(t, id);
    WithoutUserPairs(t, id);
    WithoutUserFollows(t, id);
  }

  lemma WithoutUserRecipeTables(t: Tables, id: UserId)
    requires Consistent(t)
    ensures var r := WithoutUser(t, id);
      RecipesWellFormed(r) && RecipeIngredientsWellFormed(r) && RecipeTagsWellFormed(r)
  {
    var r := WithoutUser(t, id);
    assert RecipesWellFormed(r) by {
      forall k | k in r.recipes ensures r.recipes[k].author in r.users {
        assert r.recipes[k] == t.recipes[k];
      }
    }
    assert RecipeIngredientsWellFormed(r) by {
      forall i | 0 <= i < |r.recipeIngredients|
        ensures r.recipeIngredients[i].ingredient in r.ingredients && r.recipeIngredients[i].amount >= 1
      {
        assert r.recipeIngredients[i] in t.recipeIngredients;
      }
    }
    assert RecipeTagsWellFormed(r) by {
      forall x | x in r.recipeTags ensures x.tag in r.tags {
        assert x in t.recipeTags;
      }
    }
  }

  lemma WithoutUserPairs(t: Tables, id: UserId)
    requires Consistent(t)
    ensures var r := WithoutUser(t, id);
      PairsWellFormed(r.favorites, r) && PairsWellFormed(r.cart, r)
  {
    var r := WithoutUser(t, id);
    var kept := r.recipes;
    assert PairsWellFormed(r.favorites, r) by {
      forall i | 0 <= i < |r.favorites| ensures r.favorites[i].user in r.users {
        assert r.favorites[i] in t.favorites;
      }
      FilterNoDup(t.favorites, (x: UserRecipe) => x.user != id && x.recipe in kept);
    }
    assert PairsWellFormed(r.cart, r) by {
      forall i | 0 <= i < |r.cart| ensures r.cart[i].user in r.users {
        assert r.cart[i] in t.cart;
      }
      FilterNoDup(t.cart, (x: UserRecipe) => x.user != id && x.recipe in kept);
    }
  }

  lemma WithoutUserFollows(t: Tables, id: UserId)
    requires Consistent(t)
    ensures FollowsWellFormed(WithoutUser(t, id))
  {
    var r := WithoutUser(t, id);
    forall i | 0 <= i < |r.follows|
      ensures r.follows[i].user in r.users && r.follows[i].following in r.users
    {
      assert r.follows[i] in t.follows;
    }
    FilterNoDup(t.follows, (f: Follow) => f.user != id && f.following != id);
  }

  // ----- the database object -----

  /** The database a request works on. Each method is one write the ORM issues. */
  class Store {
    var users: map<UserId, User>
    var ingredients: map<IngredientId, Ingredient>
    var tags: map<TagId, Tag>
    var recipes: map<RecipeId, Recipe>
    var recipeIngredients: seq<RecipeIngredient>
    var recipeTags: set<RecipeTag>
    var favorites: seq<UserRecipe>
    var cart: seq<UserRecipe>
    var follows: seq<Follow>
    var shortLinks: seq<ShortLink>
    var nextRecipeId: RecipeId

    /** The current contents of every table. */
    function State(): Tables
      reads this
    {
      Tables(users, ingredients, tags, recipes, recipeIngredients, recipeTags,
             favorites, cart, follows, shortLinks, nextRecipeId)
    }

    constructor (t: Tables)
      ensures State() == t
    {
      users, ingredients, tags, recipes := t.users, t.ingredients, t.tags, t.recipes;
      recipeIngredients, recipeTags := t.recipeIngredients, t.recipeTags;
      favorites, cart, follows := t.favorites, t.cart, t.follows;
      shortLinks, nextRecipeId := t.shortLinks, t.nextRecipeId;
    }

    /** `Favorite.objects.create` / `ShoppingCart.objects.create`. */
    method InsertPair(rel: Relation, row: UserRecipe)
      modifies this
      ensures State() == WithPairs(old(State()), rel, Pairs(old(State()), rel) + [row])
    {
      match rel
      case Favorites => favorites := favorites + [row];
      case ShoppingCart => cart := cart + [row];
    }

    /** `filter(user=..., recipe=...).delete()`: returns the number of rows deleted. */
    method DeletePair(rel: Relation, row: UserRecipe) returns (deleted: int)
      modifies this
      ensures State() == WithPairs(old(State()), rel, RemoveRow(Pairs(old(State()), rel), row))
      ensures deleted == |Pairs(old(State()), rel)| - |Pairs(State(), rel)|
    {
      match rel
      case Favorites =>
        var before := |favorites|;
        favorites := RemoveRow(favorites, row);
        deleted := before - |favorites|;
      case ShoppingCart =>
        var before := |cart|;
        cart := RemoveRow(cart, row);
        deleted := before - |cart|;
    }

    /** `Follow.objects.create`. */
    method InsertFollow(f: Follow)
      modifies this
      ensures State() == old(State()).(follows := old(follows) + [f])
    {
      follows := follows + [f];
    }

    /** `Follow.objects.filter(user=..., following=...).delete()`. */
    method DeleteFollow(f: Follow) returns (deleted: int)
      modifies this
      ensures State() == old(State()).(follows := RemoveRow(old(follows), f))
      ensures deleted == |old(follows)| - |follows|
    {
      var before := |follows|;
      follows := RemoveRow(follows, f);
      deleted := before - |follows|;
    }

    /** `Recipe.objects.create`: the row gets the next primary key. */
    method InsertRecipe(recipe: Recipe) returns (id: RecipeId)
      modifies this
      ensures id == old(nextRecipeId)
      ensures State() == old(State()).(recipes := old(recipes)[id := recipe.(id := id)],
                                       nextRecipeId := id + 1)
    {
      id := nextRecipeId;
      recipes := recipes[id := recipe.(id := id)];
      nextRecipeId := id + 1;
    }

    /** `instance.save()` of the scalar fields of the recipe stored under `id`. */
    method SaveRecipe(id: RecipeId, recipe: Recipe)
      modifies this
      ensures State() == old(State()).(recipes := old(recipes)[id := recipe])
    {
      recipes := recipes[id := recipe];
    }

    /** `recipe.tags.add(tag)`: adding a link already there changes nothing. */
    method AddTag(recipe: RecipeId, tag: TagId)
      modifies this
      ensures State() == old(State()).(recipeTags := old(recipeTags) + {RecipeTag(recipe, tag)})
    {
      recipeTags := recipeTags + {RecipeTag(recipe, tag)};
    }

    /** `RecipeIngredient.objects.bulk_create(rows)`. */
    method BulkCreate(rows: seq<RecipeIngredient>)
      modifies this
      ensures State() == old(State()).(recipeIngredients := old(recipeIngredients) + rows)
    {
      recipeIngredients := recipeIngredients + rows;
    }

    /** `recipe.ingredients.clear()`: deletes the recipe's junction rows. */
    method ClearIngredients(recipe: RecipeId)
      modifies this
      ensures State() == old(State()).(recipeIngredients :=
                Filter(old(recipeIngredients), (x: RecipeIngredient) => x.recipe != recipe))
    {
      recipeIngredients := Filter(recipeIngredients, (x: RecipeIngredient) => x.recipe != recipe);
    }

    /** `recipe.tags.clear()`. */
    method ClearTags(recipe: RecipeId)
      modifies this
      ensures State() == old(State()).(recipeTags := set x | x in old(recipeTags) && x.recipe != recipe)
    {
      recipeTags := set x | x in recipeTags && x.recipe != recipe;
    }

    /** `RecipeShortLink.save`: fills an empty short link from `token`, then
        inserts the row; a row whose short link or original URL is already
        taken violates a unique constraint, and nothing is written. */
    method SaveShortLink(link: ShortLink, token: string) returns (saved: Option<ShortLink>)
      modifies this
      ensures saved == None <==>
                (exists i :: 0 <= i < |old(shortLinks)| &&
                  (old(shortLinks)[i].shortLink == ShortLinkSave(link, token).shortLink ||
                   old(shortLinks)[i].originalUrl == link.originalUrl))
      ensures saved.Some? ==>
                && saved.value == ShortLinkSave(link, token)
                && State() == old(State()).(shortLinks := old(shortLinks) + [saved.value])
      ensures saved.None? ==> State() == old(State())
    {
      var row := link;
      if row.shortLink == "" {
        row := row.(shortLink := TokenPrefix(token));
      }
      if exists i :: 0 <= i < |shortLinks| &&
           (shortLinks[i].shortLink == row.shortLink || shortLinks[i].originalUrl == row.originalUrl) {
        saved := None;
      } else {
        shortLinks := shortLinks + [row];
        saved := Some(row);
      }
    }

    /** `on_delete=CASCADE` from a recipe. */
    method DeleteRecipe(id: RecipeId)
      modifies this
      ensures State() == WithoutRecipe(old(State()), id)
    {
      var r := WithoutRecipe(State(), id);
      recipes, recipeIngredients, recipeTags := r.recipes, r.recipeIngredients, r.recipeTags;
      favorites, cart := r.favorites, r.cart;
    }
  }
}
