/** The records of backend/recipes/models.py: reference data (ingredients and
    tags), recipes, the recipe-ingredient junction rows that carry an amount,
    the favorite and shopping-cart pairs, and short links. */
module RecipeModels {
  import opened Wrappers
  import opened Text
  import opened UserModels

  type IngredientId = int
  type TagId = int
  type RecipeId = int

  /** Ingredient: the name is unique; the unit is free text. */
  datatype Ingredient = Ingredient(id: IngredientId, name: string, measurementUnit: string)

  /** Tag: name and slug are each unique. */
  datatype Tag = Tag(id: TagId, name: string, slug: string)

  /** Recipe scalar fields. Its ingredients and tags live in the junction tables.
      `pubDate` is the creation time stamp (`auto_now_add`). */
  datatype Recipe = Recipe(
    id: RecipeId,
    author: UserId,
    name: string,
    image: string,
    text: string,
    cookingTime: int,
    pubDate: int)

  /** RecipeIngredient: one ingredient of one recipe, with its amount. */
  datatype RecipeIngredient = RecipeIngredient(recipe: RecipeId, ingredient: IngredientId, amount: int)

  /** A row of the automatic table behind `Recipe.tags`. */
  datatype RecipeTag = RecipeTag(recipe: RecipeId, tag: TagId)

  /** A Favorite or ShoppingCart row: the pair (user, recipe). */
  datatype UserRecipe = UserRecipe(user: UserId, recipe: RecipeId)

  /** RecipeShortLink */
  datatype ShortLink = ShortLink(shortLink: string, originalUrl: string)

  /** `MinValueValidator(1)` on `cooking_time`. */
  const MinCookingTime := 1
  /** `max_length=3` of `short_link`. */
  const ShortLinkMaxLength := 3

  /** The ingredient table: rows under their own ids, names unique. */
  ghost predicate IngredientsWellFormed(ingredients: map<IngredientId, Ingredient>) {
    && (forall k :: k in ingredients ==> ingredients[k].id == k)
    && (forall a, b :: a in ingredients && b in ingredients && a != b ==>
          ingredients[a].name != ingredients[b].name)
  }

  /** The tag table: rows under their own ids, names unique and slugs unique. */
  ghost predicate TagsWellFormed(tags: map<TagId, Tag>) {
    && (forall k :: k in tags ==> tags[k].id == k)
    && (forall a, b :: a in tags && b in tags && a != b ==>
          tags[a].name != tags[b].name && tags[a].slug != tags[b].slug)
  }

  /** The short-link table: short links unique and at most three characters
      long, original URLs unique. */
  ghost predicate ShortLinksWellFormed(links: seq<ShortLink>) {
    && (forall i :: 0 <= i < |links| ==> |links[i].shortLink| <= ShortLinkMaxLength)
    && (forall i, j :: 0 <= i < j < |links| ==>
          links[i].shortLink != links[j].shortLink && links[i].originalUrl != links[j].originalUrl)
  }

  /** `str(x)` of a float `x` holding a whole number, the way an amount read
      back from the `FloatField` prints: its sign and digits followed by `.0`. */
  function FloatRepr(n: int): (s: string)
    ensures |s| >= 3 && s[|s| - 2..] == ".0"
    ensures ' ' !in s && '\n' !in s
    ensures n >= 0 <==> s[0] != '-'
  {
    (if n < 0 then "-" + NatToString(-n) else NatToString(n)) + ".0"
  }

  /** The amount can be read back from its printed form. */
  lemma FloatReprReadsBack(n: nat)
    ensures var s := FloatRepr(n);
      (forall i :: 0 <= i < |s| - 2 ==> IsDigit(s[i])) && ParseNat(s[..|s| - 2]) == n
  {
    var s := FloatRepr(n);
    assert s[..|s| - 2] == NatToString(n);
    ParseNatToString(n);
  }

  /** `RecipeIngredient.get_amount_with_unit`: amount, a space, the unit. */
  function AmountWithUnit(amount: int, unit: string): (s: string)
    ensures StartsWith(s, FloatRepr(amount) + " ")
  {
    FloatRepr(amount) + " " + unit
  }

  /** The amount is the text before the first space of that rendering. */
  lemma AmountWithUnitReadsBack(amount: nat, unit: string)
    ensures var s := Split(AmountWithUnit(amount, unit), " ")[0];
      && |s| >= 2
      && (forall i :: 0 <= i < |s| - 2 ==> IsDigit(s[i]))
      && ParseNat(s[..|s| - 2]) == amount
  {
    SplitFirst(FloatRepr(amount), ' ', unit);
    assert Split(AmountWithUnit(amount, unit), " ")[0] == FloatRepr(amount);
    FloatReprReadsBack(amount);
  }

  /** The first three characters of a generated token (`str(uuid4())[:3]`). */
  function TokenPrefix(token: string): (p: string)
    ensures |p| <= ShortLinkMaxLength && StartsWith(token, p)
    ensures |token| >= ShortLinkMaxLength ==> |p| == ShortLinkMaxLength
  {
    if |token| <= ShortLinkMaxLength then token else token[..ShortLinkMaxLength]
  }

  /** `RecipeShortLink.save`: an empty short link is filled from a fresh token
      before the row is written; a short link already set is kept. */
  function ShortLinkSave(link: ShortLink, token: string): (r: ShortLink)
    ensures r.originalUrl == link.originalUrl
    ensures link.shortLink != "" ==> r == link
    ensures link.shortLink == "" ==> r.shortLink == TokenPrefix(token)
  {
    if link.shortLink == "" then link.(shortLink := TokenPrefix(token)) else link
  }
}
