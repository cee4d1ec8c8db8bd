/** backend/api/serializers.py: validation and writing of recipes
    (`RecipePostUpdateSerializer`), the duplicate checks of the favorite, cart
    and follow serializers, and the per-user fields of the read serializers. */
module Serializers {
  import opened Wrappers
  import opened Text
  import opened Sorting
  import opened UserModels
  import opened RecipeModels
  import opened Requests
  import opened Responses
  import opened Utils
  import opened Store

  // ----- input -----

  /** One item of `ingredients`: `{"id": ..., "amount": ...}`. */
  datatype IngredientLine = IngredientLine(id: int, amount: int)

  /** The request body of a recipe create or update. Every field may be left
      out of the body. */
  datatype RecipeInput = RecipeInput(
    ingredients: Option<seq<IngredientLine>>,
    tags: Option<seq<int>>,
    image: Option<ImageInput>,
    name: Option<string>,
    text: Option<string>,
    cookingTime: Option<int>)

  /** `validated_data`: both lists present, text fields trimmed, the image
      reduced to the stored file name. A scalar field is missing exactly when
      a partial update left it out. */
  datatype RecipeData = RecipeData(
    ingredients: seq<IngredientLine>,
    tags: seq<TagId>,
    image: Option<string>,
    name: Option<string>,
    text: Option<string>,
    cookingTime: Option<int>)

  /** Data that can become a new row: every scalar field is present. */
  predicate Complete(data: RecipeData) {
    data.image.Some? && data.name.Some? && data.text.Some? && data.cookingTime.Some?
  }

  /** `is_valid` did not pass: a 400 with these errors, or an exception that
      escapes validation (a 500). */
  datatype Failure = Rejected(errors: set<FieldError>) | Crashed

  /** `max_length` of `Recipe.name`. */
  const NameMaxLength := 256

  function Ids(lines: seq<IngredientLine>): (ids: seq<int>)
    ensures |ids| == |lines| && forall i :: 0 <= i < |lines| ==> ids[i] == lines[i].id
  {
    seq(|lines|, i requires 0 <= i < |lines| => lines[i].id)
  }

  /** `set(xs)` */
  function ToSet(xs: seq<int>): set<int> {
    set x | x in xs
  }

  lemma SubsetCard(a: set<int>, b: set<int>)
    requires a <= b
    ensures |a| <= |b|
    decreases |b|
  {
    if a != {} {
      HasElement(a);
      var x :| x in a;
      SubsetCard(a - {x}, b - {x});
    }
  }

  /** `len(xs) != len(set(xs))` holds exactly when some value repeats. */
  lemma {:induction false} SetSizeDetectsDuplicates(xs: seq<int>)
    ensures |ToSet(xs)| <= |xs|
    ensures |ToSet(xs)| == |xs| <==> NoDup(xs)
  {
    if xs != [] {
      var rest := xs[1..];
      SetSizeDetectsDuplicates(rest);
      ConsFacts(xs);
      if xs[0] in rest {
        assert ToSet(xs) == ToSet(rest);
      } else {
        assert |ToSet(xs)| == |ToSet(rest)| + 1;
      }
    }
  }

  /** The set and the repeats of a non-empty list, from its head and its tail. */
  lemma ConsFacts(xs: seq<int>)
    requires xs != []
    ensures ToSet(xs) == {xs[0]} + ToSet(xs[1..])
    ensures NoDup(xs) <==> xs[0] !in xs[1..] && NoDup(xs[1..])
  {
    var rest := xs[1..];
    assert xs == [xs[0]] + rest;
    if xs[0] in rest {
      var k :| 0 <= k < |rest| && rest[k] == xs[0];
      assert xs[k + 1] == xs[0];
    }
    if NoDup(xs) {
      forall i, j | 0 <= i < j < |rest| ensures rest[i] != rest[j] {
        assert rest[i] == xs[i + 1] && rest[j] == xs[j + 1];
      }
    }
    if xs[0] !in rest && NoDup(rest) {
      forall i, j | 0 <= i < j < |xs| ensures xs[i] != xs[j] {
        if i == 0 {
          assert xs[j] == rest[j - 1];
        } else {
          assert xs[i] == rest[i - 1] && xs[j] == rest[j - 1];
        }
      }
    }
  }

  /** With no repeated id, `filter(id__in=ids).count() == len(ids)` holds exactly
      when every id is known. */
  lemma CountDetectsUnknown(xs: seq<int>, known: set<int>)
    requires NoDup(xs)
    ensures |ToSet(xs) * known| == |xs| <==> forall i :: 0 <= i < |xs| ==> xs[i] in known
  {
    SetSizeDetectsDuplicates(xs);
    var a := ToSet(xs);
    SubsetCard(a * known, a);
    if forall i :: 0 <= i < |xs| ==> xs[i] in known {
      assert a * known == a;
    } else {
      var i :| 0 <= i < |xs| && xs[i] !in known;
      SubsetCard(a * known, a - {xs[i]});
    }
  }

  // ----- field validation -----

  /** The `ingredients` field: each item's `amount` is at least 1 (the item
      serializer), then `validate_ingredients`: no id twice, checked first, and
      every id an existing Ingredient. */
  function IngredientLinesProblem(known: set<IngredientId>, lines: seq<IngredientLine>): (r: Option<Problem>)
    ensures r.None? <==>
              && (forall i :: 0 <= i < |lines| ==> lines[i].amount >= 1)
              && NoDup(Ids(lines))
              && (forall i :: 0 <= i < |lines| ==> lines[i].id in known)
    ensures (forall i :: 0 <= i < |lines| ==> lines[i].amount >= 1) && !NoDup(Ids(lines)) ==>
              r == Some(DuplicateIds)
    ensures r.Some? ==> r.value in {AmountTooSmall, DuplicateIds, UnknownIngredients}
  {
    var ids := Ids(lines);
    SetSizeDetectsDuplicates(ids);
    if exists i :: 0 <= i < |lines| && lines[i].amount < 1 then Some(AmountTooSmall)
    else if |ids| != |ToSet(ids)| then Some(DuplicateIds)
    else
      CountDetectsUnknown(ids, known);
      if |ToSet(ids) * known| != |ids| then Some(UnknownIngredients)
      else None
  }

  /** The first id of `pks` that is not in `known`: the primary-key field stops
      at the first tag it cannot find. */
  function FirstUnknown(pks: seq<int>, known: set<int>): (r: Option<int>)
    ensures r.None? <==> forall i :: 0 <= i < |pks| ==> pks[i] in known
    ensures r.Some? ==> exists i :: 0 <= i < |pks| && pks[i] == r.value && r.value !in known &&
                          forall k :: 0 <= k < i ==> pks[k] in known
  {
    if pks == [] then None
    else if pks[0] !in known then Some(pks[0])
    else
      var rest := FirstUnknown(pks[1..], known);
      if rest.Some? then
        var i :| 0 <= i < |pks[1..]| && pks[1..][i] == rest.value && rest.value !in known &&
                 forall k :: 0 <= k < i ==> pks[1..][k] in known;
        assert pks[i + 1] == rest.value;
        assert forall k :: 1 <= k < i + 1 ==> pks[k] == pks[1..][k - 1];
        rest
      else
        assert forall i :: 1 <= i < |pks| ==> pks[i] == pks[1..][i - 1];
        rest
  }

  /** The `tags` field: every id an existing Tag (the first missing one is
      reported), then `validate_tags`: no id twice. */
  function TagIdsProblem(known: set<TagId>, pks: seq<int>): (r: Option<Problem>)
    ensures r.None? <==> (forall i :: 0 <= i < |pks| ==> pks[i] in known) && NoDup(pks)
    ensures r.Some? && r.value.UnknownTag? ==> r.value.pk in pks && r.value.pk !in known
    ensures (forall i :: 0 <= i < |pks| ==> pks[i] in known) && !NoDup(pks) ==> r == Some(DuplicateIds)
  {
    SetSizeDetectsDuplicates(pks);
    match FirstUnknown(pks, known)
    case Some(pk) => Some(UnknownTag(pk))
    case None => if |pks| != |ToSet(pks)| then Some(DuplicateIds) else None
  }

  /** A text field: blank after trimming is refused; then the trimmed value
      must fit `maxLength` and hold no NUL character (the validators every DRF
      `CharField` carries, run in that order). */
  function TextProblem(s: string, maxLength: Option<nat>): (r: Option<Problem>)
    ensures r.None? <==>
              Strip(s) != [] && (maxLength.None? || |Strip(s)| <= maxLength.value) && '\0' !in Strip(s)
  {
    var v := Strip(s);
    if v == [] then Some(Blank)
    else if maxLength.Some? && |v| > maxLength.value then Some(TooLong)
    else if '\0' in v then Some(NullCharacter)
    else None
  }

  /** A NUL character inside a name or a text is refused, trimming or not. */
  lemma NullCharacterRefused(front: string, back: string, maxLength: Option<nat>)
    ensures TextProblem(front + "\0" + back, maxLength).Some?
  {
    var s := front + "\0" + back;
    assert s[|front|] == '\0';
    StripKeepsInner(s, |front|);
  }

  /** The image field after `Base64ImageField.to_internal_value`: a plain
      string is not a file, and a decoded data URL with nothing after the
      marker is an empty file. */
  function ImageProblem(v: ImageValue): Option<Problem> {
    match v
    case Unchanged(TextInput(_)) => Some(NotAFile)
    case Unchanged(OtherInput(_)) => None
    case NamedContent(_, payload) => if payload == "" then Some(EmptyFile) else None
  }

  /** The name under which an accepted image is stored. */
  function StoredImage(v: ImageValue): string {
    match v
    case Unchanged(TextInput(s)) => s
    case Unchanged(OtherInput(upload)) => upload
    case NamedContent(name, _) => name
  }

  function ErrorsOf(field: Field, p: Option<Problem>): set<FieldError> {
    if p.Some? then {FieldError(field, p.value)} else {}
  }

  /** A declared field: missing is an error unless the update is partial. */
  function PresentErrors<V>(field: Field, value: Option<V>, check: V -> Option<Problem>, partial: bool): set<FieldError> {
    match value
    case None => if partial then {} else {FieldError(field, Required)}
    case Some(v) => ErrorsOf(field, check(v))
  }

  /** `Base64ImageField.to_internal_value` runs only on an image that was sent. */
  function DecodeImage(image: Option<ImageInput>): (r: Result<Option<ImageValue>, ImageError>)
    ensures r.Err? <==> image.Some? && Base64ToInternalValue(image.value).Err?
    ensures r.Ok? ==> (r.value.None? <==> image.None?)
    ensures r.Ok? && image.Some? ==> r.value == Some(Base64ToInternalValue(image.value).value)
  {
    match image
    case None => Ok(None)
    case Some(data) =>
      match Base64ToInternalValue(data)
      case Err(e) => Err(e)
      case Ok(v) => Ok(Some(v))
  }

  /** `min_value=1` of `cooking_time`. */
  function CookingTimeProblem(minutes: int): (p: Option<Problem>)
    ensures p.None? <==> minutes >= MinCookingTime
  {
    if minutes < MinCookingTime then Some(TooSmall) else None
  }

  /** Every field error DRF collects for `input`; an accepted image must come
      out of the header split. */
  function FieldErrors(t: Tables, input: RecipeInput, image: Option<ImageValue>, partial: bool): set<FieldError> {
    PresentErrors(IngredientsField, input.ingredients,
                  (lines: seq<IngredientLine>) => IngredientLinesProblem(t.ingredients.Keys, lines), partial)
    + PresentErrors(TagsField, input.tags, (pks: seq<int>) => TagIdsProblem(t.tags.Keys, pks), partial)
    + PresentErrors(ImageField, image, ImageProblem, partial)
    + PresentErrors(NameField, input.name, (s: string) => TextProblem(s, Some(NameMaxLength)), partial)
    + PresentErrors(TextField, input.text, (s: string) => TextProblem(s, None), partial)
    + PresentErrors(CookingTimeField, input.cookingTime, CookingTimeProblem, partial)
  }

  /** A text field as `validated_data` holds it: trimmed, or missing. */
  function Trimmed(s: Option<string>): (r: Option<string>)
    ensures r.None? <==> s.None?
    ensures r.Some? ==> r.value == Strip(s.value)
  {
    if s.Some? then Some(Strip(s.value)) else None
  }

  /** `is_valid()` of `RecipePostUpdateSerializer`; `partial` is a PATCH. A header
      split that raises escapes validation. Otherwise the field errors are
      collected, and only when there are none does `validate` run: no
      ingredient lines, then no tags, is refused. */
  function ValidateRecipe(t: Tables, input: RecipeInput, partial: bool): (r: Result<RecipeData, Failure>)
    ensures r == Err(Crashed) <==> input.image.Some? && Base64ToInternalValue(input.image.value).Err?
  {
    match DecodeImage(input.image)
    case Err(_) => Err(Crashed)
    case Ok(image) =>
      var errors := FieldErrors(t, input, image, partial);
      if errors != {} then Err(Rejected(errors))
      else if input.ingredients.None? || |input.ingredients.value| == 0 then
        Err(Rejected({FieldError(NonField, NoIngredients)}))
      else if input.tags.None? || |input.tags.value| == 0 then
        Err(Rejected({FieldError(TagsField, NoTags)}))
      else
        var stored := if image.Some? then Some(StoredImage(image.value)) else None;
        Ok(RecipeData(input.ingredients.value, input.tags.value, stored,
                      Trimmed(input.name), Trimmed(input.text), input.cookingTime))
  }

  /** What an acceptable recipe body is, stated field by field: both lists
      sent and sound, and every scalar field sound, or left out of a partial
      update. */
  ghost predicate AcceptableInput(t: Tables, input: RecipeInput, partial: bool) {
    && input.ingredients.Some?
    && |input.ingredients.value| > 0
    && (forall i :: 0 <= i < |input.ingredients.value| ==> input.ingredients.value[i].amount >= 1)
    && NoDup(Ids(input.ingredients.value))
    && (forall i :: 0 <= i < |input.ingredients.value| ==> input.ingredients.value[i].id in t.ingredients)
    && input.tags.Some?
    && |input.tags.value| > 0
    && NoDup(input.tags.value)
    && (forall i :: 0 <= i < |input.tags.value| ==> input.tags.value[i] in t.tags)
    && (input.image.None? ==> partial)
    && (input.image.Some? ==>
          && Base64ToInternalValue(input.image.value).Ok?
          && ImageProblem(Base64ToInternalValue(input.image.value).value).None?)
    && (input.name.None? ==> partial)
    && (input.name.Some? ==>
          Strip(input.name.value) != [] && |Strip(input.name.value)| <= NameMaxLength && '\0' !in Strip(input.name.value))
    && (input.text.None? ==> partial)
    && (input.text.Some? ==> Strip(input.text.value) != [] && '\0' !in Strip(input.text.value))
    && (input.cookingTime.None? ==> partial)
    && (input.cookingTime.Some? ==> input.cookingTime.value >= MinCookingTime)
  }

  /** Validated data a write may rely on: known ids, positive amounts, no
      repeats, a cooking time of at least one minute. */
  ghost predicate ValidData(t: Tables, data: RecipeData) {
    && |data.ingredients| > 0
    && (forall i :: 0 <= i < |data.ingredients| ==>
          data.ingredients[i].amount >= 1 && data.ingredients[i].id in t.ingredients)
    && NoDup(Ids(data.ingredients))
    && |data.tags| > 0
    && NoDup(data.tags)
    && (forall i :: 0 <= i < |data.tags| ==> data.tags[i] in t.tags)
    && (data.cookingTime.Some? ==> data.cookingTime.value >= MinCookingTime)
  }

  /** Validation accepts exactly the acceptable bodies, whether or not the
      update is partial. */
  lemma ValidateRecipeAcceptsExactly(t: Tables, input: RecipeInput, partial: bool)
    ensures ValidateRecipe(t, input, partial).Ok? <==> AcceptableInput(t, input, partial)
  {
    match DecodeImage(input.image)
    case Err(_) =>
    case Ok(image) =>
      AcceptedShape(t, input, image, partial);
      if input.ingredients.Some? && input.tags.Some? {
        AcceptableOnceDecoded(t, input, image, partial);
      }
  }

  /** With both lists sent and the image decoded, the checks DRF runs pass
      exactly on an acceptable body. */
  lemma AcceptableOnceDecoded(t: Tables, input: RecipeInput, image: Option<ImageValue>, partial: bool)
    requires DecodeImage(input.image) == Ok(image)
    requires input.ingredients.Some? && input.tags.Some?
    ensures (&& FieldErrors(t, input, image, partial) == {}
             && |input.ingredients.value| > 0 && |input.tags.value| > 0)
            <==> AcceptableInput(t, input, partial)
  {
    FieldErrorsEmpty(t, input, image, partial);
    ListsPass(t, input.ingredients.value, input.tags.value);
    assert image.Some? ==> image.value == Base64ToInternalValue(input.image.value).value;
  }

  /** Past the header split, a body is accepted when no field error is
      collected and both lists are present and non-empty. */
  lemma AcceptedShape(t: Tables, input: RecipeInput, image: Option<ImageValue>, partial: bool)
    requires DecodeImage(input.image) == Ok(image)
    ensures ValidateRecipe(t, input, partial).Ok? <==>
      && FieldErrors(t, input, image, partial) == {}
      && input.ingredients.Some? && |input.ingredients.value| > 0
      && input.tags.Some? && |input.tags.value| > 0
  {
  }

  lemma ListsPass(t: Tables, lines: seq<IngredientLine>, pks: seq<int>)
    ensures IngredientLinesProblem(t.ingredients.Keys, lines).None? <==>
      && (forall i :: 0 <= i < |lines| ==> lines[i].amount >= 1)
      && NoDup(Ids(lines))
      && (forall i :: 0 <= i < |lines| ==> lines[i].id in t.ingredients)
    ensures TagIdsProblem(t.tags.Keys, pks).None? <==>
      (forall i :: 0 <= i < |pks| ==> pks[i] in t.tags) && NoDup(pks)
  {
  }

  /** Accepted data hands on the lists unchanged, the text fields trimmed and
      the sent scalar fields only; a full write sends them all. It is valid
      for the database it was checked against. */
  lemma ValidatedData(t: Tables, input: RecipeInput, partial: bool)
    requires ValidateRecipe(t, input, partial).Ok?
    ensures var d := ValidateRecipe(t, input, partial).value;
      && d.ingredients == input.ingredients.value && d.tags == input.tags.value
      && d.name == Trimmed(input.name) && d.text == Trimmed(input.text)
      && d.cookingTime == input.cookingTime
      && (d.image.Some? <==> input.image.Some?)
      && ValidData(t, d)
      && (!partial ==> Complete(d))
  {
    ValidateRecipeAcceptsExactly(t, input, partial);
  }

  /** A declared field adds no error exactly when it passes its check, or is
      left out of a partial update. */
  lemma PresentErrorsEmpty<V>(field: Field, value: Option<V>, check: V -> Option<Problem>, partial: bool)
    ensures PresentErrors(field, value, check, partial) == {} <==>
      (value.None? ==> partial) && (value.Some? ==> check(value.value).None?)
  {
  }

  /** No field error is collected exactly when each field passes on its own. */
  lemma FieldErrorsEmpty(t: Tables, input: RecipeInput, image: Option<ImageValue>, partial: bool)
    ensures FieldErrors(t, input, image, partial) == {} <==>
      && (input.ingredients.None? ==> partial)
      && (input.ingredients.Some? ==> IngredientLinesProblem(t.ingredients.Keys, input.ingredients.value).None?)
      && (input.tags.None? ==> partial)
      && (input.tags.Some? ==> TagIdsProblem(t.tags.Keys, input.tags.value).None?)
      && (image.None? ==> partial)
      && (image.Some? ==> ImageProblem(image.value).None?)
      && (input.name.None? ==> partial)
      && (input.name.Some? ==> TextProblem(input.name.value, Some(NameMaxLength)).None?)
      && (input.text.None? ==> partial)
      && (input.text.Some? ==> TextProblem(input.text.value, None).None?)
      && (input.cookingTime.None? ==> partial)
      && (input.cookingTime.Some? ==> input.cookingTime.value >= MinCookingTime)
  {
    PresentErrorsEmpty(IngredientsField, input.ingredients,
                       (lines: seq<IngredientLine>) => IngredientLinesProblem(t.ingredients.Keys, lines), partial);
    PresentErrorsEmpty(TagsField, input.tags, (pks: seq<int>) => TagIdsProblem(t.tags.Keys, pks), partial);
    PresentErrorsEmpty(ImageField, image, ImageProblem, partial);
    PresentErrorsEmpty(NameField, input.name, (s: string) => TextProblem(s, Some(NameMaxLength)), partial);
    PresentErrorsEmpty(TextField, input.text, (s: string) => TextProblem(s, None), partial);
    PresentErrorsEmpty(CookingTimeField, input.cookingTime, CookingTimeProblem, partial);
  }

  /** Leaving out the ingredients is a field error on a full write, and the
      `validate` error on a partial one when the rest of the body is fine. */
  lemma MissingIngredients(t: Tables, input: RecipeInput)
    requires input.ingredients.None?
    requires DecodeImage(input.image).Ok?
    ensures ValidateRecipe(t, input, false).Err?
    ensures FieldError(IngredientsField, Required) in ValidateRecipe(t, input, false).error.errors
    ensures FieldErrors(t, input, DecodeImage(input.image).value, true) == {} ==>
              ValidateRecipe(t, input, true) == Err(Rejected({FieldError(NonField, NoIngredients)}))
  {
  }

  /** On a full write a scalar field left out of the body is reported as
      required; a partial update accepts its absence. */
  lemma MissingScalarField(t: Tables, input: RecipeInput)
    requires DecodeImage(input.image).Ok?
    requires input.image.None? || input.name.None? || input.text.None? || input.cookingTime.None?
    ensures ValidateRecipe(t, input, false).Err?
    ensures input.image.None? ==> FieldError(ImageField, Required) in ValidateRecipe(t, input, false).error.errors
    ensures input.name.None? ==> FieldError(NameField, Required) in ValidateRecipe(t, input, false).error.errors
    ensures input.text.None? ==> FieldError(TextField, Required) in ValidateRecipe(t, input, false).error.errors
    ensures input.cookingTime.None? ==>
              FieldError(CookingTimeField, Required) in ValidateRecipe(t, input, false).error.errors
  {
  }

  // ----- writing -----

  /** The junction rows `bulk_create` inserts: one per line, in order, with
      that line's ingredient and amount. */
  function LinesToRows(recipe: RecipeId, lines: seq<IngredientLine>): (rows: seq<RecipeIngredient>)
    ensures |rows| == |lines|
    ensures forall i :: 0 <= i < |lines| ==>
              rows[i] == RecipeIngredient(recipe, lines[i].id, lines[i].amount)
  {
    seq(|lines|, i requires 0 <= i < |lines| => RecipeIngredient(recipe, lines[i].id, lines[i].amount))
  }

  /** The tag links `recipe.tags.add` creates for every id in `tags`. */
  function TagLinks(recipe: RecipeId, tags: seq<TagId>): (links: set<RecipeTag>)
    ensures forall x :: x in links <==> x.recipe == recipe && x.tag in tags
  {
    set tag | tag in tags :: RecipeTag(recipe, tag)
  }

  /** The ingredient rows of a recipe, in table order. */
  function RowsOf(t: Tables, recipe: RecipeId): seq<RecipeIngredient> {
    Filter(t.recipeIngredients, (x: RecipeIngredient) => x.recipe == recipe)
  }

  /** The tag ids linked to a recipe. */
  function TagsOf(t: Tables, recipe: RecipeId): set<TagId> {
    set x | x in t.recipeTags && x.recipe == recipe :: x.tag
  }

  /** `create`: the recipe row under the next key, its tag links and one
      junction row per ingredient line. */
  function CreateResult(t: Tables, data: RecipeData, author: UserId, pubDate: int): Tables
    requires Complete(data)
  {
    var id := t.nextRecipeId;
    t.(recipes := t.recipes[id := NewRecipe(id, data, author, pubDate)],
       nextRecipeId := id + 1,
       recipeTags := t.recipeTags + TagLinks(id, data.tags),
       recipeIngredients := t.recipeIngredients + LinesToRows(id, data.ingredients))
  }

  /** The row `Recipe.objects.create(**validated_data)` stores under `id`. */
  function NewRecipe(id: RecipeId, data: RecipeData, author: UserId, pubDate: int): Recipe
    requires Complete(data)
  {
    Recipe(id, author, data.name.value, data.image.value, data.text.value, data.cookingTime.value, pubDate)
  }

  /** `ModelSerializer.update` sets only the fields present in `validated_data`. */
  function UpdatedRow(before: Recipe, data: RecipeData): Recipe {
    before.(name := data.name.GetOr(before.name), image := data.image.GetOr(before.image),
            text := data.text.GetOr(before.text), cookingTime := data.cookingTime.GetOr(before.cookingTime))
  }

  /** `update`: the recipe's rows and tags are cleared and replaced by the new
      lists; the scalar fields that were sent are overwritten, the others and
      the author and date are kept. */
  function UpdateResult(t: Tables, id: RecipeId, data: RecipeData): Tables
    requires id in t.recipes
  {
    t.(recipes := t.recipes[id := UpdatedRow(t.recipes[id], data)],
       recipeTags := (set x | x in t.recipeTags && x.recipe != id) + TagLinks(id, data.tags),
       recipeIngredients := Filter(t.recipeIngredients, (x: RecipeIngredient) => x.recipe != id)
                            + LinesToRows(id, data.ingredients))
  }

  lemma NoRowsKept(rows: seq<RecipeIngredient>, keep: RecipeIngredient -> bool)
    requires forall x :: x in rows ==> !keep(x)
    ensures Filter(rows, keep) == []
  {
    if Filter(rows, keep) != [] {
      assert Filter(rows, keep)[0] in Filter(rows, keep);
    }
  }

  lemma AllRowsKept(rows: seq<RecipeIngredient>, keep: RecipeIngredient -> bool)
    requires forall x :: x in rows ==> keep(x)
    ensures Filter(rows, keep) == rows
  {
    FilterLength(rows, keep);
  }

  /** After create the new recipe has exactly one junction row per input
      line, carrying that line's amount, its tags are exactly the input tags,
      its author is the requester, and no other recipe's rows change. */
  lemma CreateRecipeContents(t: Tables, data: RecipeData, author: UserId, pubDate: int)
    requires Complete(data)
    requires Consistent(t)
    ensures var r := CreateResult(t, data, author, pubDate); var id := t.nextRecipeId;
      && id !in t.recipes
      && RowsOf(r, id) == LinesToRows(id, data.ingredients)
      && TagsOf(r, id) == ToSet(data.tags)
      && r.recipes[id].author == author
      && forall k :: k != id ==> RowsOf(r, k) == RowsOf(t, k) && TagsOf(r, k) == TagsOf(t, k)
  {
    var r := CreateResult(t, data, author, pubDate);
    var id := t.nextRecipeId;
    CreateRowsOfNew(t, data, author, pubDate);
    CreateTagsOfNew(t, data, author, pubDate);
    forall k | k != id ensures RowsOf(r, k) == RowsOf(t, k) && TagsOf(r, k) == TagsOf(t, k) {
      CreateKeepsOthers(t, data, author, pubDate, k);
    }
  }

  lemma CreateRowsOfNew(t: Tables, data: RecipeData, author: UserId, pubDate: int)
    requires Complete(data)
    requires Consistent(t)
    ensures RowsOf(CreateResult(t, data, author, pubDate), t.nextRecipeId) == LinesToRows(t.nextRecipeId, data.ingredients)
  {
    var id := t.nextRecipeId;
    var rows := LinesToRows(id, data.ingredients);
    FilterAppend(t.recipeIngredients, rows, (x: RecipeIngredient) => x.recipe == id);
    assert forall x :: x in t.recipeIngredients ==> x.recipe != id by {
      forall x | x in t.recipeIngredients ensures x.recipe != id {
        var i :| 0 <= i < |t.recipeIngredients| && t.recipeIngredients[i] == x;
      }
    }
    NoRowsKept(t.recipeIngredients, (x: RecipeIngredient) => x.recipe == id);
    AllRowsKept(rows, (x: RecipeIngredient) => x.recipe == id);
  }

  lemma CreateTagsOfNew(t: Tables, data: RecipeData, author: UserId, pubDate: int)
    requires Complete(data)
    requires Consistent(t)
    ensures TagsOf(CreateResult(t, data, author, pubDate), t.nextRecipeId) == ToSet(data.tags)
  {
    var r := CreateResult(t, data, author, pubDate);
    var id := t.nextRecipeId;
    forall tag | tag in TagsOf(r, id) ensures tag in data.tags {
      var x :| x in r.recipeTags && x.recipe == id && x.tag == tag;
      assert x !in t.recipeTags;
    }
    forall tag | tag in data.tags ensures tag in TagsOf(r, id) {
      assert RecipeTag(id, tag) in r.recipeTags;
    }
  }

  lemma CreateKeepsOthers(t: Tables, data: RecipeData, author: UserId, pubDate: int, k: RecipeId)
    requires Complete(data)
    requires k != t.nextRecipeId
    ensures var r := CreateResult(t, data, author, pubDate);
      RowsOf(r, k) == RowsOf(t, k) && TagsOf(r, k) == TagsOf(t, k)
  {
    var rows := LinesToRows(t.nextRecipeId, data.ingredients);
    FilterAppend(t.recipeIngredients, rows, (x: RecipeIngredient) => x.recipe == k);
    NoRowsKept(rows, (x: RecipeIngredient) => x.recipe == k);
  }

  /** Creating a recipe from validated data by an existing user keeps the
      database consistent. */
  lemma CreateKeepsConsistent(t: Tables, data: RecipeData, author: UserId, pubDate: int)
    requires Complete(data)
    requires Consistent(t) && ValidData(t, data) && author in t.users
    ensures Consistent(CreateResult(t, data, author, pubDate))
  {
    var r := CreateResult(t, data, author, pubDate);
    var rows := LinesToRows(t.nextRecipeId, data.ingredients);
    assert RecipeIngredientsWellFormed(r) by {
      forall i | 0 <= i < |r.recipeIngredients|
        ensures r.recipeIngredients[i].recipe in r.recipes
      {
        if i >= |t.recipeIngredients| {
          assert r.recipeIngredients[i] == rows[i - |t.recipeIngredients|];
        }
      }
    }
  }

  /** After update the recipe's ingredient rows and tags are exactly the new
      input, never a union with the old ones; author and publication date are
      unchanged, and so are every other recipe's rows and tags. */
  lemma UpdateReplaces(t: Tables, id: RecipeId, data: RecipeData)
    requires id in t.recipes
    ensures var r := UpdateResult(t, id, data);
      && RowsOf(r, id) == LinesToRows(id, data.ingredients)
      && TagsOf(r, id) == ToSet(data.tags)
      && r.recipes[id].author == t.recipes[id].author
      && r.recipes[id].pubDate == t.recipes[id].pubDate
      && r.recipes.Keys == t.recipes.Keys
      && (data.name.Some? ==> r.recipes[id].name == data.name.value)
      && (data.name.None? ==> r.recipes[id].name == t.recipes[id].name)
      && (data.image.Some? ==> r.recipes[id].image == data.image.value)
      && (data.image.None? ==> r.recipes[id].image == t.recipes[id].image)
      && (data.text.Some? ==> r.recipes[id].text == data.text.value)
      && (data.text.None? ==> r.recipes[id].text == t.recipes[id].text)
      && (data.cookingTime.Some? ==> r.recipes[id].cookingTime == data.cookingTime.value)
      && (data.cookingTime.None? ==> r.recipes[id].cookingTime == t.recipes[id].cookingTime)
      && forall k :: k != id ==> RowsOf(r, k) == RowsOf(t, k) && TagsOf(r, k) == TagsOf(t, k)
  {
    var r := UpdateResult(t, id, data);
    var kept := Filter(t.recipeIngredients, (x: RecipeIngredient) => x.recipe != id);
    var rows := LinesToRows(id, data.ingredients);
    FilterAppend(kept, rows, (x: RecipeIngredient) => x.recipe == id);
    NoRowsKept(kept, (x: RecipeIngredient) => x.recipe == id);
    AllRowsKept(rows, (x: RecipeIngredient) => x.recipe == id);
    assert TagsOf(r, id) == ToSet(data.tags) by {
      forall tag | tag in TagsOf(r, id) ensures tag in data.tags {
        var x :| x in r.recipeTags && x.recipe == id && x.tag == tag;
      }
      forall tag | tag in data.tags ensures tag in TagsOf(r, id) {
        assert RecipeTag(id, tag) in r.recipeTags;
      }
    }
    forall k | k != id ensures TagsOf(r, k) == TagsOf(t, k) {
      forall tag | tag in TagsOf(t, k) ensures tag in TagsOf(r, k) {
        var x :| x in t.recipeTags && x.recipe == k && x.tag == tag;
        assert x in r.recipeTags;
      }
    }
    forall k | k != id ensures RowsOf(r, k) == RowsOf(t, k) {
      FilterAppend(kept, rows, (x: RecipeIngredient) => x.recipe == k);
      NoRowsKept(rows, (x: RecipeIngredient) => x.recipe == k);
      FilterNarrower(t.recipeIngredients, (x: RecipeIngredient) => x.recipe != id,
                     (x: RecipeIngredient) => x.recipe == k);
    }
  }

  /** Updating with validated data keeps the database consistent. */
  lemma UpdateKeepsConsistent(t: Tables, id: RecipeId, data: RecipeData)
    requires Consistent(t) && id in t.recipes && ValidData(t, data)
    ensures Consistent(UpdateResult(t, id, data))
  {
    var r := UpdateResult(t, id, data);
    var kept := Filter(t.recipeIngredients, (x: RecipeIngredient) => x.recipe != id);
    var rows := LinesToRows(id, data.ingredients);
    assert RecipeIngredientsWellFormed(r) by {
      forall i | 0 <= i < |r.recipeIngredients|
        ensures r.recipeIngredients[i].recipe in r.recipes
        ensures r.recipeIngredients[i].ingredient in r.ingredients && r.recipeIngredients[i].amount >= 1
      {
        if i < |kept| {
          assert r.recipeIngredients[i] in kept;
        } else {
          assert r.recipeIngredients[i] == rows[i - |kept|];
        }
      }
    }
  }

  /** A PATCH keeps every scalar field it leaves out and stores the sent ones,
      text fields trimmed. */
  lemma PartialUpdateKeepsOmitted(t: Tables, id: RecipeId, input: RecipeInput)
    requires id in t.recipes && ValidateRecipe(t, input, true).Ok?
    ensures var r := UpdateResult(t, id, ValidateRecipe(t, input, true).value); var row := r.recipes[id];
      && (input.name.None? ==> row.name == t.recipes[id].name)
      && (input.name.Some? ==> row.name == Strip(input.name.value))
      && (input.text.None? ==> row.text == t.recipes[id].text)
      && (input.text.Some? ==> row.text == Strip(input.text.value))
      && (input.image.None? ==> row.image == t.recipes[id].image)
      && (input.cookingTime.None? ==> row.cookingTime == t.recipes[id].cookingTime)
      && (input.cookingTime.Some? ==> row.cookingTime == input.cookingTime.value)
  {
    var d := ValidateRecipe(t, input, true).value;
    ValidatedData(t, input, true);
    UpdateReplaces(t, id, d);
  }

  /** `add_ingredient_tag`: links every tag, one at a time, then inserts the
      junction rows in one batch. */
  method AddIngredientTag(store: Store, lines: seq<IngredientLine>, tags: seq<TagId>, recipe: RecipeId)
    modifies store
    ensures store.State() == old(store.State()).(
              recipeTags := old(store.recipeTags) + TagLinks(recipe, tags),
              recipeIngredients := old(store.recipeIngredients) + LinesToRows(recipe, lines))
  {
    for i := 0 to |tags|
      invariant store.State() == old(store.State()).(
                  recipeTags := old(store.recipeTags) + TagLinks(recipe, tags[..i]))
    {
      store.AddTag(recipe, tags[i]);
      assert TagLinks(recipe, tags[..i + 1]) == TagLinks(recipe, tags[..i]) + {RecipeTag(recipe, tags[i])} by {
        assert tags[..i + 1] == tags[..i] + [tags[i]];
      }
    }
    assert tags[..|tags|] == tags;
    store.BulkCreate(LinesToRows(recipe, lines));
  }

  /** `create` (with the author `perform_create` supplies). */
  method CreateRecipe(store: Store, data: RecipeData, author: UserId, pubDate: int) returns (id: RecipeId)
    requires Complete(data)
    modifies store
    ensures id == old(store.nextRecipeId)
    ensures store.State() == CreateResult(old(store.State()), data, author, pubDate)
  {
    id := store.InsertRecipe(NewRecipe(0, data, author, pubDate));
    AddIngredientTag(store, data.ingredients, data.tags, id);
  }

  /** `update`: clear both sets, save the scalar fields, add the new sets. */
  method UpdateRecipe(store: Store, id: RecipeId, data: RecipeData)
    requires id in store.recipes
    modifies store
    ensures store.State() == UpdateResult(old(store.State()), id, data)
  {
    store.ClearIngredients(id);
    store.ClearTags(id);
    var before := store.recipes[id];
    store.SaveRecipe(id, UpdatedRow(before, data));
    AddIngredientTag(store, data.ingredients, data.tags, id);
  }

  // ----- relation validators -----

  /** The outcome of a serializer's `validate`: pass, a 400 with a message, or
      an exception. */
  datatype Check = Pass | Reject(error: ApiError) | Raise

  /** `ShoppingCartSerializer.validate` / `FavoriteSerializer.validate`: the
      pair must not be stored yet. */
  function ValidateNewPair(t: Tables, rel: Relation, user: UserId, recipe: RecipeId): (r: Check)
    ensures r == Pass <==> UserRecipe(user, recipe) !in Pairs(t, rel)
    ensures r != Pass ==> r == Reject(if rel == Favorites then AlreadyFavorited else AlreadyInCart)
  {
    if UserRecipe(user, recipe) in Pairs(t, rel) then
      Reject(if rel == Favorites then AlreadyFavorited else AlreadyInCart)
    else Pass
  }

  /** A value in `initial_data`: a plain integer, or a model instance with a
      primary key. */
  datatype PyValue = PyInt(n: int) | PyInstance(pk: int)

  /** `value.pk`; `None` stands for the AttributeError an integer raises. */
  function AttrPk(v: PyValue): Option<int> {
    match v
    case PyInt(_) => None
    case PyInstance(pk) => Some(pk)
  }

  /** `FollowSerializer.validate` as written: it reads `.pk` from
      `initial_data['following']`, and then checks self-follow before the
      duplicate follow. */
  function FollowValidateAsWritten(t: Tables, user: UserId, following: PyValue): (r: Check)
    ensures following.PyInt? ==> r == Raise
    ensures following.PyInstance? ==> r == FollowValidate(t, user, following.pk)
  {
    match AttrPk(following)
    case None => Raise
    case Some(pk) => FollowValidate(t, user, pk)
  }

  /** The intended check on the followed user's id: following yourself is
      refused before the duplicate check, and a new pair passes. */
  function FollowValidate(t: Tables, user: UserId, following: UserId): (r: Check)
    ensures r != Raise
    ensures user == following ==> r == Reject(SelfFollow)
    ensures r == Pass <==> user != following && Follow(user, following) !in t.follows
    ensures r == Reject(AlreadyFollowing) <==> user != following && Follow(user, following) in t.follows
  {
    if user == following then Reject(SelfFollow)
    else if Follow(user, following) in t.follows then Reject(AlreadyFollowing)
    else Pass
  }

  // ----- read fields -----

  /** The signed-in user of the serializer context, or none for a missing
      request or user or an anonymous one: the look-up
      `get_request_or_user(context, True)` performs. */
  function CurrentUser(ctx: Context): (u: Option<User>)
    ensures u.Some? <==> HasSignedInUser(ctx)
    ensures u.Some? ==> GetRequestOrUser(ctx, true) == UserValue(u.value)
  {
    match GetRequestOrUser(ctx, true)
    case UserValue(user) => Some(user)
    case _ => None
  }

  /** `get_is_favorited`: false without a signed-in user, else whether the
      pair is stored. */
  function IsFavorited(t: Tables, ctx: Context, recipe: RecipeId): (r: bool)
    ensures !HasSignedInUser(ctx) ==> !r
    ensures HasSignedInUser(ctx) ==> (r <==> UserRecipe(CurrentUser(ctx).value.id, recipe) in t.favorites)
  {
    match CurrentUser(ctx)
    case None => false
    case Some(user) => UserRecipe(user.id, recipe) in t.favorites
  }

  /** `get_is_in_shopping_cart` */
  function IsInShoppingCart(t: Tables, ctx: Context, recipe: RecipeId): (r: bool)
    ensures !HasSignedInUser(ctx) ==> !r
    ensures HasSignedInUser(ctx) ==> (r <==> UserRecipe(CurrentUser(ctx).value.id, recipe) in t.cart)
  {
    match CurrentUser(ctx)
    case None => false
    case Some(user) => UserRecipe(user.id, recipe) in t.cart
  }

  /** `CustomUserReadSerializer.get_is_subscribed` */
  function IsSubscribed(t: Tables, ctx: Context, author: UserId): (r: bool)
    ensures !HasSignedInUser(ctx) ==> !r
    ensures HasSignedInUser(ctx) ==> (r <==> Follow(CurrentUser(ctx).value.id, author) in t.follows)
  {
    match CurrentUser(ctx)
    case None => false
    case Some(user) => Follow(user.id, author) in t.follows
  }

  /** The ids of an author's recipes, in ascending order. */
  function AuthorRecipes(t: Tables, author: UserId): (r: seq<RecipeId>)
    ensures forall k :: k in r <==> k in t.recipes && t.recipes[k].author == author
  {
    Filter(AscendingInts(t.recipes.Keys), (k: RecipeId) => k in t.recipes && t.recipes[k].author == author)
  }

  /** `UserRecipeSerializer.get_recipes`: the author's recipes, cut to the first
      `recipes_limit` only when that parameter is all digits. */
  function GetRecipes(t: Tables, author: UserId, recipesLimit: Option<string>): (r: seq<RecipeId>)
    ensures var all := AuthorRecipes(t, author);
      && |r| <= |all| && r == all[..|r|]
      && (recipesLimit.Some? && IsDigits(recipesLimit.value) ==>
            |r| == if ParseNat(recipesLimit.value) < |all| then ParseNat(recipesLimit.value) else |all|)
      && (recipesLimit.None? || !IsDigits(recipesLimit.value) ==> r == all)
  {
    var all := AuthorRecipes(t, author);
    if recipesLimit.Some? && IsDigits(recipesLimit.value) then
      var n := ParseNat(recipesLimit.value);
      if n < |all| then all[..n] else all
    else all
  }
}
