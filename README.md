# Foodgram recipe store, modelled in Dafny

Foodgram is a recipe-sharing backend built on Django and Django REST Framework.
Users publish recipes made of ingredient lines (an ingredient and an amount) and
tags. They mark recipes as favorites, put them in a shopping cart and subscribe
to authors. They download a shopping list that adds up the ingredients of every
recipe in their cart, and they get a short link for a recipe.

This project models the core of that backend:

- the database as one value, `Store.Tables`, with the integrity its unique
  constraints and foreign keys keep (`Store.Consistent`) and the cascading deletes;
- `Store.Store`, a class with one field per table, whose methods are the row
  writes the serializers and views issue;
- recipe validation, creation and update (`Serializers`);
- the favorite, cart and follow toggles, the shopping-list download, the short
  links and the newest-first listing (`Views`, `ShoppingList`);
- the listing filters (`Filters`), the permission class (`Permissions`), and the
  image-header and context helpers (`Utils`).

Every view that writes is a function from the tables before the request to the
tables after it and the answer (`Views.Outcome`). A method with the same name,
without the `Result` suffix, performs those writes on a `Store.Store` and is
proved to match the function. Lemmas state what the source promises about these
functions: invariants kept, round trips, idempotence, ordering, and which error
comes first.

Files: `wrappers.dfy` (Option, Result), `text.dfy` (Python string operations:
split, join, strip, lower, digits), `sorting.dfy` (a stable sort and ascending
key listings), `users_models.dfy`, `recipes_models.dfy`, `requests.dfy`,
`responses.dfy`, `permissions.dfy`, `utils.dfy`, `store.dfy`, `serializers.dfy`,
`filters.dfy`, `shopping_list.dfy`, `views.dfy`.

## Model

| member | source | states |
|---|---|---|
| UserModels.UserStr | backend/users/models.py:34-35 | the string form starts with first name, space, last name, ` (` and ends with `)` |
| UserModels.UserStrShowsEmail | backend/users/models.py:34-35 | the e-mail address is the text after the last `(` of the string form, minus the `)` |
| UserModels.FollowStr | backend/users/models.py:60-61 | a Follow prints as the follower's string form, a space, then the author's string form |
| UserModels.UserPrecedesIsTotalPreorder | backend/users/models.py:32 | ordering by last name and then first name is total and transitive |
| UserModels.OrderUsers | backend/users/models.py:32 | a user listing is a permutation of the users, sorted by (last name, first name) |
| RecipeModels.FloatRepr | backend/recipes/models.py:97-99 | a whole amount read back from the float column prints as its digits and `.0`, with no space or newline, and with a `-` only when negative |
| RecipeModels.FloatReprReadsBack | backend/recipes/models.py:97-99 | the digits before `.0` parse back to the amount |
| RecipeModels.AmountWithUnit | backend/recipes/models.py:109-110 | the text starts with the printed amount followed by a space |
| RecipeModels.AmountWithUnitReadsBack | backend/recipes/models.py:109-110 | the text before the first space is the printed amount, and it parses back to the amount |
| RecipeModels.TokenPrefix | backend/recipes/models.py:185 | a generated code has at most three characters, is a prefix of the token, and has exactly three when the token does |
| RecipeModels.ShortLinkSave | backend/recipes/models.py:182-186 | `save` fills an empty code from the token and never replaces a code already set; the URL is kept |
| Utils.Base64ToInternalValue | backend/api/utils.py:11-18 | a non-string or a string not starting with `data:image` passes through; a data URL is accepted exactly when `;base64,` occurs once; the file name is `temp.` plus a text with no `/` |
| Utils.DataImageDecomposes | backend/api/utils.py:13-16 | an accepted data URL is a header starting with `data:image`, the marker and the payload; the name is `temp.` plus the header's text after its last `/` |
| Utils.GetRequestOrUser | backend/api/utils.py:21-30 | no request gives none; a false `value` gives the request; otherwise the signed-in user, or none for a missing or anonymous user |
| Utils.GetRequestAttribute | backend/api/utils.py:33-45 | `'user'` behaves as the user look-up; any other name gives that query parameter, or none when it is missing or empty |
| Permissions.HasPermission | backend/api/permissions.py:15-18 | safe methods always pass; a signed-in user passes whatever the method; for an anonymous user a write never passes |
| Permissions.HasObjectPermission | backend/api/permissions.py:20-30 | safe methods pass; a signed-in superuser always passes; a signed-in other user writes exactly when they are the object's author; an anonymous writer never passes; passing implies the view-level check |
| Store.WithoutRecipe | backend/recipes/models.py:86-160 | deleting a recipe removes exactly its ingredient rows, tag links, favorites and cart rows; every other table is unchanged |
| Store.WithoutRecipeConsistent | backend/recipes/models.py:86-160 | the recipe cascade leaves a consistent database consistent |
| Store.WithoutUser | backend/users/models.py:38-48 | deleting a user removes them, their recipes with those recipes' rows, their favorites and cart rows, and every Follow in which they are either side |
| Store.WithoutUserConsistent | backend/users/models.py:38-48 | the user cascade leaves a consistent database consistent |
| Store.RemoveRowCount | backend/api/views.py:203 | in a table without duplicate rows, a delete by value removes one row when the row is there and none otherwise |
| Store.Store.InsertPair | backend/api/views.py:192 | a favorite or cart row is appended to its own table only |
| Store.Store.DeletePair | backend/api/views.py:199-203 | the pair's rows are removed from its table only, and the count returned is the number removed |
| Store.Store.InsertFollow | backend/api/views.py:113 | a Follow row is appended |
| Store.Store.DeleteFollow | backend/api/views.py:121-127 | the Follow rows of the pair are removed, and the count returned is the number removed |
| Store.Store.InsertRecipe | backend/api/serializers.py:232 | the recipe is stored under the next primary key, which is returned |
| Store.Store.SaveRecipe | backend/api/serializers.py:241 | the recipe row under the given key is overwritten |
| Store.Store.AddTag | backend/api/serializers.py:218 | the tag link is added to the set of links |
| Store.Store.BulkCreate | backend/api/serializers.py:220-226 | the rows are appended in order |
| Store.Store.ClearIngredients | backend/api/serializers.py:236 | every ingredient row of the recipe is removed, and no other row |
| Store.Store.ClearTags | backend/api/serializers.py:237 | every tag link of the recipe is removed, and no other link |
| Store.Store.SaveShortLink | backend/recipes/models.py:182-186 | the filled-in row is appended unless its code or its URL is already stored, in which case nothing is written |
| Store.Store.DeleteRecipe | backend/recipes/models.py:86-160 | the database after the delete is the recipe cascade of the one before |
| Serializers.Ids | backend/api/serializers.py:179 | the id list has one id per line, in order |
| Serializers.SetSizeDetectsDuplicates | backend/api/serializers.py:181 | `len(set(ids)) == len(ids)` holds exactly when no id repeats |
| Serializers.CountDetectsUnknown | backend/api/serializers.py:187 | for ids without repeats, the count of known ids equals the list length exactly when every id is known |
| Serializers.IngredientLinesProblem | backend/api/serializers.py:178-192 | lines pass exactly when every amount is at least 1, no id repeats and every id names an ingredient; a repeat is reported before an unknown id |
| Serializers.FirstUnknown | backend/api/serializers.py:160-162 | none exactly when every tag id is known; otherwise the first unknown id in the list |
| Serializers.TagIdsProblem | backend/api/serializers.py:194-198 | tags pass exactly when all are known and none repeats; an unknown tag is named; with all known, a repeat is reported |
| Serializers.TextProblem | backend/recipes/models.py:52 | a text passes exactly when it is not blank after trimming, fits the maximum length and holds no NUL character |
| Serializers.NullCharacterRefused | backend/recipes/models.py:52 | a name or text containing a NUL character is always refused |
| Serializers.DecodeImage | backend/api/serializers.py:169 | the image conversion runs only on an image that was sent, and fails exactly when its header split fails |
| Serializers.ValidateRecipe | backend/api/serializers.py:156-213 | validation raises (a server error) exactly when an image was sent and its header split fails |
| Serializers.ValidateRecipeAcceptsExactly | backend/api/serializers.py:200-213 | a body is accepted exactly when both lists are present and non-empty, the lists pass their checks, and each of image, name, text and cooking time is sound (a file; not blank, within length and free of NUL; at least 1) or left out of a partial update |
| Serializers.AcceptedShape | backend/api/serializers.py:200-213 | `validate` runs only without field errors, and then refuses a missing or empty ingredient list or tag list |
| Serializers.ListsPass | backend/api/serializers.py:178-198 | the ingredient and tag checks pass exactly on lists with known ids, no repeats and amounts at least 1 |
| Serializers.FieldErrorsEmpty | backend/api/serializers.py:156-176 | there is no field error exactly when every field passes its own check, and a missing field is allowed only for a partial update |
| Serializers.PresentErrorsEmpty | backend/api/serializers.py:156-176 | a declared field adds no error exactly when it passes its check or is left out of a partial update |
| Serializers.MissingScalarField | backend/api/serializers.py:163-176 | a full write that leaves out the image, name, text or cooking time is refused with that field reported as required |
| Serializers.ValidatedData | backend/api/serializers.py:178-213 | accepted data carries the input lists and cooking time, the trimmed name and text, an image exactly when one was sent, satisfies every write precondition, and is complete on a full write |
| Serializers.MissingIngredients | backend/api/serializers.py:200-206 | a full update without ingredients reports the field as required; a partial one reaches `validate`, which reports no ingredients |
| Serializers.LinesToRows | backend/api/serializers.py:220-226 | one junction row per line, in order, with that line's ingredient and amount |
| Serializers.TagLinks | backend/api/serializers.py:217-218 | the links are exactly the recipe paired with each tag of the list |
| Serializers.CreateRecipeContents | backend/api/serializers.py:229-233 | after `create` the new recipe has exactly one row per input line and exactly the input tags, its author is the requester, and no other recipe's rows or tags change |
| Serializers.CreateKeepsConsistent | backend/api/serializers.py:229-233 | creating from validated data keeps the database consistent |
| Serializers.UpdateReplaces | backend/api/serializers.py:235-242 | after `update` the recipe's rows and tags are exactly the new ones, never a union with the old; each scalar field takes the sent value or keeps its stored one; author, date and the set of recipes are unchanged; other recipes are untouched |
| Serializers.PartialUpdateKeepsOmitted | backend/api/serializers.py:235-242 | a PATCH keeps every scalar field it leaves out and stores the sent ones, text fields trimmed |
| Serializers.UpdateKeepsConsistent | backend/api/serializers.py:235-242 | updating with validated data keeps the database consistent |
| Serializers.AddIngredientTag | backend/api/serializers.py:215-227 | the loop adds every tag link, then the rows are bulk-created; nothing else changes |
| Serializers.CreateRecipe | backend/api/serializers.py:229-233 | the store after `create` is the create result, and the new id is the next key |
| Serializers.UpdateRecipe | backend/api/serializers.py:235-242 | the store after `update` is the update result |
| Serializers.ValidateNewPair | backend/api/serializers.py:256-265 | a favorite or cart addition passes exactly when the pair is not stored, and is otherwise refused with the table's own message |
| Serializers.FollowValidateAsWritten | backend/api/serializers.py:325-340 | reading `.pk` from an integer raises; from an instance the intended check runs |
| Serializers.FollowValidate | backend/api/serializers.py:325-340 | following yourself is refused first; then an existing follow is refused; a new pair passes |
| Serializers.CurrentUser | backend/api/serializers.py:47-49 | a user exactly when the context holds a signed-in user, and then the one the user look-up returns |
| Serializers.IsFavorited | backend/api/serializers.py:102-109 | false without a signed-in user; otherwise whether the (user, recipe) favorite is stored |
| Serializers.IsInShoppingCart | backend/api/serializers.py:111-116 | false without a signed-in user; otherwise whether the (user, recipe) cart row is stored |
| Serializers.IsSubscribed | backend/api/serializers.py:45-50 | false without a signed-in user; otherwise whether the user follows the author |
| Serializers.AuthorRecipes | backend/api/serializers.py:302 | exactly the author's recipes |
| Serializers.GetRecipes | backend/api/serializers.py:301-308 | a prefix of the author's recipes; cut to `recipes_limit` only when it is all digits, and whole otherwise |
| Filters.ByAuthor | backend/api/filters.py:11 | no value keeps everything; a value keeps exactly the recipes by that author id |
| Filters.ByRelation | backend/api/filters.py:28-36 | only a true flag from a signed-in requester narrows the recipes, to exactly those favorited (or in the cart) by the requester; otherwise nothing is removed |
| Filters.ByTags | backend/api/filters.py:15-19 | an unknown slug makes the query invalid; no slugs keep everything; otherwise exactly the recipes with at least one of the tags |
| Filters.ApplyRecipeFilter | backend/api/filters.py:8-36 | the query is refused exactly when some slug names no tag |
| Filters.ApplyRecipeFilterMatches | backend/api/filters.py:8-36 | the result is exactly the input recipes meeting every given condition, and keeps the input order |
| Filters.FilterKeepsOrder | backend/api/filters.py:28-36 | filtering keeps a sorted listing sorted |
| Filters.IngredientNameFilter | backend/api/filters.py:42 | an empty or missing name keeps everything; otherwise exactly the ingredients whose name starts with it, ignoring case |
| Filters.IngredientNameFilterFindsExactPrefix | backend/api/filters.py:42 | an ingredient whose name starts with the text in the same case is always found |
| ShoppingList.CartRows | backend/api/views.py:235-236 | exactly the ingredient rows of recipes in the user's cart whose ingredient exists |
| ShoppingList.AddEntryFacts | backend/api/views.py:237-238 | adding a row to groups with distinct keys keeps keys distinct, adds its key and adds its amount to its key's sum only |
| ShoppingList.AggregateFacts | backend/api/views.py:235-239 | the groups have distinct keys, exactly the rows' keys, and each key sums to the same total as the rows |
| ShoppingList.SumForDistinct | backend/api/views.py:238 | among groups with distinct keys, the sum under a group's key is its amount |
| ShoppingList.ShoppingListTotals | backend/api/views.py:235-239 | one group per distinct (name, unit), each group's amount is the sum of the rows under its key, and no groups exactly when no rows |
| ShoppingList.SumForPositive | backend/api/views.py:238 | with amounts of at least one, every present key sums to at least one |
| ShoppingList.CartTotalsPositive | backend/api/views.py:235-244 | in a consistent database every total is at least one, and the list is empty exactly when no recipe in the cart has a row |
| ShoppingList.TwoDigits | backend/api/views.py:249 | a month or day prints as two digits that read back as the number |
| ShoppingList.DateTextReadsBack | backend/api/views.py:249 | year, month and day read back from the printed date |
| ShoppingList.ItemLines | backend/api/views.py:251-256 | one line per group |
| ShoppingList.ItemLineShowsGroup | backend/api/views.py:252-254 | a line starts with `- name (unit) - ` and its last word is the printed amount, which reads back as the amount |
| ShoppingList.DocumentIsJoin | backend/api/views.py:247-257 | the document is its header, blank, date, blank, item lines, blank and footer lines joined by newlines |
| ShoppingList.ShoppingListLines | backend/api/views.py:247-257 | with no newline in names, units or the user's name, splitting the document on newlines gives exactly those lines |
| Views.AllRecipes | backend/api/views.py:158 | the unfiltered queryset holds every stored recipe, each exactly once |
| Views.NewestFirst | backend/api/views.py:164-168 | every stored recipe exactly once, sorted by publication date, newest first |
| Views.AscendingCard | backend/api/views.py:164-168 | the key listing behind the recipe listing has one entry per recipe |
| Views.ListRecipes | backend/api/views.py:155-168 | the listing is refused exactly when some tag slug names no tag |
| Views.ListRecipesNewestFirst | backend/api/views.py:155-168 | the listing holds exactly the stored recipes matching the query, newest first |
| Views.AddModelResult | backend/api/views.py:180-193 | anonymous is 401; an unknown recipe is 404; a stored pair is 400 with the table's message; otherwise the pair is appended and 201; nothing changes unless 201 |
| Views.AddModel | backend/api/views.py:180-193 | the store and answer are those of the add result |
| Views.DeleteModelResult | backend/api/views.py:195-209 | anonymous is 401; an unknown recipe is 404; an absent pair is 400 and nothing changes; otherwise the pair's rows are removed and 204 |
| Views.DeleteModel | backend/api/views.py:195-209 | the store and answer are those of the delete result |
| Views.AddModelKeepsConsistent | backend/recipes/models.py:129-135 | adding a favorite or cart row keeps the database consistent, so the pair stays unique |
| Views.AddModelTwice | backend/api/serializers.py:256-265 | adding the same pair again is refused and writes nothing |
| Views.AddThenDelete | backend/api/views.py:195-209 | adding a pair and then deleting it answers 204 and restores every table |
| Views.DeleteModelRemovesOne | backend/api/views.py:199-209 | deleting a stored pair removes exactly one row, keeps every other row and keeps the database consistent |
| Views.PostSubscribeAsWritten | backend/api/views.py:102-114 | nothing is ever written; anonymous is 401 and an unknown user is 404 |
| Views.PostSubscribeAlwaysFails | backend/api/views.py:102-114 | no request subscribes: a signed-in user following an existing user always gets a server error |
| Views.PostSubscribeResult | backend/api/views.py:102-114 | anonymous is 401; an unknown user is 404; self-follow and an existing follow are 400 in that order; otherwise the Follow is appended and 201 |
| Views.PostSubscribe | backend/api/views.py:102-114 | the store and answer are those of the intended subscription |
| Views.DeleteSubscribeResult | backend/api/views.py:116-131 | anonymous is 401; an unknown user is 404; no subscription is 400; otherwise the Follow is removed and 204; the deletion-failed answer is never given |
| Views.DeleteSubscribe | backend/api/views.py:116-131 | the store and answer are those of the unsubscribe result |
| Views.PostSubscribeKeepsConsistent | backend/users/models.py:50-56 | subscribing keeps the database consistent, so a follow pair stays unique |
| Views.SubscribeThenUnsubscribe | backend/api/views.py:116-131 | subscribing and then unsubscribing answers 204 and restores every table |
| Views.DownloadShoppingCart | backend/api/views.py:231-263 | anonymous raises; an empty list gives the empty-list text; otherwise the document of the aggregated groups, attached as `{username}_shopping_list.txt` |
| Views.FindByUrl | backend/api/views.py:291-294 | none exactly when no stored link has the URL; otherwise a stored link with that URL |
| Views.FindByCode | backend/api/views.py:304-306 | none exactly when no stored link has the code; otherwise a stored link with that code |
| Views.GetLinkResult | backend/api/views.py:283-300 | an unknown recipe is 404; a URL already stored returns its link and writes nothing; a new URL whose token code is free gets a new row with that code and a 200; the answer is a server error exactly when the URL is new and the code is taken |
| Views.GetLink | backend/api/views.py:283-300 | the store and answer are those of the get-or-create result |
| Views.RetrieveByShortLink | backend/api/views.py:302-307 | 404 exactly when no link has the code; otherwise a redirect to a URL stored under that code |
| Views.GetLinkIdempotent | backend/api/views.py:291-294 | asking again for the same URL returns the same link and writes nothing, whatever token is drawn |
| Views.FindByUrlAppended | backend/api/views.py:291-294 | a row appended for a URL not stored before is the one found for it |
| Views.GetLinkKeepsWellFormed | backend/recipes/models.py:165-173 | codes stay at most three characters and unique, and URLs stay unique |
| Views.FindByCodeUnique | backend/recipes/models.py:167 | with unique codes, a stored code finds its own row |
| Views.GetLinkThenRetrieve | backend/api/views.py:283-307 | the code handed out redirects to the URL it was made for |

## Left out

- Django, DRF and djoser machinery (querysets, serializer classes, routing,
  status codes, response bodies) is replaced by the tables, the `Response`
  datatype and plain functions. A response body keeps only an id or a code. The
  body of a new favorite or cart row names the recipe whose fields it shows; the
  source's `id` field there is the key of the new favorite or cart row, which the
  model does not track.
- Image decoding and storage: `base64.b64decode`, Pillow's image check and the
  file storage are not modelled. A payload that is not valid base64 raises in the
  source and is not distinguished here; only an empty payload is refused.
- The clock and the `uuid4` generator are parameters (`today`, `token`).
- `RecipeIngredient.amount` is a float column. Amounts are integers here, because
  input is validated as an integer of at least 1; float summation is not modelled.
- `RecipeModels.FloatRepr`: prints every amount as its digits and `.0`. Python's
  `repr` of a float switches to exponent form from 10^16 on (`1e+16`), and above
  2^53 the stored float is no longer the integer. `amount` has no upper bound, so
  such amounts are accepted in the source. The model states the `n.0` form for
  every amount, which matches the source only below 10^16; `AmountWithUnit` and
  the shopping-list lines inherit that bound.
- Concurrency: the duplicate checks race with their inserts, and create and update
  run without a transaction. Each request is modelled as running alone.
- Pagination, the admin, migrations, the CSV import command and the
  commented-out `backend/users/serializers.py` are not part of this model.
- The avatar, `me` and subscription-list views are not part of this model.
- `RecipeIngredient.__str__` reads an attribute the ingredient does not have, so it
  always raises; it is not modelled.
- `backend/api/serializers.py:13` imports `get_request_user`, which
  `backend/api/utils.py` does not define, so the module fails to import as written.
  The read fields use the user look-up `get_request_or_user(context, True)`
  instead (`Serializers.CurrentUser`).
- `Views.ListRecipes`: query-string parsing is not modelled. `RecipeQuery` holds
  values already converted, so a non-numeric `author` (a 400 in the source) cannot
  be expressed.
- `Filters.IngredientNameFilter`: `IngredientViewSet` does not attach this
  filter class; it searches with `SearchFilter` on `^name`, which also splits the
  search text into terms. The filter class is modelled as declared, with one term.
  Case is folded by `Text.Lower`, which maps only ASCII and basic Cyrillic
  letters; the database's `istartswith` applies its full case folding.
- `Serializers.TextProblem`: reports one problem per text field. When a trimmed
  value is both too long and holds a NUL character, DRF reports both messages;
  the model reports only `TooLong`. Whether the field is refused is the same.
- `ShoppingList.Aggregate`: SQL leaves the order of the groups unspecified. The
  model lists them in the order their keys first occur.
- `UserModels.OrderUsers`: names are compared by code point (`LexLe`). The
  database orders `last_name` and `first_name` by its collation, which may differ
  from code-point order (a locale collation can put `b` before `C`).
- `Views.AllRecipes`: `Recipe.Meta` declares no ordering, so the database picks
  the order of an unordered recipe queryset. The model lists recipes in ascending
  key order, and recipes with the same `pub_date` in the newest-first listing stay
  in that order.
- `Serializers.AuthorRecipes`: lists the author's recipes in ascending key order,
  where the source takes the order the database picks.
- `Serializers.GetRecipes`: which recipes `recipes_limit` keeps follows the key
  order of `AuthorRecipes`, not an order the source fixes.
- `Views.GetLinkResult`: `get_object` also runs the listing filters on the query
  string, and the answer holds an absolute URL built from the code. Neither is
  modelled: the recipe only has to exist, and the answer holds the code.
- `Views.RetrieveByShortLink`: `redirect` of a stored text that does not look like
  a URL tries to resolve it as a view name; this is not modelled.
- Length limits that only the database enforces (`original_url` 256, ingredient
  name 64, and others) and the `SmallIntegerField` bound on cooking time are not
  modelled.
- Primary keys in URLs are integers here. A non-numeric key, which makes
  `get_object_or_404` raise, is not modelled.
- `Serializers.GetRecipes`: only ASCII digits count as digits. Python's `isdigit`
  also accepts other Unicode digits.
- `Serializers.RecipeInput`: a field sent as JSON `null` is not distinguished from
  a field left out. DRF answers `null` with a "may not be null" error even on a
  partial update; the model treats it as missing.
- Authentication is assumed to answer an anonymous write with 401, as token
  authentication does, rather than 403.
- The recipe create, update and destroy views are modelled at the serializer and
  store level (`Serializers.CreateRecipe`, `Serializers.UpdateRecipe`,
  `Store.Store.DeleteRecipe`), not as separate view flows.

## Findings

| source | as written | input that shows it | evidently intended | confidence | as-written member | corrected member |
|---|---|---|---|---|---|---|
| backend/api/serializers.py:327 | `validate` reads `.pk` from `initial_data['following']`, which `post_subscribe` fills with the integer id (backend/api/views.py:105-109); an integer has no `.pk`, so validation raises. A passing `validate` would still be followed by `save()` without `user` or `following`, both read-only. | signed-in user 1 sends POST to subscribe to existing user 2 | check the followed id itself, refuse self-follow and then a duplicate, store `Follow(user, following)` and answer 201 | not executed | `Serializers.FollowValidateAsWritten`, `Views.PostSubscribeAsWritten`, `Views.PostSubscribeAlwaysFails` | `Serializers.FollowValidate`, `Views.PostSubscribeResult`, `Views.PostSubscribe` |
