/** backend/api/views.py: the recipe listing order, adding and removing a
    favorite or a cart item, subscribing and unsubscribing, the shopping-list
    download, and the short links of recipes. Each view that writes is a
    function from the tables before the request to the tables after it and the
    answer, and a method that performs the same writes on a `Store`. */
module Views {
  import opened Wrappers
  import opened Text
  import opened Sorting
  import opened UserModels
  import opened RecipeModels
  import opened Requests
  import opened Responses
  import opened Permissions
  import opened Store
  import opened Serializers
  import opened Filters
  import opened ShoppingList

  /** What a request leaves behind: the tables after it and the answer. */
  datatype Outcome = Outcome(tables: Tables, response: Response)

  // ----- get_queryset -----

  /** `order_by('-pub_date')`: `a` may come before `b`. */
  predicate NewerOrSame(a: Recipe, b: Recipe) {
    a.pubDate >= b.pubDate
  }

  lemma NewerOrSameIsTotalPreorder()
    ensures TotalPreorder(NewerOrSame)
  {
  }

  /** `Recipe.objects.all()`: every stored recipe once, in key order. */
  function AllRecipes(t: Tables): (all: seq<Recipe>)
    ensures forall x :: x in all <==> x in t.recipes.Values
    ensures |all| == |t.recipes|
  {
    var ks := AscendingInts(t.recipes.Keys);
    AscendingCard(t.recipes.Keys);
    assert forall i :: 0 <= i < |ks| ==> ks[i] in ks;
    var all := RowsAt(t.recipes, ks);
    RowsAreValues(t.recipes, ks, all);
    all
  }

  /** The recipes stored under the keys, in the order of the keys. */
  function RowsAt(m: map<int, Recipe>, ks: seq<int>): (rows: seq<Recipe>)
    requires forall i :: 0 <= i < |ks| ==> ks[i] in m
    ensures |rows| == |ks|
    ensures forall i :: 0 <= i < |ks| ==> rows[i] == m[ks[i]]
  {
    seq(|ks|, i requires 0 <= i < |ks| => m[ks[i]])
  }

  /** The rows looked up under a listing of all keys are the values of the map. */
  lemma {:induction false} RowsAreValues(m: map<int, Recipe>, ks: seq<int>, rows: seq<Recipe>)
    requires forall k :: k in ks <==> k in m
    requires forall i :: 0 <= i < |ks| ==> ks[i] in m
    requires rows == RowsAt(m, ks)
    ensures forall x :: x in rows <==> x in m.Values
  {
    forall k | k in m ensures m[k] in rows {
      var i :| 0 <= i < |ks| && ks[i] == k;
      assert rows[i] == m[k];
    }
    forall i | 0 <= i < |rows| ensures rows[i] in m.Values {
      assert ks[i] in m && rows[i] == m[ks[i]];
    }
  }

  /** `Recipe.objects.all().order_by('-pub_date')`: every stored recipe once,
      newest first. */
  function NewestFirst(t: Tables): (r: seq<Recipe>)
    ensures SortedBy(r, NewerOrSame)
    ensures forall x :: x in r <==> x in t.recipes.Values
    ensures |r| == |t.recipes|
  {
    var all := AllRecipes(t);
    NewerOrSameIsTotalPreorder();
    SortBySorted(all, NewerOrSame);
    SortKeepsElements(all, NewerOrSame);
    SortBy(all, NewerOrSame)
  }

  /** The ascending listing of a set of keys has one entry per key. */
  lemma AscendingCard(s: set<int>)
    ensures |AscendingInts(s)| == |s|
  {
    var r := AscendingInts(s);
    assert forall i, j :: 0 <= i < j < |r| ==> r[i] < r[j];
    DistinctCard(r, s);
  }

  lemma {:induction false} DistinctCard(r: seq<int>, s: set<int>)
    requires forall i, j :: 0 <= i < j < |r| ==> r[i] < r[j]
    requires forall x :: x in r <==> x in s
    ensures |r| == |s|
    decreases |r|
  {
    if r != [] {
      var rest := r[1..];
      assert r[0] !in rest by {
        forall j | 0 <= j < |rest| ensures rest[j] != r[0] {
          assert rest[j] == r[j + 1];
        }
      }
      assert forall i, j :: 0 <= i < j < |rest| ==> rest[i] < rest[j] by {
        forall i, j | 0 <= i < j < |rest| ensures rest[i] < rest[j] {
          assert rest[i] == r[i + 1] && rest[j] == r[j + 1];
        }
      }
      assert forall x :: x in rest <==> x in s - {r[0]} by {
        forall x ensures x in rest <==> x in s - {r[0]} {
          if x in rest {
            var j :| 0 <= j < |rest| && rest[j] == x;
            assert x == r[j + 1];
          }
          if x in s - {r[0]} {
            var j :| 0 <= j < |r| && r[j] == x;
            assert j != 0;
            assert rest[j - 1] == x;
          }
        }
      }
      DistinctCard(rest, s - {r[0]});
    } else {
      assert forall x :: x !in s;
      assert s == {};
    }
  }

  /** The recipe list: the filters applied to the newest-first listing. */
  function ListRecipes(t: Tables, q: RecipeQuery, user: Principal): (r: Result<seq<Recipe>, ApiError>)
    ensures r.Ok? <==> forall s :: s in q.tags ==> IsTagSlug(t, s)
  {
    ApplyRecipeFilter(t, NewestFirst(t), q, user)
  }

  /** The list holds exactly the stored recipes that match the query, newest first. */
  lemma ListRecipesNewestFirst(t: Tables, q: RecipeQuery, user: Principal)
    requires ListRecipes(t, q, user).Ok?
    ensures var r := ListRecipes(t, q, user).value;
      && SortedBy(r, NewerOrSame)
      && forall x :: x in r <==> x in t.recipes.Values && Matches(t, q, user, x)
  {
    ApplyRecipeFilterMatches(t, NewestFirst(t), q, user, NewerOrSame);
  }

  // ----- add_model / delete_model -----

  /** `add_model` behind `favorite` and `shopping_cart`: an anonymous user is
      refused by `has_permission`, an unknown recipe is a 404, a pair already
      stored is a 400, and otherwise the pair is inserted. The view does not
      consult the object permission. */
  function AddModelResult(t: Tables, rel: Relation, user: Principal, pk: RecipeId): (o: Outcome)
    ensures !o.response.Created? ==> o.tables == t
    ensures user.Anonymous? ==> o.response == Unauthorized
    ensures user.Authenticated? && pk !in t.recipes ==> o.response == NotFound
    ensures o.response.Created? <==>
              user.Authenticated? && pk in t.recipes && UserRecipe(user.user.id, pk) !in Pairs(t, rel)
    ensures o.response.Created? ==>
              && o.response.body == ShortRecipeBody(pk)
              && o.tables == WithPairs(t, rel, Pairs(t, rel) + [UserRecipe(user.user.id, pk)])
    ensures user.Authenticated? && pk in t.recipes && UserRecipe(user.user.id, pk) in Pairs(t, rel) ==>
              o.response == BadRequest(if rel == Favorites then AlreadyFavorited else AlreadyInCart)
  {
    if !HasPermission(POST, user) then Outcome(t, Unauthorized)
    else if pk !in t.recipes then Outcome(t, NotFound)
    else
      var row := UserRecipe(user.user.id, pk);
      match ValidateNewPair(t, rel, row.user, pk)
      case Pass => Outcome(WithPairs(t, rel, Pairs(t, rel) + [row]), Created(ShortRecipeBody(pk)))
      case Reject(e) => Outcome(t, BadRequest(e))
      case Raise => Outcome(t, ServerError)
  }

  method AddModel(store: Store, rel: Relation, user: Principal, pk: RecipeId) returns (response: Response)
    modifies store
    ensures Outcome(store.State(), response) == AddModelResult(old(store.State()), rel, user, pk)
  {
    if !HasPermission(POST, user) {
      return Unauthorized;
    }
    if pk !in store.recipes {
      return NotFound;
    }
    var check := ValidateNewPair(store.State(), rel, user.user.id, pk);
    match check {
      case Pass =>
        store.InsertPair(rel, UserRecipe(user.user.id, pk));
        response := Created(ShortRecipeBody(pk));
      case Reject(e) =>
        response := BadRequest(e);
      case Raise =>
        response := ServerError;
    }
  }

  /** `delete_model`: after the same 401 and 404 checks, the rows of the pair
      are deleted; none deleted is a 400, otherwise a 204. */
  function DeleteModelResult(t: Tables, rel: Relation, user: Principal, pk: RecipeId): (o: Outcome)
    ensures o.response != NoContent ==> o.tables == t
    ensures user.Anonymous? ==> o.response == Unauthorized
    ensures user.Authenticated? && pk !in t.recipes ==> o.response == NotFound
    ensures o.response == NoContent <==>
              user.Authenticated? && pk in t.recipes && UserRecipe(user.user.id, pk) in Pairs(t, rel)
    ensures user.Authenticated? && pk in t.recipes && UserRecipe(user.user.id, pk) !in Pairs(t, rel) ==>
              o.response == BadRequest(NotInList)
    ensures o.response == NoContent ==>
              o.tables == WithPairs(t, rel, RemoveRow(Pairs(t, rel), UserRecipe(user.user.id, pk)))
  {
    if !HasPermission(DELETE, user) then Outcome(t, Unauthorized)
    else if pk !in t.recipes then Outcome(t, NotFound)
    else
      var row := UserRecipe(user.user.id, pk);
      var rows := RemoveRow(Pairs(t, rel), row);
      RemoveRowChanges(Pairs(t, rel), row);
      var deleted := |Pairs(t, rel)| - |rows|;
      Outcome(WithPairs(t, rel, rows), if deleted == 0 then BadRequest(NotInList) else NoContent)
  }

  method DeleteModel(store: Store, rel: Relation, user: Principal, pk: RecipeId) returns (response: Response)
    modifies store
    ensures Outcome(store.State(), response) == DeleteModelResult(old(store.State()), rel, user, pk)
  {
    if !HasPermission(DELETE, user) {
      return Unauthorized;
    }
    if pk !in store.recipes {
      return NotFound;
    }
    var deleted := store.DeletePair(rel, UserRecipe(user.user.id, pk));
    response := if deleted == 0 then BadRequest(NotInList) else NoContent;
  }

  /** Adding keeps the database consistent: the pair was absent, so the table
      stays free of duplicates. */
  lemma AddModelKeepsConsistent(t: Tables, rel: Relation, user: Principal, pk: RecipeId)
    requires Consistent(t)
    requires user.Authenticated? ==> user.user.id in t.users
    ensures Consistent(AddModelResult(t, rel, user, pk).tables)
  {
    var o := AddModelResult(t, rel, user, pk);
    if o.response.Created? {
      var row := UserRecipe(user.user.id, pk);
      var rows := Pairs(t, rel) + [row];
      assert PairsWellFormed(rows, o.tables) by {
        forall i, j | 0 <= i < j < |rows| ensures rows[i] != rows[j] {
          if j == |rows| - 1 {
            assert rows[i] in Pairs(t, rel);
          }
        }
      }
    }
  }

  /** Adding the same pair twice: the second request is refused and changes nothing. */
  lemma AddModelTwice(t: Tables, rel: Relation, user: Principal, pk: RecipeId)
    requires AddModelResult(t, rel, user, pk).response.Created?
    ensures var t1 := AddModelResult(t, rel, user, pk).tables;
      AddModelResult(t1, rel, user, pk) ==
        Outcome(t1, BadRequest(if rel == Favorites then AlreadyFavorited else AlreadyInCart))
  {
    var t1 := AddModelResult(t, rel, user, pk).tables;
    assert UserRecipe(user.user.id, pk) in Pairs(t1, rel);
  }

  /** Adding a pair and then deleting it answers 204 and restores every table. */
  lemma AddThenDelete(t: Tables, rel: Relation, user: Principal, pk: RecipeId)
    requires AddModelResult(t, rel, user, pk).response.Created?
    ensures DeleteModelResult(AddModelResult(t, rel, user, pk).tables, rel, user, pk) == Outcome(t, NoContent)
  {
    var row := UserRecipe(user.user.id, pk);
    RemoveAppended(Pairs(t, rel), row);
  }

  /** Deleting a stored pair from a consistent database removes exactly that
      row, keeps the other rows and keeps the database consistent. */
  lemma DeleteModelRemovesOne(t: Tables, rel: Relation, user: Principal, pk: RecipeId)
    requires Consistent(t)
    requires DeleteModelResult(t, rel, user, pk).response == NoContent
    ensures var t1 := DeleteModelResult(t, rel, user, pk).tables;
      && |Pairs(t1, rel)| == |Pairs(t, rel)| - 1
      && (forall x :: x in Pairs(t1, rel) <==> x in Pairs(t, rel) && x != UserRecipe(user.user.id, pk))
      && Consistent(t1)
  {
    var row := UserRecipe(user.user.id, pk);
    var t1 := DeleteModelResult(t, rel, user, pk).tables;
    RemoveRowCount(Pairs(t, rel), row);
    RemoveRowChanges(Pairs(t, rel), row);
    assert PairsWellFormed(Pairs(t1, rel), t1) by {
      forall i | 0 <= i < |Pairs(t1, rel)|
        ensures Pairs(t1, rel)[i].user in t1.users && Pairs(t1, rel)[i].recipe in t1.recipes
      {
        assert Pairs(t1, rel)[i] in Pairs(t, rel);
      }
    }
  }

  // ----- post_subscribe / delete_subscribe -----

  /** `post_subscribe` as written: after the 401 and 404 checks the serializer
      is given the followed user's id as a plain integer, and `validate` reads
      `.pk` from it; even a passing `validate` would be followed by a `save()`
      that passes neither user nor following, which both are read-only. */
  function PostSubscribeAsWritten(t: Tables, user: Principal, id: UserId): (o: Outcome)
    ensures o.tables == t
    ensures user.Anonymous? ==> o.response == Unauthorized
    ensures user.Authenticated? && id !in t.users ==> o.response == NotFound
  {
    if user.Anonymous? then Outcome(t, Unauthorized)
    else if id !in t.users then Outcome(t, NotFound)
    else
      match FollowValidateAsWritten(t, user.user.id, PyInt(id))
      case Pass => Outcome(t, ServerError)
      case Reject(e) => Outcome(t, BadRequest(e))
      case Raise => Outcome(t, ServerError)
  }

  /** No request ever subscribes: a signed-in user asking to follow an existing
      user always gets a server error. */
  lemma PostSubscribeAlwaysFails(t: Tables, user: Principal, id: UserId)
    ensures var o := PostSubscribeAsWritten(t, user, id);
      && o.tables == t
      && !o.response.Created?
      && (user.Authenticated? && id in t.users ==> o.response == ServerError)
  {
  }

  /** The subscription the view evidently intends: the followed user's id is
      checked by the serializer, and a passing check inserts the Follow row. */
  function PostSubscribeResult(t: Tables, user: Principal, id: UserId): (o: Outcome)
    ensures !o.response.Created? ==> o.tables == t
    ensures user.Anonymous? ==> o.response == Unauthorized
    ensures user.Authenticated? && id !in t.users ==> o.response == NotFound
    ensures o.response.Created? <==>
              user.Authenticated? && id in t.users && user.user.id != id && Follow(user.user.id, id) !in t.follows
    ensures o.response.Created? ==>
              o.response.body == AuthorBody(id) && o.tables == t.(follows := t.follows + [Follow(user.user.id, id)])
    ensures user.Authenticated? && id in t.users && user.user.id == id ==> o.response == BadRequest(SelfFollow)
    ensures user.Authenticated? && id in t.users && user.user.id != id && Follow(user.user.id, id) in t.follows ==>
              o.response == BadRequest(AlreadyFollowing)
  {
    if user.Anonymous? then Outcome(t, Unauthorized)
    else if id !in t.users then Outcome(t, NotFound)
    else
      match FollowValidate(t, user.user.id, id)
      case Pass => Outcome(t.(follows := t.follows + [Follow(user.user.id, id)]), Created(AuthorBody(id)))
      case Reject(e) => Outcome(t, BadRequest(e))
      case Raise => Outcome(t, ServerError)
  }

  method PostSubscribe(store: Store, user: Principal, id: UserId) returns (response: Response)
    modifies store
    ensures Outcome(store.State(), response) == PostSubscribeResult(old(store.State()), user, id)
  {
    if user.Anonymous? {
      return Unauthorized;
    }
    if id !in store.users {
      return NotFound;
    }
    var check := FollowValidate(store.State(), user.user.id, id);
    match check {
      case Pass =>
        store.InsertFollow(Follow(user.user.id, id));
        response := Created(AuthorBody(id));
      case Reject(e) =>
        response := BadRequest(e);
      case Raise =>
        response := ServerError;
    }
  }

  /** `delete_subscribe`: after the 401 and 404 checks, no subscription is a
      400; otherwise the Follow rows are deleted and a non-zero count is a 204.
      The "deletion failed" answer is never given. */
  function DeleteSubscribeResult(t: Tables, user: Principal, id: UserId): (o: Outcome)
    ensures o.response != NoContent ==> o.tables == t
    ensures o.response != BadRequest(DeleteFailed)
    ensures user.Anonymous? ==> o.response == Unauthorized
    ensures user.Authenticated? && id !in t.users ==> o.response == NotFound
    ensures o.response == NoContent <==> user.Authenticated? && id in t.users && Follow(user.user.id, id) in t.follows
    ensures user.Authenticated? && id in t.users && Follow(user.user.id, id) !in t.follows ==>
              o.response == BadRequest(NotSubscribed)
    ensures o.response == NoContent ==> o.tables == t.(follows := RemoveRow(t.follows, Follow(user.user.id, id)))
  {
    if user.Anonymous? then Outcome(t, Unauthorized)
    else if id !in t.users then Outcome(t, NotFound)
    else
      var f := Follow(user.user.id, id);
      if f !in t.follows then Outcome(t, BadRequest(NotSubscribed))
      else
        var rows := RemoveRow(t.follows, f);
        RemoveRowChanges(t.follows, f);
        var deleted := |t.follows| - |rows|;
        if deleted > 0 then Outcome(t.(follows := rows), NoContent)
        else Outcome(t, BadRequest(DeleteFailed))
  }

  method DeleteSubscribe(store: Store, user: Principal, id: UserId) returns (response: Response)
    modifies store
    ensures Outcome(store.State(), response) == DeleteSubscribeResult(old(store.State()), user, id)
  {
    if user.Anonymous? {
      return Unauthorized;
    }
    if id !in store.users {
      return NotFound;
    }
    var f := Follow(user.user.id, id);
    if f !in store.follows {
      return BadRequest(NotSubscribed);
    }
    var deleted := store.DeleteFollow(f);
    RemoveRowChanges(old(store.follows), f);
    response := if deleted > 0 then NoContent else BadRequest(DeleteFailed);
  }

  /** Subscribing keeps the database consistent. */
  lemma PostSubscribeKeepsConsistent(t: Tables, user: Principal, id: UserId)
    requires Consistent(t)
    requires user.Authenticated? ==> user.user.id in t.users
    ensures Consistent(PostSubscribeResult(t, user, id).tables)
  {
    var o := PostSubscribeResult(t, user, id);
    if o.response.Created? {
      var f := Follow(user.user.id, id);
      var rows := t.follows + [f];
      assert NoDup(rows) by {
        forall i, j | 0 <= i < j < |rows| ensures rows[i] != rows[j] {
          if j == |rows| - 1 {
            assert rows[i] in t.follows;
          }
        }
      }
    }
  }

  /** Subscribing and then unsubscribing answers 204 and restores every table. */
  lemma SubscribeThenUnsubscribe(t: Tables, user: Principal, id: UserId)
    requires PostSubscribeResult(t, user, id).response.Created?
    ensures DeleteSubscribeResult(PostSubscribeResult(t, user, id).tables, user, id) == Outcome(t, NoContent)
  {
    RemoveAppended(t.follows, Follow(user.user.id, id));
  }

  // ----- download_shopping_cart -----

  /** `download_shopping_cart`: an anonymous requester passes the read-only
      permission but cannot be matched against cart rows, which raises; an
      empty list is a short plain-text answer; otherwise the document is sent
      as an attachment named after the user. */
  method DownloadShoppingCart(store: Store, user: Principal, today: Date) returns (response: Response)
    requires ValidDate(today)
    ensures user.Anonymous? ==> response == ServerError
    ensures user.Authenticated? ==>
              var groups := Aggregate(CartEntries(store.State(), user.user.id));
              && (groups == [] ==> response == TextFile(EmptyListText, None))
              && (groups != [] ==>
                    response == TextFile(ShoppingListText(FullName(user.user), today, groups), Some(FileName(user.user))))
  {
    if user.Anonymous? {
      return ServerError;
    }
    var u := user.user;
    var groups := Aggregate(CartEntries(store.State(), u.id));
    if groups == [] {
      return TextFile(EmptyListText, None);
    }
    var shoppingList := HeaderLine(FullName(u)) + "\n\n" + DateLine(today) + "\n\n";
    shoppingList := shoppingList + Join(ItemLines(groups), "\n");
    shoppingList := shoppingList + "\n\n" + FooterLine(today);
    response := TextFile(shoppingList, Some(FileName(u)));
  }

  // ----- get_link / retrieve_by_short_link -----

  /** The first stored link for `url`: `RecipeShortLink.objects.get(original_url=url)`. */
  function FindByUrl(links: seq<ShortLink>, url: string): (r: Option<ShortLink>)
    ensures r.None? <==> forall i :: 0 <= i < |links| ==> links[i].originalUrl != url
    ensures r.Some? ==> r.value in links && r.value.originalUrl == url
  {
    if links == [] then None
    else if links[0].originalUrl == url then Some(links[0])
    else
      var r := FindByUrl(links[1..], url);
      assert forall i :: 0 < i < |links| ==> links[i] == links[1..][i - 1];
      r
  }

  /** The first stored link with short code `code`. */
  function FindByCode(links: seq<ShortLink>, code: string): (r: Option<ShortLink>)
    ensures r.None? <==> forall i :: 0 <= i < |links| ==> links[i].shortLink != code
    ensures r.Some? ==> r.value in links && r.value.shortLink == code
  {
    if links == [] then None
    else if links[0].shortLink == code then Some(links[0])
    else
      var r := FindByCode(links[1..], code);
      assert forall i :: 0 < i < |links| ==> links[i] == links[1..][i - 1];
      r
  }

  /** `get_link`: the recipe must exist; the URL is the Referer header or else
      the recipe's own address; `get_or_create` returns the stored link for
      that URL, or stores a new one whose code is the first three characters of
      `token` (a fresh `uuid4`), which fails when that code is taken. */
  function GetLinkResult(t: Tables, pk: RecipeId, referer: Option<string>, detailUrl: string, token: string): (o: Outcome)
    ensures pk !in t.recipes ==> o == Outcome(t, NotFound)
    ensures o.response.Success? ==>
              && o.response.body.ShortLinkBody?
              && ShortLink(o.response.body.shortLink, referer.GetOr(detailUrl)) in o.tables.shortLinks
    ensures FindByUrl(t.shortLinks, referer.GetOr(detailUrl)).Some? && pk in t.recipes ==>
              o == Outcome(t, Success(ShortLinkBody(FindByUrl(t.shortLinks, referer.GetOr(detailUrl)).value.shortLink)))
    ensures o.tables == t ||
              o.tables == t.(shortLinks := t.shortLinks + [ShortLink(TokenPrefix(token), referer.GetOr(detailUrl))])
    ensures o.response.Success? || o.response == NotFound || o.response == ServerError
    ensures pk in t.recipes && FindByUrl(t.shortLinks, referer.GetOr(detailUrl)).None? &&
            (forall i :: 0 <= i < |t.shortLinks| ==> t.shortLinks[i].shortLink != TokenPrefix(token)) ==>
              o == Outcome(t.(shortLinks := t.shortLinks + [ShortLink(TokenPrefix(token), referer.GetOr(detailUrl))]),
                           Success(ShortLinkBody(TokenPrefix(token))))
    ensures o.response == ServerError <==>
              && pk in t.recipes
              && FindByUrl(t.shortLinks, referer.GetOr(detailUrl)).None?
              && exists i :: 0 <= i < |t.shortLinks| && t.shortLinks[i].shortLink == TokenPrefix(token)
  {
    if pk !in t.recipes then Outcome(t, NotFound)
    else
      var url := referer.GetOr(detailUrl);
      match FindByUrl(t.shortLinks, url)
      case Some(link) => Outcome(t, Success(ShortLinkBody(link.shortLink)))
      case None =>
        var row := ShortLinkSave(ShortLink(TokenPrefix(token), url), token);
        if exists i :: 0 <= i < |t.shortLinks| && t.shortLinks[i].shortLink == row.shortLink then
          Outcome(t, ServerError)
        else
          Outcome(t.(shortLinks := t.shortLinks + [row]), Success(ShortLinkBody(row.shortLink)))
  }

  method GetLink(store: Store, pk: RecipeId, referer: Option<string>, detailUrl: string, token: string)
    returns (response: Response)
    modifies store
    ensures Outcome(store.State(), response) == GetLinkResult(old(store.State()), pk, referer, detailUrl, token)
  {
    if pk !in store.recipes {
      return NotFound;
    }
    var url := referer.GetOr(detailUrl);
    var existing := FindByUrl(store.shortLinks, url);
    if existing.Some? {
      return Success(ShortLinkBody(existing.value.shortLink));
    }
    var saved := store.SaveShortLink(ShortLink(TokenPrefix(token), url), token);
    response := if saved.None? then ServerError else Success(ShortLinkBody(saved.value.shortLink));
  }

  /** `retrieve_by_short_link`: a redirect to the URL stored under the code, or 404. */
  function RetrieveByShortLink(t: Tables, code: string): (r: Response)
    ensures r == NotFound <==> forall i :: 0 <= i < |t.shortLinks| ==> t.shortLinks[i].shortLink != code
    ensures r != NotFound ==> r.Redirect? && ShortLink(code, r.url) in t.shortLinks
  {
    match FindByCode(t.shortLinks, code)
    case None => NotFound
    case Some(link) => Redirect(link.originalUrl)
  }

  /** Asking again for the same URL returns the same link and writes nothing,
      whatever token would have been drawn. */
  lemma GetLinkIdempotent(t: Tables, pk: RecipeId, referer: Option<string>, detailUrl: string, token: string, token2: string)
    requires GetLinkResult(t, pk, referer, detailUrl, token).response.Success?
    ensures var o := GetLinkResult(t, pk, referer, detailUrl, token);
      GetLinkResult(o.tables, pk, referer, detailUrl, token2) == o
  {
    var url := referer.GetOr(detailUrl);
    var o := GetLinkResult(t, pk, referer, detailUrl, token);
    if FindByUrl(t.shortLinks, url).None? {
      var links := o.tables.shortLinks;
      assert links[|links| - 1] == ShortLink(TokenPrefix(token), url);
      assert FindByUrl(links, url) == Some(ShortLink(TokenPrefix(token), url)) by {
        FindByUrlAppended(t.shortLinks, ShortLink(TokenPrefix(token), url));
      }
    }
  }

  lemma {:induction false} FindByUrlAppended(links: seq<ShortLink>, row: ShortLink)
    requires forall i :: 0 <= i < |links| ==> links[i].originalUrl != row.originalUrl
    ensures FindByUrl(links + [row], row.originalUrl) == Some(row)
  {
    if links != [] {
      assert (links + [row])[1..] == links[1..] + [row];
      FindByUrlAppended(links[1..], row);
    }
  }

  /** A well-formed short-link table stays well formed: codes at most three
      characters and unique, URLs unique. */
  lemma GetLinkKeepsWellFormed(t: Tables, pk: RecipeId, referer: Option<string>, detailUrl: string, token: string)
    requires ShortLinksWellFormed(t.shortLinks)
    ensures ShortLinksWellFormed(GetLinkResult(t, pk, referer, detailUrl, token).tables.shortLinks)
  {
  }

  /** In a well-formed table, a stored code finds its own row. */
  lemma {:induction false} FindByCodeUnique(links: seq<ShortLink>, i: nat)
    requires ShortLinksWellFormed(links) && i < |links|
    ensures FindByCode(links, links[i].shortLink) == Some(links[i])
  {
    if i > 0 {
      var rest := links[1..];
      assert rest[i - 1] == links[i];
      assert ShortLinksWellFormed(rest) by {
        forall a, b | 0 <= a < b < |rest|
          ensures rest[a].shortLink != rest[b].shortLink && rest[a].originalUrl != rest[b].originalUrl
        {
          assert rest[a] == links[a + 1] && rest[b] == links[b + 1];
        }
      }
      FindByCodeUnique(rest, i - 1);
    }
  }

  /** The link `get_link` hands out leads back to the URL it was made for. */
  lemma GetLinkThenRetrieve(t: Tables, pk: RecipeId, referer: Option<string>, detailUrl: string, token: string)
    requires ShortLinksWellFormed(t.shortLinks)
    requires GetLinkResult(t, pk, referer, detailUrl, token).response.Success?
    ensures var o := GetLinkResult(t, pk, referer, detailUrl, token);
      RetrieveByShortLink(o.tables, o.response.body.shortLink) == Redirect(referer.GetOr(detailUrl))
  {
    var o := GetLinkResult(t, pk, referer, detailUrl, token);
    GetLinkKeepsWellFormed(t, pk, referer, detailUrl, token);
    var links := o.tables.shortLinks;
    var row := ShortLink(o.response.body.shortLink, referer.GetOr(detailUrl));
    var i :| 0 <= i < |links| && links[i] == row;
    FindByCodeUnique(links, i);
  }
}
