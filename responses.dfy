/** What the API answers: the status classes the views produce and the error
    details they carry. Bodies keep only what identifies the object shown. */
module Responses {
  import opened Wrappers

  /** The serializer fields a validation error can be attached to; `NonField`
      is `non_field_errors`. */
  datatype Field = IngredientsField | TagsField | ImageField | NameField | TextField | CookingTimeField | NonField

  /** Why a field was refused. */
  datatype Problem =
    | Required          // a required field was not sent
    | Blank             // a text field is empty after trimming
    | TooLong           // more characters than `max_length`
    | NullCharacter     // a text field holding a NUL character
    | TooSmall          // an integer below `min_value`
    | NotAFile          // an image field given a plain string
    | EmptyFile         // an image whose payload is empty
    | AmountTooSmall    // an ingredient line's amount below 1
    | DuplicateIds      // the same id twice in a list
    | UnknownIngredients // some ingredient id names no Ingredient
    | UnknownTag(pk: int) // the first tag id that names no Tag
    | NoIngredients     // `validate`: no ingredient lines
    | NoTags            // `validate`: no tags

  datatype FieldError = FieldError(field: Field, problem: Problem)

  /** The detail of a 400 answer. */
  datatype ApiError =
    | Invalid(errors: set<FieldError>)
    | AlreadyInCart
    | AlreadyFavorited
    | SelfFollow
    | AlreadyFollowing
    | NotInList
    | NotSubscribed
    | DeleteFailed
    | InvalidFilter

  /** The object a successful answer shows. */
  datatype Body =
    | RecipeBody(recipe: int)
    | ShortRecipeBody(recipe: int)
    | AuthorBody(author: int)
    | ShortLinkBody(shortLink: string)

  datatype Response =
    | Success(body: Body)         // 200
    | Created(body: Body)         // 201
    | NoContent                   // 204
    | BadRequest(error: ApiError) // 400
    | Unauthorized                // 401
    | Forbidden                   // 403
    | NotFound                    // 404
    | ServerError                 // 500: an exception the view does not catch
    | Redirect(url: string)       // 302
    | TextFile(text: string, attachment: Option<string>) // a text/plain document
}
