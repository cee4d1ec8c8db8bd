/** backend/api/permissions.py: `IsAuthorOrAdminOrReadOnly`, read access for
    everyone, write access for the signed-in author of an object or a superuser. */
module Permissions {
  import opened UserModels
  import opened Requests

  /** `has_permission`: reads always pass; anything else needs a signed-in user. */
  function HasPermission(httpMethod: HttpMethod, user: Principal): (ok: bool)
    ensures IsSafe(httpMethod) ==> ok
    ensures user.Authenticated? ==> ok
    ensures user.Anonymous? ==> (ok <==> IsSafe(httpMethod))
  {
    IsSafe(httpMethod) || user.Authenticated?
  }

  /** `has_object_permission`: reads always pass; a write needs a signed-in user
      who is a superuser or the object's author. Passing it implies passing the
      view-level check, and an anonymous user never passes it for a write. */
  function HasObjectPermission(httpMethod: HttpMethod, user: Principal, author: UserId): (ok: bool)
    ensures ok ==> HasPermission(httpMethod, user)
    ensures IsSafe(httpMethod) ==> ok
    ensures user.Anonymous? && !IsSafe(httpMethod) ==> !ok
    ensures user.Authenticated? && user.user.isSuperuser ==> ok
    ensures user.Authenticated? && !user.user.isSuperuser && !IsSafe(httpMethod) ==>
              (ok <==> user.user.id == author)
  {
    || IsSafe(httpMethod)
    || (user.Authenticated? && (user.user.isSuperuser || user.user.id == author))
  }
}
