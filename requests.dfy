/** The parts of a Django REST framework request that the core reads: the HTTP
    method, the user attached by authentication and the query parameters. */
module Requests {
  import opened Wrappers
  import opened UserModels

  datatype HttpMethod = GET | HEAD | OPTIONS | POST | PUT | PATCH | DELETE

  /** `request.user`: a signed-in user or Django's AnonymousUser. */
  datatype Principal = Anonymous | Authenticated(user: User)

  /** `user` is `None` when the request object carries no `user` attribute. */
  datatype Request = Request(httpMethod: HttpMethod, user: Option<Principal>, queryParams: map<string, string>)

  /** `SAFE_METHODS`: the read-only methods. */
  predicate IsSafe(m: HttpMethod) {
    m == GET || m == HEAD || m == OPTIONS
  }
}
