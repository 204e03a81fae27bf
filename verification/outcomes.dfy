/** What a controller action answers, stripped of HTTP: the kind of
    result, the route a creation response points at, the body, and the
    store after the request. */
module Outcomes {
  import opened Entities
  import opened Repository

  /** The named route a `CreatedAtRoute` response refers to, with its
      route values. */
  datatype Route =
    | GetAuthorRoute(id: Guid)
    | GetBookForAuthorRoute(authorId: Guid, bookId: Guid)
    | GetAuthorCollectionRoute(ids: string)

  datatype Payload =
    | AuthorBody(author: AuthorDto)
    | AuthorListBody(authors: seq<AuthorDto>)
    | BookBody(book: BookDto)
    | BookSetBody(books: set<BookDto>)

  /** One model-state entry: the key it is filed under and its message. */
  datatype ModelError = ModelError(key: string, message: string)

  datatype Outcome =
    | BadRequest                              // 400: null or unreadable body
    | NotFound                                // 404
    | Unprocessable(errors: seq<ModelError>)  // 422: invalid model state
    | Conflict                                // 409
    | Created(route: Route, body: Payload)    // 201
    | NoContent                               // 204
    | Ok(body: Payload)                       // 200
    | Fatal                                   // Save returned false: the action throws

  datatype Reply = Reply(outcome: Outcome, store: Store)
}
