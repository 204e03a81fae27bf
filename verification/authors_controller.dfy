/** `api/authors`: the paged listing with its previous/next links and
    pagination metadata, single-author lookup, creation, the conflict
    probe, and deletion. */
module AuthorsController {
  import opened Common
  import opened Entities
  import opened Repository
  import opened Outcomes
  import opened ResourceParameters

  datatype ResourceUriType = PreviousPage | NextPage | Current

  /** A link to the `GetAuthors` route, recorded as the route values it is
      built from rather than as formatted text. */
  datatype Link = Link(
    routeName: string,
    searchQuery: NString,
    pageNumber: Int32,
    pageSize: Int32,
    genre: NString)

  const GetAuthorsRouteName: string := "GetAuthors"

  /** The link to the page before, after, or equal to the requested one,
      carrying the filters and the page size forward. The page number is
      stepped with C#'s unchecked `int` arithmetic. */
  function CreateAuthorsResourceUri(p: AuthorsResourceParameters, t: ResourceUriType): (l: Link)
    ensures l.routeName == GetAuthorsRouteName
    ensures l.searchQuery == p.searchQuery && l.pageSize == p.pageSize && l.genre == p.genre
    ensures t == PreviousPage && p.pageNumber as int > MinInt32 ==> l.pageNumber as int == p.pageNumber as int - 1
    ensures t == NextPage && p.pageNumber as int < MaxInt32 ==> l.pageNumber as int == p.pageNumber as int + 1
    ensures t == Current ==> l.pageNumber == p.pageNumber
  {
    match t
    case PreviousPage => Link(GetAuthorsRouteName, p.searchQuery, AddWrapping(p.pageNumber, -1), p.pageSize, p.genre)
    case NextPage => Link(GetAuthorsRouteName, p.searchQuery, AddWrapping(p.pageNumber, 1), p.pageSize, p.genre)
    case Current => Link(GetAuthorsRouteName, p.searchQuery, p.pageNumber, p.pageSize, p.genre)
  }

  /** The parameter object a request following the link binds: a fresh
      object whose properties are assigned from the link's route values. */
  function Target(l: Link): (p: AuthorsResourceParameters)
    ensures WithinMaxPageSize(p)
  {
    var p0 := Fresh();
    var p1 := Assign(p0, AssignPageNumber(l.pageNumber));
    var p2 := Assign(p1, AssignPageSize(l.pageSize));
    var p3 := Assign(p2, AssignGenre(l.genre));
    Assign(p3, AssignSearchQuery(l.searchQuery))
  }

  /** Following a link built from a reachable parameter object reproduces
      the object with only the page number stepped; in particular the
      previous link of the next page leads back to the original page. */
  lemma LinkRoundTrip(p: AuthorsResourceParameters)
    requires WithinMaxPageSize(p)
    ensures Target(CreateAuthorsResourceUri(p, Current)) == p
    ensures Target(CreateAuthorsResourceUri(Target(CreateAuthorsResourceUri(p, NextPage)), PreviousPage)) == p
  {
  }

  /** What the paged repository query returns, reduced to the facts the
      controller reads. The paging arithmetic behind the counts and flags
      belongs to the repository. */
  datatype PagedAuthors = PagedAuthors(
    items: seq<Author>,
    totalCount: int,
    pageSize: int,
    currentPage: int,
    totalPages: int,
    hasPrevious: bool,
    hasNext: bool)

  /** The object serialised into the `X-Pagination` header. */
  datatype PaginationMetadata = PaginationMetadata(
    totalCount: int,
    pageSize: int,
    currentPage: int,
    totalPages: int,
    previousPageLink: Option<Link>,
    nextPageLink: Option<Link>)

  datatype AuthorsListing = AuthorsListing(pagination: PaginationMetadata, outcome: Outcome)

  /** `GET api/authors`: the page of authors the repository returned, with
      a previous link exactly when there is a previous page, a next link
      exactly when there is a next page, and the counts copied from the
      page. */
  function GetAuthors(p: AuthorsResourceParameters, page: PagedAuthors): (r: AuthorsListing)
    ensures r.pagination.previousPageLink.Some? <==> page.hasPrevious
    ensures r.pagination.nextPageLink.Some? <==> page.hasNext
    ensures page.hasPrevious ==> r.pagination.previousPageLink.value == CreateAuthorsResourceUri(p, PreviousPage)
    ensures page.hasNext ==> r.pagination.nextPageLink.value == CreateAuthorsResourceUri(p, NextPage)
    ensures r.pagination.totalCount == page.totalCount && r.pagination.pageSize == page.pageSize
    ensures r.pagination.currentPage == page.currentPage && r.pagination.totalPages == page.totalPages
    ensures r.outcome.Ok? && r.outcome.body.AuthorListBody?
    ensures |r.outcome.body.authors| == |page.items|
    ensures forall i :: 0 <= i < |page.items| ==> r.outcome.body.authors[i] == ToAuthorDto(page.items[i])
  {
    var previousPageLink := if page.hasPrevious then Some(CreateAuthorsResourceUri(p, PreviousPage)) else None;
    var nextPageLink := if page.hasNext then Some(CreateAuthorsResourceUri(p, NextPage)) else None;
    var metadata := PaginationMetadata(page.totalCount, page.pageSize, page.currentPage, page.totalPages,
                                       previousPageLink, nextPageLink);
    AuthorsListing(metadata, Ok(AuthorListBody(ToAuthorDtos(page.items))))
  }

  /** `GET api/authors/{id}`. */
  function GetAuthor(s: Store, id: Guid): (r: Reply)
    ensures r.store == s
    ensures r.outcome == NotFound <==> id !in s.authors
    ensures r.outcome != NotFound ==> r.outcome == Ok(AuthorBody(ToAuthorDto(s.authors[id])))
  {
    match Repository.GetAuthor(s, id)
    case None => Reply(NotFound, s)
    case Some(a) => Reply(Ok(AuthorBody(ToAuthorDto(a))), s)
  }

  /** `POST api/authors`: a null body is rejected; otherwise the author is
      added under the fresh id the store hands out and, once saved, the
      response points at it. */
  function CreateAuthor(s: Store, body: Option<AuthorForCreation>, newId: Guid, saveOk: bool): (r: Reply)
    requires newId !in s.authors
    ensures body.None? ==> r == Reply(BadRequest, s)
    ensures body.Some? && !saveOk ==> r == Reply(Fatal, s)
    ensures r.outcome.Created? <==> body.Some? && saveOk
    ensures r.outcome.Created? ==>
      && r.outcome.route == GetAuthorRoute(newId)
      && r.store.books == s.books
      && r.store.authors.Keys == s.authors.Keys + {newId}
      && r.outcome.body == AuthorBody(ToAuthorDto(r.store.authors[newId]))
      && |r.store.authors| == |s.authors| + 1
      && AuthorDetails(r.store.authors[newId]) == body.value
      && (forall id :: id in s.authors ==> r.store.authors[id] == s.authors[id])
    ensures Valid(s) ==> Valid(r.store)
  {
    match body
    case None => Reply(BadRequest, s)
    case Some(c) =>
      var author := NewAuthor(c, newId);
      var t := AddAuthor(s, author);
      if !saveOk then Reply(Fatal, s)
      else Reply(Created(GetAuthorRoute(newId), AuthorBody(ToAuthorDto(author))), t)
  }

  /** `POST api/authors/{id}`: posting to an existing author's URI is a
      conflict, to any other id a not-found; the store is only read. */
  function BlockAuthorCreation(s: Store, id: Guid): (r: Reply)
    ensures r.store == s
    ensures r.outcome.Conflict? <==> id in s.authors
    ensures r.outcome.NotFound? <==> id !in s.authors
  {
    if AuthorExists(s, id) then Reply(Conflict, s) else Reply(NotFound, s)
  }

  /** `DELETE api/authors/{id}`: a missing author is not found and nothing
      changes; otherwise that author and its books are removed and nothing
      else. */
  function DeleteAuthor(s: Store, id: Guid, saveOk: bool): (r: Reply)
    ensures r.outcome == NotFound <==> id !in s.authors
    ensures r.outcome == NoContent <==> id in s.authors && saveOk
    ensures id in s.authors && !saveOk ==> r == Reply(Fatal, s)
    ensures r.outcome != NoContent ==> r.store == s
    ensures r.outcome == NoContent ==>
      && r.store.authors.Keys == s.authors.Keys - {id}
      && |r.store.authors| == |s.authors| - 1
      && (forall a :: a in r.store.authors ==> r.store.authors[a] == s.authors[a])
      && (forall k :: k in r.store.books <==> k in s.books && k.authorId != id)
      && (forall k :: k in r.store.books ==> r.store.books[k] == s.books[k])
    ensures Valid(s) ==> Valid(r.store)
  {
    match Repository.GetAuthor(s, id)
    case None => Reply(NotFound, s)
    case Some(a) =>
      var t := Repository.DeleteAuthor(s, id);
      if !saveOk then Reply(Fatal, s) else Reply(NoContent, t)
  }
}
