# Library API request handling, modelled in Dafny

This project models the request-handling decisions of a small REST back end
for authors and their books. It covers the three controllers and the paging
parameter object that the author listing binds:

- `AuthorsController`: the paged author listing, with its previous/next
  links and `X-Pagination` metadata. Also single-author lookup, creation,
  the `POST api/authors/{id}` conflict probe, and deletion.
- `BooksController`: reading, creating and deleting an author's books.
  Also full update (PUT) and partial update (PATCH), both of which upsert.
- `AuthorCollectionsController`: creating a batch of authors with a single
  save, and fetching a batch back by a comma-joined id list.
- `AuthorsResourceParameters`: the page number and page size defaults, and
  the page-size setter that caps the value at 20.

Each action except the author listing is a pure function from a store and
the request to a `Reply(outcome, store)`. The listing,
`AuthorsController.GetAuthors`, takes the bound parameters and the page the
repository returned, and yields an `AuthorsListing` of pagination metadata
and outcome. The store is two maps: authors keyed by id, and
books keyed by `(authorId, bookId)`. An outcome is one of `BadRequest`,
`NotFound`, `Unprocessable(errors)`, `Conflict`, `Created(route, body)`,
`NoContent`, `Ok(body)` or `Fatal`.

The repository's `Save()` is a boolean parameter. When it is false the
action answers `Fatal`, which stands for the exception the source throws.
The store returned in that case is the one the request started from, since
nothing was committed.

Files, one module each:

| file | module | models |
|---|---|---|
| common.dfy | `Common` | nullable values, C#'s `int` with unchecked wrap-around, distinctness |
| resource_parameters.dfy | `ResourceParameters` | `AuthorsResourceParameters` |
| entities.dfy | `Entities` | authors, books, their DTOs and field-copy mappings |
| repository.dfy | `Repository` | the store and the repository calls the controllers make |
| outcomes.dfy | `Outcomes` | action results |
| json_patch.dfy | `JsonPatch` | the patch documents a PATCH applies |
| id_text.dfy | `IdText` | ids as text and the comma-joined composite key |
| authors_controller.dfy | `AuthorsController` | `AuthorsController` |
| books_controller.dfy | `BooksController` | `BooksController` |
| author_collections_controller.dfy | `AuthorCollectionsController` | `AuthorCollectionsController` |

Points of the code's behaviour that are easy to miss:

- The page size has no lower bound. The setter keeps 0 and negative values
  (src/Library.API/Helpers/AuthorsResourceParameters.cs:19); only values
  above 20 are changed.
- POST and PUT check the body's validity before they check that the author
  exists. PATCH checks that the author exists before it applies and
  validates the patch. So for an unknown author, an invalid PUT is
  unprocessable while the same PATCH is not found
  (`BooksController.UnknownAuthorCheckOrder`).
- POST and PUT apply the title rule to the body as sent. Only PATCH merges
  before validating.

## Model

| member | source | states |
|---|---|---|
| Common.AddWrapping | src/Library.API/Controllers/AuthorsController.cs:61-70 | page-number arithmetic is C# `int` arithmetic: the exact sum when it fits, and always congruent to it modulo 2^32 |
| Common.IncrementThenDecrement | src/Library.API/Controllers/AuthorsController.cs:61-70 | adding 1 and then subtracting 1 gives back the original page number, even across the wrap at `int.MaxValue` |
| ResourceParameters.Fresh | src/Library.API/Helpers/AuthorsResourceParameters.cs:6-10 | a new parameter object has page number 1, page size 10, null genre and search query, and satisfies the page-size bound |
| ResourceParameters.SetPageSize | src/Library.API/Helpers/AuthorsResourceParameters.cs:5-20 | a value above 20 is stored as 20; any value up to 20 is stored unchanged, including 0 and negatives; page number, genre and search query are untouched |
| ResourceParameters.AssignAllKeepsBound | src/Library.API/Helpers/AuthorsResourceParameters.cs:6-21 | any sequence of property assignments keeps the page size at most 20 |
| ResourceParameters.ReachableWithinMaxPageSize | src/Library.API/Helpers/AuthorsResourceParameters.cs:6-21 | every object reachable from construction by assignments has a page size of at most 20 |
| ResourceParameters.SetPageSizeIdempotent | src/Library.API/Helpers/AuthorsResourceParameters.cs:13-20 | writing back the page size just read changes nothing, and assigning the same value twice is the same as assigning it once |
| Entities.NewAuthor | src/Library.API/Controllers/AuthorsController.cs:108-109 | a new author entity has the assigned id and exactly the payload's fields |
| Entities.ToAuthorDto | src/Library.API/Controllers/AuthorsController.cs:116 | the returned representation has the entity's id and fields |
| Entities.ToAuthorDtos | src/Library.API/Controllers/AuthorsController.cs:48 | a list of authors maps element by element and keeps its length and order |
| Entities.Project | src/Library.API/Controllers/BooksController.cs:214 | the form a PATCH edits holds exactly the book's title and description: together with the book's ids it rebuilds the book |
| Entities.NewBook | src/Library.API/Controllers/BooksController.cs:145-146 | a book built from a form has the requested id and author, and its editable fields are the form's |
| Entities.ApplyForm | src/Library.API/Controllers/BooksController.cs:158 | copying a form onto a book replaces title and description and keeps both ids |
| Entities.ToBookDto | src/Library.API/Controllers/BooksController.cs:54 | the returned representation has the book's ids, title and description |
| Entities.ProjectApplyRoundTrip | src/Library.API/Controllers/BooksController.cs:214-229 | projecting a book and copying the projection back is the identity; copying a form and projecting it gives the form; copying is idempotent |
| Repository.GetAuthor | src/Library.API/Controllers/AuthorsController.cs:89-94 | the lookup finds an author exactly when the id is stored, and returns the stored author |
| Repository.AuthorExists | src/Library.API/Controllers/BooksController.cs:29 | on a consistent store, an author exists exactly when some stored author carries the id |
| Repository.GetBookForAuthor | src/Library.API/Controllers/BooksController.cs:47-52 | the lookup finds a book exactly when `(authorId, id)` is stored, and returns the stored book |
| Repository.GetBooksForAuthor | src/Library.API/Controllers/BooksController.cs:34 | the result holds exactly the books filed under the author |
| Repository.GetAuthorsByIds | src/Library.API/Controllers/AuthorCollectionsController.cs:57-59 | the lookup never returns more authors than ids; it returns one per id iff the ids are distinct and all stored, and then it returns them in request order |
| Repository.AddAuthor | src/Library.API/Controllers/AuthorsController.cs:109 | adds exactly one author key, leaves other authors and all books unchanged, and preserves store integrity |
| Repository.AddAuthors | src/Library.API/Controllers/AuthorCollectionsController.cs:33-36 | adding a batch files every author under its id, leaves earlier authors and all books unchanged, and preserves store integrity |
| Repository.DeleteAuthor | src/Library.API/Controllers/AuthorsController.cs:139 | removes the author and exactly the books filed under it; everything else is unchanged |
| Repository.AddBookForAuthor | src/Library.API/Controllers/BooksController.cs:82 | files the book under the given author with its author reference set to that author; no other book changes |
| Repository.UpdateBookForAuthor | src/Library.API/Controllers/BooksController.cs:159 | stores the book's new state under its own ids; no other book changes |
| Repository.DeleteBook | src/Library.API/Controllers/BooksController.cs:107 | removes exactly that book's key; nothing else changes |
| JsonPatch.Set | src/Library.API/Controllers/BooksController.cs:186 | writes one field of a form and leaves the other unchanged |
| JsonPatch.ApplyOperation | src/Library.API/Controllers/BooksController.cs:186 | a replace writes its value and a remove writes null; the other field keeps its value |
| JsonPatch.ApplyTo | src/Library.API/Controllers/BooksController.cs:186-215 | the operations are applied first to last, so the field the last operation targets holds the value it writes; `ApplyToKeepsUntouched`, `ApplyToLastWrite` and `ApplyToConcat` state the rest |
| JsonPatch.ApplyToKeepsUntouched | src/Library.API/Controllers/BooksController.cs:185-186 | after applying a patch, a field that no operation targets keeps its value |
| JsonPatch.ApplyToLastWrite | src/Library.API/Controllers/BooksController.cs:214-215 | after applying a patch, a targeted field holds the value written by the last operation that targets it |
| JsonPatch.ApplyToConcat | src/Library.API/Controllers/BooksController.cs:214-215 | applying two documents in turn equals applying their concatenation |
| IdText.Join | src/Library.API/Controllers/AuthorCollectionsController.cs:44 | `string.Join` with a comma: a single piece is joined to itself; `IdText.SplitJoin` states that splitting undoes it |
| IdText.CompositeId | src/Library.API/Controllers/AuthorCollectionsController.cs:44 | the composite key is empty exactly when there are no ids, and otherwise splits at its commas into exactly the ids' texts, in order |
| IdText.IdToText | src/Library.API/Controllers/AuthorCollectionsController.cs:44 | an id's text is non-empty hexadecimal and never contains the separator |
| IdText.HexValueOfIdToText | src/Library.API/Controllers/AuthorCollectionsController.cs:44-50 | reading an id's text back gives the id |
| IdText.FirstSeparator | src/Library.API/Controllers/AuthorCollectionsController.cs:49-50 | returns the position of the first comma, or the length when there is none |
| IdText.Split | src/Library.API/Controllers/AuthorCollectionsController.cs:49-50 | splitting yields at least one piece and no piece contains a comma |
| IdText.SplitJoin | src/Library.API/Controllers/AuthorCollectionsController.cs:44-50 | splitting a comma-join of comma-free pieces gives the pieces back |
| IdText.ParseIds | src/Library.API/Controllers/AuthorCollectionsController.cs:50 | parsing succeeds iff every piece is an id, and then yields one id per piece, in order |
| IdText.CompositeIdRoundTrip | src/Library.API/Controllers/AuthorCollectionsController.cs:44-50 | the composite key of a non-empty id list reads back as exactly those ids, in order |
| AuthorsController.CreateAuthorsResourceUri | src/Library.API/Controllers/AuthorsController.cs:52-84 | a link to `GetAuthors` with the search query, page size and genre carried forward, and the page number minus 1 for the previous page, plus 1 for the next page, unchanged otherwise |
| AuthorsController.Target | src/Library.API/Controllers/AuthorsController.cs:25-26 | the parameters a request following a link binds always satisfy the page-size bound |
| AuthorsController.LinkRoundTrip | src/Library.API/Controllers/AuthorsController.cs:52-84 | following the current-page link reproduces the parameters; following the next link and then its previous link also returns to them |
| AuthorsController.GetAuthors | src/Library.API/Controllers/AuthorsController.cs:26-49 | the previous link is present iff there is a previous page, and the next link iff there is a next page; both are built by the link builder; the counts are copied from the page; the body holds the representation of each of the page's authors, in order |
| AuthorsController.GetAuthor | src/Library.API/Controllers/AuthorsController.cs:86-98 | not found iff the id is not stored, otherwise Ok with that author; the store is only read |
| AuthorsController.CreateAuthor | src/Library.API/Controllers/AuthorsController.cs:100-118 | a null body is a bad request and changes nothing; a failed save is fatal and changes nothing; otherwise exactly one author with the payload's fields is added and the answer points at its id |
| AuthorsController.BlockAuthorCreation | src/Library.API/Controllers/AuthorsController.cs:120-128 | conflict iff the author exists, not found otherwise; the store never changes |
| AuthorsController.DeleteAuthor | src/Library.API/Controllers/AuthorsController.cs:130-146 | not found iff the id is missing, and then the store is unchanged; for a stored author a failed save is fatal and changes nothing; on success exactly that author and its books are gone |
| BooksController.TitleRule | src/Library.API/Controllers/BooksController.cs:66-69 | one error, under the DTO's name, exactly when the description equals the title (two nulls are equal) |
| BooksController.BodyErrors | src/Library.API/Controllers/BooksController.cs:66-74 | POST/PUT model state is valid iff the annotations pass and the title differs from the description |
| BooksController.PatchErrors | src/Library.API/Controllers/BooksController.cs:188-198 | PATCH model state has the title-rule error first, and is valid iff the merged form passes both checks |
| BooksController.GetBooksForAuthor | src/Library.API/Controllers/BooksController.cs:26-37 | not found iff the author is missing; otherwise the set of representations of exactly the books filed under the author |
| BooksController.GetBookForAuthor | src/Library.API/Controllers/BooksController.cs:39-56 | not found iff the book is not filed under that author; otherwise Ok with that book; the store is only read |
| BooksController.CreateBookForAuthor | src/Library.API/Controllers/BooksController.cs:58-91 | null body, then validity, then the author's existence are checked, in that order, and none of these paths changes the store; a 422 carries the annotation errors followed by the title-rule error; when all pass, a failed save is fatal and changes nothing; on success exactly one book with the body's fields is added under the author and the answer points at it |
| BooksController.DeleteBookForAuthor | src/Library.API/Controllers/BooksController.cs:93-117 | not found iff the author or the book is missing, and then the store is unchanged; for a stored book a failed save is fatal and changes nothing; on success exactly that book is removed |
| BooksController.UpdateBookForAuthor | src/Library.API/Controllers/BooksController.cs:119-167 | after the body checks and the author check (a 422 carrying the annotation errors followed by the title-rule error), a missing book is created under the requested id (Created) and an existing one gets the body's fields (NoContent); other books are unchanged; a failed save is fatal; every answer other than Created or NoContent leaves the store as it was |
| BooksController.PatchBase | src/Library.API/Controllers/BooksController.cs:182-214 | a patch edits the default form when the book is missing and the book's projection when it is present |
| BooksController.PartiallyUpdateBookForAuthor | src/Library.API/Controllers/BooksController.cs:169-237 | a null document is a bad request; an unknown author is not found whatever the patch holds; the merged form is validated before anything is stored, so an invalid merge leaves the store untouched and the 422 carries the merged form's title-rule error followed by its annotation errors; otherwise the book is created or overwritten with the merged form |
| BooksController.PutIdempotent | src/Library.API/Controllers/BooksController.cs:142-166 | repeating a successful PUT leaves the store as the first one did and answers no-content |
| BooksController.FullReplacement | src/Library.API/Controllers/BooksController.cs:215 | a patch replacing both fields turns any form into the given one |
| BooksController.FullPatchIsPut | src/Library.API/Controllers/BooksController.cs:119-237 | on a known author, a PATCH replacing both fields has the same outcome and store as a PUT of the same form, unless the form fails both the annotation checks and the title rule (then both are unprocessable but list the errors in different orders) |
| BooksController.UnknownAuthorCheckOrder | src/Library.API/Controllers/BooksController.cs:127-180 | for an unknown author an invalid PUT is unprocessable while the equivalent PATCH is not found |
| BooksController.PatchDescriptionOntoTitleRejected | src/Library.API/Controllers/BooksController.cs:214-227 | setting an existing book's description to its unchanged title is unprocessable with the title-rule error first, and the store is untouched |
| BooksController.EmptyPatchOnMissingBookRejected | src/Library.API/Controllers/BooksController.cs:185-198 | an empty patch on a missing book leaves both fields null, so the request is unprocessable |
| BooksController.PutCreatesRequestedId | src/Library.API/Controllers/BooksController.cs:142-155 | a valid PUT for a known author and a new book id creates the book under exactly that id and points at `(authorId, id)` |
| AuthorCollectionsController.NewAuthors | src/Library.API/Controllers/AuthorCollectionsController.cs:31 | one entity per payload, in order, with the assigned ids and the payloads' fields |
| AuthorCollectionsController.DtoIds | src/Library.API/Controllers/AuthorCollectionsController.cs:44 | the ids of the returned authors, in order |
| AuthorCollectionsController.CreateAuthorCollection | src/Library.API/Controllers/AuthorCollectionsController.cs:23-47 | a null collection is a bad request and adds nothing; otherwise every payload is added and one save decides between fatal (nothing stored) and created; the store gains exactly one author per payload; the composite key joins the returned authors' ids in their order |
| AuthorCollectionsController.NewAuthorsCount | src/Library.API/Controllers/AuthorCollectionsController.cs:31-36 | adding fresh, distinct ids grows the author table by their number |
| AuthorCollectionsController.GetAuthorCollection | src/Library.API/Controllers/AuthorCollectionsController.cs:49-66 | missing ids are a bad request; not found iff the ids are not distinct or not all stored, so a partial batch is never returned; otherwise the authors come back in request order |
| AuthorCollectionsController.LookupOfStoredIds | src/Library.API/Controllers/AuthorCollectionsController.cs:57-65 | looking up distinct stored ids answers Ok with exactly those authors |
| AuthorCollectionsController.BatchCreateThenLookup | src/Library.API/Controllers/AuthorCollectionsController.cs:43-65 | after a saved batch create, looking up the new ids returns exactly the authors the creation returned, in order |
| AuthorCollectionsController.BatchKeyReadsBack | src/Library.API/Controllers/AuthorCollectionsController.cs:43-50 | the composite key in the response to a saved, non-empty batch create reads back as the new ids, in order |

## Left out

- HTTP routing, model binding and `IActionResult` construction. Outcomes are a plain datatype, and null bodies or id lists are `None`.
- The text of `urlHelper.Link`. A link is the record of the route name and route values it is built from. `AuthorsController.Target` models a request following a link as a fresh parameter object whose properties are assigned from those values.
- The `X-Pagination` JSON serialisation, `Response.Headers`, and the logger call in `DeleteBookForAuthor`. The metadata object itself is modelled.
- The mapper configuration. Mappings are explicit field copies. The author DTO copies the entity's fields, because the real DTO's shape is not part of this model.
- The repository implementation: filtering, search, ordering and the `PagedList` paging arithmetic. The page, its counts and its `HasPrevious`/`HasNext` flags are inputs to `GetAuthors`.
- Repository.GetAuthorsByIds: returns the authors in request order, and each stored author at most once even when its id is listed twice. Both are assumptions about the repository, whose code is not part of this model. The controller only compares the number of authors found with the number of ids. So `AuthorCollectionsController.GetAuthorCollection`'s "not found iff the ids are not distinct or not all stored" holds under the at-most-once assumption. A repository that returned one author per listed id, duplicates included, would answer Ok for a list with a repeated stored id.
- Repository.DeleteAuthor: deleting an author is assumed to delete its books in cascade. The repository is not part of this model.
- `JsonPatchDocument.ApplyTo` internals. Patches are `replace` and `remove` on the title and description only. A `remove` writes null. Errors that `ApplyTo` itself reports, such as bad paths or failed `test` operations, are not modelled.
- Data-annotation validation, both during binding and in `TryValidateModel`. It is an `Annotations` parameter that returns the model-state errors it would record.
- Guid generation. Fresh ids are parameters, and a `requires` states that they are unused, because `Guid.NewGuid` is assumed never to collide.
- IdText.IdToText: writes an id as lower-case hexadecimal rather than the 36-character .NET format. The `ArrayModelBinder` that reads the key back is modelled only by `IdText.Split` and `IdText.ParseIds`. These are used to state the round trip, which covers non-empty batches only.
- Persistence behaviour. When `Save()` returns false the answer is `Fatal` and the pre-request store is returned. The model makes no other rollback or retry claim. The exception messages are not modelled.
- BooksController.GetBooksForAuthor: returns the books as a set, so the order of the returned list is not stated.
- Concurrency between requests. Each action is modelled as running alone on the store.
