/** `api/authors/{authorId}/books`: reading, creating, deleting, fully
    updating (with upsert) and patching (with upsert) the books of an
    author. Every write path checks the same cross-field rule, that a
    book's description differs from its title, on the value about to be
    stored. */
module BooksController {
  import opened Common
  import opened Entities
  import opened Repository
  import opened Outcomes
  import opened JsonPatch

  const DescriptionMessage: string := "The provided description should be different from the title"
  const BookForCreationKey: string := "BookForCreationDto"
  const BookForUpdateKey: string := "BookForUpdateDto"

  /** The data-annotation validation the framework runs on a book form
      (during model binding for POST and PUT, through `TryValidateModel`
      for PATCH): the model-state errors it records, none when the form
      passes. Its rules are not part of this model, so every action takes
      it as a parameter. */
  type Annotations = BookForm -> seq<ModelError>

  /** The title/description rule: one error, filed under `key`, exactly
      when the two fields are equal (two nulls count as equal). */
  function TitleRule(key: string, f: BookForm): (errs: seq<ModelError>)
    ensures errs == [] <==> f.title != f.description
    ensures errs != [] ==> errs == [ModelError(key, DescriptionMessage)]
  {
    if f.description == f.title then [ModelError(key, DescriptionMessage)] else []
  }

  /** The model state a POST or PUT action sees after its own check: the
      binding-time annotation errors first, then the title rule's. */
  function BodyErrors(key: string, f: BookForm, annotations: Annotations): (errs: seq<ModelError>)
    ensures f.title == f.description ==> ModelError(key, DescriptionMessage) in errs
    ensures errs == [] <==> f.title != f.description && annotations(f) == []
  {
    annotations(f) + TitleRule(key, f)
  }

  /** The model state a PATCH action sees: the title rule's error first,
      then the errors `TryValidateModel` adds. */
  function PatchErrors(f: BookForm, annotations: Annotations): (errs: seq<ModelError>)
    ensures f.title == f.description ==> |errs| > 0 && errs[0] == ModelError(BookForUpdateKey, DescriptionMessage)
    ensures errs == [] <==> f.title != f.description && annotations(f) == []
  {
    TitleRule(BookForUpdateKey, f) + annotations(f)
  }

  /** `GET api/authors/{authorId}/books`. */
  function GetBooksForAuthor(s: Store, authorId: Guid): (r: Reply)
    requires Valid(s)
    ensures r.store == s
    ensures r.outcome == NotFound <==> authorId !in s.authors
    ensures r.outcome != NotFound ==>
      && r.outcome.Ok? && r.outcome.body.BookSetBody?
      && r.outcome.body.books == set k | k in s.books && k.authorId == authorId :: ToBookDto(s.books[k])
  {
    if !AuthorExists(s, authorId) then Reply(NotFound, s)
    else
      var books := Repository.GetBooksForAuthor(s, authorId);
      Reply(Ok(BookSetBody(set b | b in books :: ToBookDto(b))), s)
  }

  /** `GET api/authors/{authorId}/books/{id}`. */
  function GetBookForAuthor(s: Store, authorId: Guid, id: Guid): (r: Reply)
    requires Valid(s)
    ensures r.store == s
    ensures r.outcome == NotFound <==> BookKey(authorId, id) !in s.books
    ensures r.outcome != NotFound ==>
      && r.outcome.Ok? && r.outcome.body.BookBody?
      && r.outcome.body.book.id == id && r.outcome.body.book.authorId == authorId
      && BookForm(r.outcome.body.book.title, r.outcome.body.book.description) == Project(s.books[BookKey(authorId, id)])
  {
    if !AuthorExists(s, authorId) then Reply(NotFound, s)
    else
      match Repository.GetBookForAuthor(s, authorId, id)
      case None => Reply(NotFound, s)
      case Some(b) => Reply(Ok(BookBody(ToBookDto(b))), s)
  }

  /** `POST api/authors/{authorId}/books`. The body checks (null, then
      validity) come before the author lookup, so an invalid book for an
      unknown author is unprocessable, not not-found. A valid book for a
      known author is filed under the fresh id the store hands out. */
  function CreateBookForAuthor(s: Store, authorId: Guid, body: Option<BookForm>, annotations: Annotations,
                               newId: Guid, saveOk: bool): (r: Reply)
    requires Valid(s)
    requires BookKey(authorId, newId) !in s.books
    ensures body.None? ==> r == Reply(BadRequest, s)
    ensures body.Some? && body.value.title == body.value.description ==> r.outcome.Unprocessable? && r.store == s
    ensures r.outcome.Unprocessable? <==> body.Some? && BodyErrors(BookForCreationKey, body.value, annotations) != []
    ensures r.outcome.Unprocessable? ==> r.outcome.errors == BodyErrors(BookForCreationKey, body.value, annotations)
    ensures r.outcome == NotFound <==>
      body.Some? && BodyErrors(BookForCreationKey, body.value, annotations) == [] && authorId !in s.authors
    ensures r.outcome.Created? <==>
      body.Some? && BodyErrors(BookForCreationKey, body.value, annotations) == [] && authorId in s.authors && saveOk
    ensures body.Some? && BodyErrors(BookForCreationKey, body.value, annotations) == [] && authorId in s.authors && !saveOk ==>
      r == Reply(Fatal, s)
    ensures !r.outcome.Created? ==> r.store == s
    ensures r.outcome.Created? ==>
      var key := BookKey(authorId, newId);
      && r.store.authors == s.authors
      && r.store.books.Keys == s.books.Keys + {key}
      && |r.store.books| == |s.books| + 1
      && (forall k :: k in s.books ==> r.store.books[k] == s.books[k])
      && r.store.books[key].id == newId && r.store.books[key].authorId == authorId
      && Project(r.store.books[key]) == body.value
      && r.outcome == Created(GetBookForAuthorRoute(authorId, newId), BookBody(ToBookDto(r.store.books[key])))
    ensures Valid(r.store)
  {
    match body
    case None => Reply(BadRequest, s)
    case Some(f) =>
      var errors := BodyErrors(BookForCreationKey, f, annotations);
      if errors != [] then Reply(Unprocessable(errors), s)
      else if !AuthorExists(s, authorId) then Reply(NotFound, s)
      else
        var book := NewBook(f, newId, authorId);
        var t := AddBookForAuthor(s, authorId, book);
        if !saveOk then Reply(Fatal, s)
        else Reply(Created(GetBookForAuthorRoute(authorId, newId), BookBody(ToBookDto(book))), t)
  }

  /** `DELETE api/authors/{authorId}/books/{id}`: an unknown author or book
      is not found and nothing changes; otherwise exactly that book goes. */
  function DeleteBookForAuthor(s: Store, authorId: Guid, id: Guid, saveOk: bool): (r: Reply)
    requires Valid(s)
    ensures r.outcome == NotFound <==> authorId !in s.authors || BookKey(authorId, id) !in s.books
    ensures r.outcome == NoContent <==> BookKey(authorId, id) in s.books && saveOk
    ensures BookKey(authorId, id) in s.books && !saveOk ==> r == Reply(Fatal, s)
    ensures r.outcome != NoContent ==> r.store == s
    ensures r.outcome == NoContent ==>
      && r.store.authors == s.authors
      && r.store.books.Keys == s.books.Keys - {BookKey(authorId, id)}
      && |r.store.books| == |s.books| - 1
      && (forall k :: k in r.store.books ==> r.store.books[k] == s.books[k])
    ensures Valid(r.store)
  {
    if !AuthorExists(s, authorId) then Reply(NotFound, s)
    else
      match Repository.GetBookForAuthor(s, authorId, id)
      case None => Reply(NotFound, s)
      case Some(b) =>
        var t := DeleteBook(s, b);
        if !saveOk then Reply(Fatal, s) else Reply(NoContent, t)
  }

  /** What a successful write leaves behind for the book at `key`: the
      author table untouched, the book holding the given form under its
      own ids, and every other book as before. */
  ghost predicate WroteBook(s: Store, t: Store, key: BookKey, f: BookForm)
  {
    && t.authors == s.authors
    && t.books.Keys == s.books.Keys + {key}
    && (forall k :: k in s.books && k != key ==> t.books[k] == s.books[k])
    && t.books[key].id == key.bookId && t.books[key].authorId == key.authorId
    && Project(t.books[key]) == f
  }

  /** `PUT api/authors/{authorId}/books/{id}`. After the same body checks
      and author lookup as a POST: a missing book is created under the
      requested id (upsert) and reported as created; an existing book gets
      the body's fields and the answer is no-content. */
  function UpdateBookForAuthor(s: Store, authorId: Guid, id: Guid, body: Option<BookForm>, annotations: Annotations,
                               saveOk: bool): (r: Reply)
    requires Valid(s)
    ensures body.None? ==> r == Reply(BadRequest, s)
    ensures body.Some? && body.value.title == body.value.description ==> r.outcome.Unprocessable? && r.store == s
    ensures r.outcome.Unprocessable? <==> body.Some? && BodyErrors(BookForUpdateKey, body.value, annotations) != []
    ensures r.outcome.Unprocessable? ==> r.outcome.errors == BodyErrors(BookForUpdateKey, body.value, annotations)
    ensures r.outcome == NotFound <==>
      body.Some? && BodyErrors(BookForUpdateKey, body.value, annotations) == [] && authorId !in s.authors
    ensures !(r.outcome.Created? || r.outcome == NoContent) ==> r.store == s
    ensures body.Some? && BodyErrors(BookForUpdateKey, body.value, annotations) == [] && authorId in s.authors ==>
      (r.outcome == Fatal <==> !saveOk)
    ensures r.outcome.Created? <==>
      (r.outcome != Fatal && authorId in s.authors && BookKey(authorId, id) !in s.books
       && body.Some? && BodyErrors(BookForUpdateKey, body.value, annotations) == [])
    ensures r.outcome == NoContent <==>
      (r.outcome != Fatal && BookKey(authorId, id) in s.books
       && body.Some? && BodyErrors(BookForUpdateKey, body.value, annotations) == [])
    ensures r.outcome.Created? ==>
      && BookKey(authorId, id) in r.store.books
      && r.outcome == Created(GetBookForAuthorRoute(authorId, id), BookBody(ToBookDto(r.store.books[BookKey(authorId, id)])))
      && |r.store.books| == |s.books| + 1
    ensures r.outcome.Created? || r.outcome == NoContent ==>
      WroteBook(s, r.store, BookKey(authorId, id), body.value)
    ensures r.outcome == NoContent ==> |r.store.books| == |s.books|
    ensures Valid(r.store)
  {
    match body
    case None => Reply(BadRequest, s)
    case Some(f) =>
      var errors := BodyErrors(BookForUpdateKey, f, annotations);
      if errors != [] then Reply(Unprocessable(errors), s)
      else if !AuthorExists(s, authorId) then Reply(NotFound, s)
      else
        match Repository.GetBookForAuthor(s, authorId, id)
        case None =>
          var book := NewBook(f, id, authorId);
          var t := AddBookForAuthor(s, authorId, book);
          if !saveOk then Reply(Fatal, s)
          else Reply(Created(GetBookForAuthorRoute(authorId, id), BookBody(ToBookDto(book))), t)
        case Some(existing) =>
          var t := Repository.UpdateBookForAuthor(s, ApplyForm(f, existing));
          if !saveOk then Reply(Fatal, s) else Reply(NoContent, t)
  }

  /** The form a PATCH edits: a default form when the book is missing, the
      stored book's projection when it is present. */
  function PatchBase(s: Store, authorId: Guid, id: Guid): (f: BookForm)
    ensures BookKey(authorId, id) !in s.books ==> f == EmptyForm
    ensures BookKey(authorId, id) in s.books ==> f == Project(s.books[BookKey(authorId, id)])
  {
    match Repository.GetBookForAuthor(s, authorId, id)
    case None => EmptyForm
    case Some(b) => Project(b)
  }

  /** `PATCH api/authors/{authorId}/books/{id}`. A null document is a bad
      request and an unknown author is not found, before any operation is
      looked at. The operations are applied to the form of `PatchBase`,
      the merged form is validated, and only then is it stored: as a new
      book under the requested id when the book was missing (created), or
      onto the existing book (no-content). */
  function PartiallyUpdateBookForAuthor(s: Store, authorId: Guid, id: Guid, patch: Option<PatchDocument>,
                                        annotations: Annotations, saveOk: bool): (r: Reply)
    requires Valid(s)
    ensures patch.None? ==> r == Reply(BadRequest, s)
    ensures patch.Some? && authorId !in s.authors ==> r == Reply(NotFound, s)
    ensures r.outcome.Unprocessable? <==>
      patch.Some? && authorId in s.authors && PatchErrors(ApplyTo(patch.value, PatchBase(s, authorId, id)), annotations) != []
    ensures r.outcome.Unprocessable? ==> r.outcome.errors == PatchErrors(ApplyTo(patch.value, PatchBase(s, authorId, id)), annotations)
    ensures !(r.outcome.Created? || r.outcome == NoContent) ==> r.store == s
    ensures patch.Some? && authorId in s.authors && PatchErrors(ApplyTo(patch.value, PatchBase(s, authorId, id)), annotations) == [] ==>
      (r.outcome == Fatal <==> !saveOk)
    ensures r.outcome.Created? <==>
      (r.outcome != Fatal && authorId in s.authors && BookKey(authorId, id) !in s.books
       && patch.Some? && PatchErrors(ApplyTo(patch.value, EmptyForm), annotations) == [])
    ensures r.outcome == NoContent <==>
      (r.outcome != Fatal && BookKey(authorId, id) in s.books
       && patch.Some? && PatchErrors(ApplyTo(patch.value, Project(s.books[BookKey(authorId, id)])), annotations) == [])
    ensures r.outcome.Created? ==>
      && BookKey(authorId, id) in r.store.books
      && r.outcome == Created(GetBookForAuthorRoute(authorId, id), BookBody(ToBookDto(r.store.books[BookKey(authorId, id)])))
      && |r.store.books| == |s.books| + 1
    ensures r.outcome.Created? || r.outcome == NoContent ==>
      WroteBook(s, r.store, BookKey(authorId, id), ApplyTo(patch.value, PatchBase(s, authorId, id)))
    ensures Valid(r.store)
  {
    match patch
    case None => Reply(BadRequest, s)
    case Some(doc) =>
      if !AuthorExists(s, authorId) then Reply(NotFound, s)
      else
        match Repository.GetBookForAuthor(s, authorId, id)
        case None =>
          var form := ApplyTo(doc, EmptyForm);
          var errors := PatchErrors(form, annotations);
          if errors != [] then Reply(Unprocessable(errors), s)
          else
            var book := NewBook(form, id, authorId);
            var t := AddBookForAuthor(s, authorId, book);
            if !saveOk then Reply(Fatal, s)
            else Reply(Created(GetBookForAuthorRoute(authorId, id), BookBody(ToBookDto(book))), t)
        case Some(existing) =>
          var form := ApplyTo(doc, Project(existing));
          var errors := PatchErrors(form, annotations);
          if errors != [] then Reply(Unprocessable(errors), s)
          else
            var t := Repository.UpdateBookForAuthor(s, ApplyForm(form, existing));
            if !saveOk then Reply(Fatal, s) else Reply(NoContent, t)
  }

  /** Repeating a successful PUT leaves the store as the first one did,
      and the repeat answers no-content. */
  lemma PutIdempotent(s: Store, authorId: Guid, id: Guid, f: BookForm, annotations: Annotations)
    requires Valid(s)
    ensures var r1 := UpdateBookForAuthor(s, authorId, id, Some(f), annotations, true);
            var r2 := UpdateBookForAuthor(r1.store, authorId, id, Some(f), annotations, true);
            r2.store == r1.store
            && (r1.outcome.Created? || r1.outcome == NoContent ==> r2.outcome == NoContent)
  {
  }

  /** The patch that replaces both fields with a form's values. */
  function FullReplacement(f: BookForm): (doc: PatchDocument)
    ensures forall g :: ApplyTo(doc, g) == f
  {
    var doc := [Replace(Title, f.title), Replace(Description, f.description)];
    assert forall g :: ApplyTo(doc, g) == f by {
      forall g ensures ApplyTo(doc, g) == f {
        var g1 := ApplyOperation(doc[0], g);
        assert ApplyTo(doc, g) == ApplyTo(doc[1..], g1);
        assert ApplyTo(doc[1..], g1) == ApplyTo([], ApplyOperation(doc[1], g1));
      }
    }
    doc
  }

  /** On a known author, a PATCH that replaces both fields behaves as a PUT
      of the same form unless both the annotations and the title rule
      reject it (then the two list the same errors in different orders):
      same outcome, same store. */
  lemma FullPatchIsPut(s: Store, authorId: Guid, id: Guid, f: BookForm, annotations: Annotations, saveOk: bool)
    requires Valid(s)
    requires authorId in s.authors
    requires annotations(f) == [] || f.title != f.description
    ensures PartiallyUpdateBookForAuthor(s, authorId, id, Some(FullReplacement(f)), annotations, saveOk)
         == UpdateBookForAuthor(s, authorId, id, Some(f), annotations, saveOk)
  {
  }

  /** The two upsert paths order their checks differently: for an unknown
      author a PUT whose title equals its description is unprocessable,
      while the PATCH carrying the same values is not found. */
  lemma UnknownAuthorCheckOrder(s: Store, authorId: Guid, id: Guid, f: BookForm, annotations: Annotations, saveOk: bool)
    requires Valid(s)
    requires authorId !in s.authors
    requires f.title == f.description
    ensures UpdateBookForAuthor(s, authorId, id, Some(f), annotations, saveOk).outcome.Unprocessable?
    ensures PartiallyUpdateBookForAuthor(s, authorId, id, Some(FullReplacement(f)), annotations, saveOk).outcome == NotFound
  {
  }

  /** A PATCH that sets an existing book's description to its unchanged
      title is unprocessable and leaves the store untouched. */
  lemma PatchDescriptionOntoTitleRejected(s: Store, authorId: Guid, id: Guid, annotations: Annotations, saveOk: bool)
    requires Valid(s)
    requires BookKey(authorId, id) in s.books
    ensures var title := s.books[BookKey(authorId, id)].title;
            var r := PartiallyUpdateBookForAuthor(s, authorId, id, Some([Replace(Description, title)]), annotations, saveOk);
            r.outcome.Unprocessable? && r.store == s
            && r.outcome.errors[0] == ModelError(BookForUpdateKey, DescriptionMessage)
  {
    var existing := s.books[BookKey(authorId, id)];
    var doc := [Replace(Description, existing.title)];
    assert ApplyTo(doc, Project(existing)) == ApplyTo([], ApplyOperation(doc[0], Project(existing)));
  }

  /** An empty PATCH on a missing book leaves both fields of the default
      form null, which the title rule rejects. */
  lemma EmptyPatchOnMissingBookRejected(s: Store, authorId: Guid, id: Guid, annotations: Annotations, saveOk: bool)
    requires Valid(s)
    requires authorId in s.authors && BookKey(authorId, id) !in s.books
    ensures var r := PartiallyUpdateBookForAuthor(s, authorId, id, Some([]), annotations, saveOk);
            r.outcome.Unprocessable? && r.store == s
  {
  }

  /** PUT onto a book the author does not have yet, with a valid body,
      creates it under exactly the requested id. */
  lemma PutCreatesRequestedId(s: Store, authorId: Guid, id: Guid, f: BookForm, annotations: Annotations)
    requires Valid(s)
    requires authorId in s.authors && BookKey(authorId, id) !in s.books
    requires f.title != f.description && annotations(f) == []
    ensures var r := UpdateBookForAuthor(s, authorId, id, Some(f), annotations, true);
            && r.outcome.Created? && r.outcome.route == GetBookForAuthorRoute(authorId, id)
            && r.outcome.body.book.id == id && r.outcome.body.book.authorId == authorId
            && BookKey(authorId, id) in r.store.books
  {
  }
}
