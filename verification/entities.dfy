/** The two entities, the transfer objects the controllers accept and
    return, and the field-by-field mappings between them that stand in
    for the mapper configuration. */
module Entities {
  import opened Common

  /** An entity identifier. Identifiers are abstract: the model only
      compares them and asks for fresh ones. */
  type Guid = nat

  datatype Author = Author(
    id: Guid,
    firstName: string,
    lastName: string,
    dateOfBirth: int,
    genre: string)

  /** The body of `POST api/authors` and one element of a batch create. */
  datatype AuthorForCreation = AuthorForCreation(
    firstName: string,
    lastName: string,
    dateOfBirth: int,
    genre: string)

  /** The representation of an author sent back to clients. */
  datatype AuthorDto = AuthorDto(
    id: Guid,
    firstName: string,
    lastName: string,
    dateOfBirth: int,
    genre: string)

  datatype Book = Book(
    id: Guid,
    title: NString,
    description: NString,
    authorId: Guid)

  /** The body of a book POST or PUT, and the object a PATCH edits: the two
      client-editable fields of a book. */
  datatype BookForm = BookForm(title: NString, description: NString)

  /** The representation of a book sent back to clients. */
  datatype BookDto = BookDto(
    id: Guid,
    title: NString,
    description: NString,
    authorId: Guid)

  /** `new BookForUpdateDto()`: both fields null. */
  const EmptyForm: BookForm := BookForm(None, None)

  /** Entity for a new author with the identifier the store assigns. */
  function NewAuthor(c: AuthorForCreation, id: Guid): (a: Author)
    ensures a.id == id
    ensures AuthorDetails(a) == c
  {
    Author(id, c.firstName, c.lastName, c.dateOfBirth, c.genre)
  }

  /** The creation payload an author could have been made from. */
  function AuthorDetails(a: Author): AuthorForCreation
  {
    AuthorForCreation(a.firstName, a.lastName, a.dateOfBirth, a.genre)
  }

  function ToAuthorDto(a: Author): (d: AuthorDto)
    ensures d.id == a.id
    ensures AuthorForCreation(d.firstName, d.lastName, d.dateOfBirth, d.genre) == AuthorDetails(a)
  {
    AuthorDto(a.id, a.firstName, a.lastName, a.dateOfBirth, a.genre)
  }

  function ToAuthorDtos(authors: seq<Author>): (ds: seq<AuthorDto>)
    ensures |ds| == |authors|
    ensures forall i :: 0 <= i < |authors| ==> ds[i] == ToAuthorDto(authors[i])
  {
    seq(|authors|, i requires 0 <= i < |authors| => ToAuthorDto(authors[i]))
  }

  /** The editable fields of a stored book, as a PATCH sees them before
      its operations are applied. */
  function Project(b: Book): (f: BookForm)
    ensures Book(b.id, f.title, f.description, b.authorId) == b
  {
    BookForm(b.title, b.description)
  }

  /** Entity for a new book built from a form, under the given identifiers. */
  function NewBook(f: BookForm, id: Guid, authorId: Guid): (b: Book)
    ensures b.id == id && b.authorId == authorId
    ensures Project(b) == f
  {
    Book(id, f.title, f.description, authorId)
  }

  /** Copying a form onto an existing book: the editable fields are
      replaced, the identifiers are kept. */
  function ApplyForm(f: BookForm, b: Book): (b': Book)
    ensures b'.id == b.id && b'.authorId == b.authorId
    ensures Project(b') == f
  {
    b.(title := f.title, description := f.description)
  }

  function ToBookDto(b: Book): (d: BookDto)
    ensures d.id == b.id && d.authorId == b.authorId
    ensures BookForm(d.title, d.description) == Project(b)
  {
    BookDto(b.id, b.title, b.description, b.authorId)
  }

  /** Projecting a book and copying the projection back changes nothing;
      copying a form and projecting it back gives the form. */
  lemma ProjectApplyRoundTrip(b: Book, f: BookForm)
    ensures ApplyForm(Project(b), b) == b
    ensures Project(ApplyForm(f, b)) == f
    ensures ApplyForm(f, ApplyForm(f, b)) == ApplyForm(f, b)
  {
  }
}
