/** The library repository as the controllers see it: an abstract store of
    authors keyed by id and books keyed by (author id, book id), with the
    lookups and pending mutations the controllers call. Whether a batch of
    pending mutations is committed is decided by the `Save` oracle, which
    the controller functions take as a boolean parameter. */
module Repository {
  import opened Common
  import opened Entities

  datatype BookKey = BookKey(authorId: Guid, bookId: Guid)

  datatype Store = Store(authors: map<Guid, Author>, books: map<BookKey, Book>)

  /** Referential integrity of the store: every author is filed under its
      own id, and every book is filed under its own ids and belongs to a
      stored author. */
  ghost predicate Valid(s: Store)
  {
    && (forall id :: id in s.authors ==> s.authors[id].id == id)
    && (forall k :: k in s.books ==>
          k.authorId in s.authors && s.books[k].id == k.bookId && s.books[k].authorId == k.authorId)
  }

  /** Whether some stored author has the id. */
  predicate AuthorExists(s: Store, id: Guid): (b: bool)
    ensures Valid(s) ==> (b <==> exists a :: a in s.authors.Values && a.id == id)
  {
    if id in s.authors then
      assert s.authors[id] in s.authors.Values;
      true
    else
      false
  }

  function GetAuthor(s: Store, id: Guid): (r: Option<Author>)
    ensures r.Some? <==> AuthorExists(s, id)
    ensures r.Some? ==> r.value == s.authors[id]
  {
    if id in s.authors then Some(s.authors[id]) else None
  }

  function GetBookForAuthor(s: Store, authorId: Guid, id: Guid): (r: Option<Book>)
    ensures r.Some? <==> BookKey(authorId, id) in s.books
    ensures r.Some? ==> r.value == s.books[BookKey(authorId, id)]
  {
    var k := BookKey(authorId, id);
    if k in s.books then Some(s.books[k]) else None
  }

  /** The books filed under one author. */
  function GetBooksForAuthor(s: Store, authorId: Guid): (r: set<Book>)
    ensures forall b :: b in r <==> exists k :: k in s.books && k.authorId == authorId && s.books[k] == b
  {
    set k | k in s.books && k.authorId == authorId :: s.books[k]
  }

  /** The lookup by a list of ids: the stored authors whose id is listed,
      each once, in the order of their first mention. Only when every id is
      listed once and stored does the result have one author per id. */
  function GetAuthorsByIds(s: Store, ids: seq<Guid>): (r: seq<Author>)
    ensures |r| <= |ids|
    ensures |r| == |ids| <==> Distinct(ids) && forall i :: 0 <= i < |ids| ==> ids[i] in s.authors
    ensures |r| == |ids| ==> forall i :: 0 <= i < |ids| ==> r[i] == s.authors[ids[i]]
    ensures forall j :: 0 <= j < |r| ==> r[j] in s.authors.Values
    decreases |ids|
  {
    if ids == [] then []
    else
      var prefix := ids[..|ids| - 1];
      var id := ids[|ids| - 1];
      var found := GetAuthorsByIds(s, prefix);
      if id in s.authors && id !in prefix then found + [s.authors[id]] else found
  }

  /** Files the author under its id. */
  function AddAuthor(s: Store, a: Author): (t: Store)
    ensures t.books == s.books
    ensures t.authors.Keys == s.authors.Keys + {a.id}
    ensures t.authors[a.id] == a
    ensures forall id :: id in s.authors && id != a.id ==> t.authors[id] == s.authors[id]
    ensures Valid(s) ==> Valid(t)
  {
    s.(authors := s.authors[a.id := a])
  }

  /** Files each author of the batch under its id, in order. */
  function AddAuthors(s: Store, authors: seq<Author>): (t: Store)
    requires Distinct(AuthorIds(authors))
    ensures t.books == s.books
    ensures t.authors.Keys == s.authors.Keys + Elements(AuthorIds(authors))
    ensures forall i :: 0 <= i < |authors| ==> t.authors[authors[i].id] == authors[i]
    ensures forall id :: id in s.authors && id !in AuthorIds(authors) ==> t.authors[id] == s.authors[id]
    ensures Valid(s) ==> Valid(t)
    decreases |authors|
  {
    if authors == [] then s
    else
      assert AuthorIds(authors[1..]) == AuthorIds(authors)[1..];
      AddAuthors(AddAuthor(s, authors[0]), authors[1..])
  }

  function AuthorIds(authors: seq<Author>): (ids: seq<Guid>)
    ensures |ids| == |authors|
    ensures forall i :: 0 <= i < |authors| ==> ids[i] == authors[i].id
  {
    seq(|authors|, i requires 0 <= i < |authors| => authors[i].id)
  }

  /** Removes the author, and with it every book filed under it (the
      author-to-books relationship deletes in cascade). */
  function DeleteAuthor(s: Store, id: Guid): (t: Store)
    ensures t.authors.Keys == s.authors.Keys - {id}
    ensures forall a :: a in t.authors ==> t.authors[a] == s.authors[a]
    ensures forall k :: k in t.books <==> k in s.books && k.authorId != id
    ensures forall k :: k in t.books ==> t.books[k] == s.books[k]
    ensures Valid(s) ==> Valid(t)
  {
    Store(s.authors - {id}, map k | k in s.books && k.authorId != id :: s.books[k])
  }

  /** Files the book under the given author, with its author reference set
      to that author; no other book changes. */
  function AddBookForAuthor(s: Store, authorId: Guid, b: Book): (t: Store)
    ensures t.authors == s.authors
    ensures t.books.Keys == s.books.Keys + {BookKey(authorId, b.id)}
    ensures forall k :: k in s.books && k != BookKey(authorId, b.id) ==> t.books[k] == s.books[k]
    ensures t.books[BookKey(authorId, b.id)] == Book(b.id, b.title, b.description, authorId)
    ensures Valid(s) && authorId in s.authors ==> Valid(t)
  {
    s.(books := s.books[BookKey(authorId, b.id) := b.(authorId := authorId)])
  }

  /** Stores the new state of a book under its own ids; no other book
      changes. */
  function UpdateBookForAuthor(s: Store, b: Book): (t: Store)
    ensures t.authors == s.authors
    ensures t.books.Keys == s.books.Keys + {BookKey(b.authorId, b.id)}
    ensures forall k :: k in s.books && k != BookKey(b.authorId, b.id) ==> t.books[k] == s.books[k]
    ensures t.books[BookKey(b.authorId, b.id)] == b
    ensures Valid(s) && BookKey(b.authorId, b.id) in s.books ==> Valid(t)
  {
    s.(books := s.books[BookKey(b.authorId, b.id) := b])
  }

  /** Removes the book filed under the book's own ids, and nothing else. */
  function DeleteBook(s: Store, b: Book): (t: Store)
    ensures t.authors == s.authors
    ensures t.books.Keys == s.books.Keys - {BookKey(b.authorId, b.id)}
    ensures forall k :: k in t.books ==> t.books[k] == s.books[k]
    ensures Valid(s) ==> Valid(t)
  {
    s.(books := s.books - {BookKey(b.authorId, b.id)})
  }
}
