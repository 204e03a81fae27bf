/** `AuthorsResourceParameters`: the paging and filtering input of the
    author listing. Its page size clamps itself at 20 whenever it is
    assigned, so no reachable object ever holds a larger page size. */
module ResourceParameters {
  import opened Common

  const MaxPageSize: Int32 := 20
  const DefaultPageNumber: Int32 := 1
  const DefaultPageSize: Int32 := 10

  /** The four properties of the parameter object; `pageSize` is the
      private backing field `_pageSize` behind the clamping setter. */
  datatype AuthorsResourceParameters = AuthorsResourceParameters(
    pageNumber: Int32,
    genre: NString,
    searchQuery: NString,
    pageSize: Int32)

  /** The invariant the setter maintains. */
  predicate WithinMaxPageSize(p: AuthorsResourceParameters)
  {
    p.pageSize <= MaxPageSize
  }

  /** The object `new AuthorsResourceParameters()` produces. */
  function Fresh(): (p: AuthorsResourceParameters)
    ensures p.pageNumber == 1 && p.pageSize == 10
    ensures p.genre == None && p.searchQuery == None
    ensures WithinMaxPageSize(p)
  {
    AuthorsResourceParameters(DefaultPageNumber, None, None, DefaultPageSize)
  }

  /** The `PageSize` setter: values above the maximum are replaced by the
      maximum; every other value, zero and negatives included, is kept. */
  function SetPageSize(p: AuthorsResourceParameters, value: Int32): (q: AuthorsResourceParameters)
    ensures value > 20 ==> q.pageSize == 20
    ensures value <= 20 ==> q.pageSize == value
    ensures WithinMaxPageSize(q)
    ensures q.pageNumber == p.pageNumber && q.genre == p.genre && q.searchQuery == p.searchQuery
  {
    p.(pageSize := if value > MaxPageSize then MaxPageSize else value)
  }

  /** One property assignment a caller (or the model binder) can make. */
  datatype Assignment =
    | AssignPageNumber(pageNumber: Int32)
    | AssignPageSize(pageSize: Int32)
    | AssignGenre(genre: NString)
    | AssignSearchQuery(searchQuery: NString)

  function Assign(p: AuthorsResourceParameters, a: Assignment): AuthorsResourceParameters
  {
    match a
    case AssignPageNumber(n) => p.(pageNumber := n)
    case AssignPageSize(n) => SetPageSize(p, n)
    case AssignGenre(g) => p.(genre := g)
    case AssignSearchQuery(q) => p.(searchQuery := q)
  }

  /** The object after the assignments `steps`, made in order. */
  function AssignAll(p: AuthorsResourceParameters, steps: seq<Assignment>): AuthorsResourceParameters
    decreases |steps|
  {
    if steps == [] then p else AssignAll(Assign(p, steps[0]), steps[1..])
  }

  /** Every assignment sequence preserves the page-size bound. */
  lemma {:induction false} AssignAllKeepsBound(p: AuthorsResourceParameters, steps: seq<Assignment>)
    requires WithinMaxPageSize(p)
    ensures WithinMaxPageSize(AssignAll(p, steps))
    decreases |steps|
  {
    if steps != [] {
      AssignAllKeepsBound(Assign(p, steps[0]), steps[1..]);
    }
  }

  /** Every object reachable from construction by property assignments
      has a page size of at most 20. */
  lemma ReachableWithinMaxPageSize(steps: seq<Assignment>)
    ensures AssignAll(Fresh(), steps).pageSize <= 20
  {
    AssignAllKeepsBound(Fresh(), steps);
  }

  /** Writing back the page size just read is a no-op on every reachable
      object, and assigning the same value twice is the same as once. */
  lemma SetPageSizeIdempotent(p: AuthorsResourceParameters, value: Int32)
    requires WithinMaxPageSize(p)
    ensures SetPageSize(p, p.pageSize) == p
    ensures SetPageSize(SetPageSize(p, value), value) == SetPageSize(p, value)
  {
  }
}
