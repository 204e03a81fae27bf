/** `api/authorcollections`: creating a batch of authors with one save,
    and fetching a batch back by the comma-joined list of its ids. */
module AuthorCollectionsController {
  import opened Common
  import opened Entities
  import opened Repository
  import opened Outcomes
  import opened IdText

  /** The entities for a batch, each under the fresh id the store hands
      out for it. */
  function NewAuthors(payloads: seq<AuthorForCreation>, ids: seq<Guid>): (authors: seq<Author>)
    requires |ids| == |payloads|
    ensures |authors| == |payloads|
    ensures AuthorIds(authors) == ids
    ensures forall i :: 0 <= i < |payloads| ==> AuthorDetails(authors[i]) == payloads[i]
  {
    seq(|payloads|, i requires 0 <= i < |payloads| => NewAuthor(payloads[i], ids[i]))
  }

  function DtoIds(dtos: seq<AuthorDto>): (ids: seq<Guid>)
    ensures |ids| == |dtos|
    ensures forall i :: 0 <= i < |dtos| ==> ids[i] == dtos[i].id
  {
    seq(|dtos|, i requires 0 <= i < |dtos| => dtos[i].id)
  }

  /** `POST api/authorcollections`. A null collection is a bad request.
      Otherwise every payload becomes an author, all of them are added and
      saved together; a failed save is fatal. The response lists the new
      authors in payload order and points at the composite key of their
      ids, in the same order. */
  function CreateAuthorCollection(s: Store, body: Option<seq<AuthorForCreation>>, newIds: seq<Guid>, saveOk: bool): (r: Reply)
    requires body.Some? ==> |newIds| == |body.value|
    requires Distinct(newIds)
    requires forall i :: 0 <= i < |newIds| ==> newIds[i] !in s.authors
    ensures body.None? ==> r == Reply(BadRequest, s)
    ensures body.Some? && !saveOk ==> r == Reply(Fatal, s)
    ensures r.outcome.Created? <==> body.Some? && saveOk
    ensures r.outcome.Created? ==>
      && r.outcome.body.AuthorListBody?
      && |r.outcome.body.authors| == |body.value|
      && r.outcome.route == GetAuthorCollectionRoute(CompositeId(DtoIds(r.outcome.body.authors)))
      && DtoIds(r.outcome.body.authors) == newIds
      && r.store.books == s.books
      && r.store.authors.Keys == s.authors.Keys + Elements(newIds)
      && |r.store.authors| == |s.authors| + |body.value|
      && (forall i :: 0 <= i < |newIds| ==>
            && AuthorDetails(r.store.authors[newIds[i]]) == body.value[i]
            && r.outcome.body.authors[i] == ToAuthorDto(r.store.authors[newIds[i]]))
      && (forall id :: id in s.authors ==> r.store.authors[id] == s.authors[id])
    ensures Valid(s) ==> Valid(r.store)
  {
    match body
    case None => Reply(BadRequest, s)
    case Some(payloads) =>
      var authors := NewAuthors(payloads, newIds);
      var t := AddAuthors(s, authors);
      if !saveOk then Reply(Fatal, s)
      else
        var dtos := ToAuthorDtos(authors);
        assert DtoIds(dtos) == newIds;
        NewAuthorsCount(s, newIds);
        Reply(Created(GetAuthorCollectionRoute(CompositeId(DtoIds(dtos))), AuthorListBody(dtos)), t)
  }

  /** Adding fresh, pairwise distinct ids grows the author table by their
      number. */
  lemma NewAuthorsCount(s: Store, newIds: seq<Guid>)
    requires Distinct(newIds)
    requires forall i :: 0 <= i < |newIds| ==> newIds[i] !in s.authors
    ensures |s.authors.Keys + Elements(newIds)| == |s.authors| + |newIds|
  {
    DistinctCardinality(newIds);
    assert s.authors.Keys !! Elements(newIds);
  }

  /** `GET api/authorcollections/({ids})`. A missing id list is a bad
      request; the answer is not-found unless the lookup finds exactly one
      author per requested id, so a partial batch is never returned. */
  function GetAuthorCollection(s: Store, ids: Option<seq<Guid>>): (r: Reply)
    ensures r.store == s
    ensures r.outcome == BadRequest <==> ids.None?
    ensures r.outcome == NotFound <==>
      ids.Some? && !(Distinct(ids.value) && forall i :: 0 <= i < |ids.value| ==> ids.value[i] in s.authors)
    ensures r.outcome.Ok? ==>
      && ids.Some?
      && r.outcome.body.AuthorListBody?
      && |r.outcome.body.authors| == |ids.value|
      && forall i :: 0 <= i < |ids.value| ==> r.outcome.body.authors[i] == ToAuthorDto(s.authors[ids.value[i]])
    ensures r.outcome in {BadRequest, NotFound} || r.outcome.Ok?
  {
    match ids
    case None => Reply(BadRequest, s)
    case Some(requested) =>
      var found := GetAuthorsByIds(s, requested);
      if |requested| != |found| then Reply(NotFound, s)
      else Reply(Ok(AuthorListBody(ToAuthorDtos(found))), s)
  }

  /** Looking up a list of distinct stored ids answers with exactly those
      authors, in the order requested. */
  lemma LookupOfStoredIds(t: Store, ids: seq<Guid>, expected: seq<AuthorDto>)
    requires Distinct(ids)
    requires forall i :: 0 <= i < |ids| ==> ids[i] in t.authors
    requires |expected| == |ids|
    requires forall i :: 0 <= i < |ids| ==> expected[i] == ToAuthorDto(t.authors[ids[i]])
    ensures GetAuthorCollection(t, Some(ids)) == Reply(Ok(AuthorListBody(expected)), t)
  {
  }

  /** After a saved batch create, looking the batch up by the ids it was
      given returns exactly the authors the creation returned, in order. */
  lemma BatchCreateThenLookup(s: Store, payloads: seq<AuthorForCreation>, newIds: seq<Guid>)
    requires |newIds| == |payloads|
    requires Distinct(newIds)
    requires forall i :: 0 <= i < |newIds| ==> newIds[i] !in s.authors
    ensures var created := CreateAuthorCollection(s, Some(payloads), newIds, true);
            GetAuthorCollection(created.store, Some(newIds)) == Reply(Ok(created.outcome.body), created.store)
  {
    var created := CreateAuthorCollection(s, Some(payloads), newIds, true);
    var t := created.store;
    forall i | 0 <= i < |newIds| ensures newIds[i] in t.authors {
      assert newIds[i] in Elements(newIds);
    }
    LookupOfStoredIds(t, newIds, created.outcome.body.authors);
  }

  /** The composite key in the response to a saved, non-empty batch create
      reads back as the new ids, in order. */
  lemma BatchKeyReadsBack(s: Store, payloads: seq<AuthorForCreation>, newIds: seq<Guid>)
    requires |newIds| == |payloads| > 0
    requires Distinct(newIds)
    requires forall i :: 0 <= i < |newIds| ==> newIds[i] !in s.authors
    ensures ParseIdList(CreateAuthorCollection(s, Some(payloads), newIds, true).outcome.route.ids) == Some(newIds)
  {
    CompositeIdRoundTrip(newIds);
  }
}
