/** The document store of the .NET backend: documents owned by a user id, whose JSON content is either
    the block list they were created with or the text, images and videos of their last update, with
    lookup, partial update, deletion and a paginated search ordered by last update. */
module BackendDocumentService {
  import opened Common
  import Text
  import Tables
  import Sorting
  import Pagination

  /** One block of the block-based content a document or template is created with: its `Type` and its
      JSON `Data`, kept as raw text. */
  datatype ContentBlock = ContentBlock(kind: string, data: string)

  /** What the `Content` JSON column holds: the serialised block list of a creation, or the serialised
      text, images and videos of an update. */
  datatype StoredContent =
    | BlockList(blocks: seq<ContentBlock>)
    | Rich(text: string, images: seq<string>, videos: seq<string>)

  /** A row of the `Documents` table. */
  datatype Document = Document(id: Id, title: string, content: StoredContent, ownerId: Id, createdAt: nat, updatedAt: nat)

  /** The content an update supplies. */
  datatype ContentUpdate = ContentUpdate(text: string, images: seq<string>, videos: seq<string>)

  /** The query of `GetAllAsync`. */
  datatype DocumentQuery = DocumentQuery(ownerId: Option<Id>, search: Option<string>, page: int, pageSize: int)

  predicate WellFormed(docs: map<Id, Document>, bound: nat) {
    Tables.Bounded(docs, bound) && forall k :: k in docs ==> docs[k].id == k
  }

  /** `GetContent().Text`: deserialising the content as text, images and videos. A block list has no
      `Text` property, so it reads as the default empty text. */
  function ContentText(c: StoredContent): string {
    match c
    case BlockList(_) => ""
    case Rich(text, _, _) => text
  }

  /** `GetByIdAsync`: the document, or `null`. */
  function GetByIdAsync(docs: map<Id, Document>, id: Id): (r: Option<Document>)
    ensures r.Some? <==> id in docs
    ensures r.Some? ==> r.value == docs[id]
  {
    if id in docs then Some(docs[id]) else None
  }

  /** The document after `UpdateAsync`: the title is replaced only by one that is not null, empty or
      whitespace; the content only when one is supplied; `UpdatedAt` always. */
  function Updated(d: Document, title: Option<string>, content: Option<ContentUpdate>, now: nat): (r: Document)
    ensures r.id == d.id && r.ownerId == d.ownerId && r.createdAt == d.createdAt && r.updatedAt == now
    ensures r.title == (if Text.IsNullOrWhiteSpace(title) then d.title else title.value)
    ensures content.None? ==> r.content == d.content
    ensures content.Some? ==> r.content.Rich? && ContentText(r.content) == content.value.text
    ensures content.Some? ==> r.content.images == content.value.images && r.content.videos == content.value.videos
  {
    d.(title := if Text.IsNullOrWhiteSpace(title) then d.title else title.value,
       content := if content.Some? then Rich(content.value.text, content.value.images, content.value.videos) else d.content,
       updatedAt := now)
  }

  // ----- GetAllAsync -----

  /** The filters of `GetAllAsync`: the owner when one is given and, when the search term is not null,
      empty or whitespace, a title or content text containing it (ordinal comparison). */
  predicate MatchesQuery(q: DocumentQuery, d: Document) {
    && (q.ownerId.Some? ==> d.ownerId == q.ownerId.value)
    && (!Text.IsNullOrWhiteSpace(q.search) ==>
          Text.Contains(d.title, q.search.value) || Text.Contains(ContentText(d.content), q.search.value))
  }

  function QueryFilter(q: DocumentQuery): Document -> bool {
    (d: Document) => MatchesQuery(q, d)
  }

  ghost function MatchingIds(docs: map<Id, Document>, q: DocumentQuery): set<Id> {
    set k | k in docs && MatchesQuery(q, docs[k])
  }

  /** `OrderByDescending(d => d.UpdatedAt)`. */
  predicate UpdatedLater(a: Document, b: Document) {
    a.updatedAt >= b.updatedAt
  }

  /** All documents the query selects, most recently updated first. */
  function Listing(docs: map<Id, Document>, bound: nat, q: DocumentQuery): (rows: seq<Document>)
    ensures Sorting.SortedBy(rows, UpdatedLater)
  {
    Tables.Query(docs, bound, QueryFilter(q), UpdatedLater)
  }

  /** The listing holds each stored document the query selects exactly once, and nothing else. */
  lemma ListingExact(docs: map<Id, Document>, bound: nat, q: DocumentQuery)
    requires WellFormed(docs, bound)
    ensures forall d :: d in Listing(docs, bound, q) ==> d.id in docs && docs[d.id] == d && MatchesQuery(q, d)
    ensures forall k :: k in docs && MatchesQuery(q, docs[k]) ==> docs[k] in Listing(docs, bound, q)
    ensures |Listing(docs, bound, q)| == |MatchingIds(docs, q)|
  {
    Tables.QueryExact(docs, bound, QueryFilter(q), UpdatedLater, (d: Document) => d.id);
    assert Tables.MatchingKeys(docs, QueryFilter(q)) == MatchingIds(docs, q);
  }

  /** `GetAllAsync` as intended: page `Page` of `PageSize` of the selected documents, most recently
      updated first. */
  function GetAllAsync(docs: map<Id, Document>, bound: nat, q: DocumentQuery): (r: seq<Document>)
    requires WellFormed(docs, bound) && q.page >= 1 && q.pageSize >= 1
    ensures |r| <= q.pageSize
    ensures forall d :: d in r ==> d.id in docs && docs[d.id] == d && MatchesQuery(q, d)
    ensures Sorting.SortedBy(r, UpdatedLater)
    ensures r == Pagination.Paginate(Listing(docs, bound, q), q.page, q.pageSize)
  {
    ListingExact(docs, bound, q);
    var rows := Listing(docs, bound, q);
    Pagination.PageKeepsOrder(rows, q.page, q.pageSize, UpdatedLater);
    Pagination.Paginate(rows, q.page, q.pageSize)
  }

  /** `GetAllAsync` as written: the content filter calls a method of the entity, which the query
      provider cannot turn into SQL, so any search that is not blank raises InvalidOperationException;
      without one, the result is the intended page. */
  function GetAllAsyncAsWritten(docs: map<Id, Document>, bound: nat, q: DocumentQuery): (r: Result<seq<Document>>)
    requires WellFormed(docs, bound) && q.page >= 1 && q.pageSize >= 1
    ensures !Text.IsNullOrWhiteSpace(q.search) <==> r == Err(InvalidOperation)
    ensures Text.IsNullOrWhiteSpace(q.search) ==> r == Ok(GetAllAsync(docs, bound, q))
  {
    if Text.IsNullOrWhiteSpace(q.search) then Ok(GetAllAsync(docs, bound, q)) else Err(InvalidOperation)
  }

  /** A search matching only a stored document's text finds it through the intended query, while the
      written one fails for every such search. */
  lemma ContentSearchFinding(docs: map<Id, Document>, bound: nat, q: DocumentQuery, id: Id)
    requires WellFormed(docs, bound) && q.page == 1 && q.pageSize >= |docs|
    requires q.ownerId.None? && !Text.IsNullOrWhiteSpace(q.search) && id in docs
    requires Text.Contains(ContentText(docs[id].content), q.search.value)
    ensures docs[id] in GetAllAsync(docs, bound, q)
    ensures GetAllAsyncAsWritten(docs, bound, q) == Err(InvalidOperation)
  {
    ListingExact(docs, bound, q);
    var rows := Listing(docs, bound, q);
    assert MatchingIds(docs, q) <= docs.Keys;
    assert |rows| <= |docs| by {
      Subcard(MatchingIds(docs, q), docs.Keys);
    }
    var i :| 0 <= i < |rows| && rows[i] == docs[id];
    assert GetAllAsync(docs, bound, q)[i] == rows[i];
  }

  lemma Subcard(a: set<Id>, b: set<Id>)
    requires a <= b
    ensures |a| <= |b|
  {
    assert b == a + (b - a);
  }

  /** A document whose content is still the block list it was created with is found by a search only
      through its title: block content has no searchable text. */
  lemma BlockContentSearchesTitle(q: DocumentQuery, d: Document)
    requires d.content.BlockList? && !Text.IsNullOrWhiteSpace(q.search)
    ensures MatchesQuery(q, d) <==> (q.ownerId.Some? ==> d.ownerId == q.ownerId.value) && Text.Contains(d.title, q.search.value)
  {
    assert q.search.value != "";
  }

  /** The document service of the .NET backend over its table. */
  class DocumentService {
    var documents: map<Id, Document>
    var nextId: Id

    ghost predicate Valid()
      reads this
    {
      WellFormed(documents, nextId)
    }

    /** Identity columns start at 1. */
    constructor ()
      ensures Valid() && documents == map[] && nextId == 1
    {
      documents := map[];
      nextId := 1;
    }

    /** `CreateAsync`: stores a new document with the block content it was given; no check is made. */
    method CreateAsync(title: string, ownerId: Id, blocks: seq<ContentBlock>, now: nat) returns (doc: Document)
      requires Valid()
      modifies this
      ensures Valid()
      ensures doc == Document(old(nextId), title, BlockList(blocks), ownerId, now, now)
      ensures old(nextId) !in old(documents) && documents == old(documents)[doc.id := doc]
    {
      doc := Document(nextId, title, BlockList(blocks), ownerId, now, now);
      documents := documents[nextId := doc];
      nextId := nextId + 1;
    }

    /** `UpdateAsync`: `null` for a missing document; otherwise the updated document, stored. */
    method UpdateAsync(id: Id, title: Option<string>, content: Option<ContentUpdate>, now: nat) returns (r: Option<Document>)
      requires Valid()
      modifies this
      ensures Valid() && nextId == old(nextId)
      ensures id !in old(documents) ==> r == None && documents == old(documents)
      ensures id in old(documents) ==>
        r == Some(Updated(old(documents)[id], title, content, now)) && documents == old(documents)[id := r.value]
    {
      var found := GetByIdAsync(documents, id);
      if found.None? {
        return None;
      }
      var doc := Updated(found.value, title, content, now);
      documents := documents[id := doc];
      r := Some(doc);
    }

    /** `DeleteAsync`: whether the document existed; if it did, it alone is removed. */
    method DeleteAsync(id: Id) returns (deleted: bool)
      requires Valid()
      modifies this
      ensures Valid() && nextId == old(nextId)
      ensures deleted <==> id in old(documents)
      ensures documents == old(documents) - {id}
    {
      deleted := id in documents;
      documents := documents - {id};
    }
  }

  /** A created document keeps its block content until an update; a whitespace title leaves the title
      alone while the new content is stored; deleting twice reports false the second time. */
  method UpdateScenario() returns (created: Document, updated: Option<Document>, first: bool, second: bool)
    ensures created.content.BlockList? && ContentText(created.content) == ""
    ensures updated.Some? && updated.value.title == "Spec" && ContentText(updated.value.content) == "draft"
    ensures first && !second
  {
    var service := new DocumentService();
    created := service.CreateAsync("Spec", 7, [ContentBlock("text", "{}")], 0);
    assert Text.IsNullOrWhiteSpace(Some("  "));
    updated := service.UpdateAsync(created.id, Some("  "), Some(ContentUpdate("draft", [], [])), 1);
    first := service.DeleteAsync(created.id);
    second := service.DeleteAsync(created.id);
  }
}
