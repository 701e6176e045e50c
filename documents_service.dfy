/** The document lifecycle of the NestJS backend: a `document` table whose rows are read and changed
    only by their owner (`userId`), a trash flag, bulk deletes and paginated listing. */
module DocumentsService {
  import opened Common
  import opened Text
  import Tables
  import Sorting
  import Pagination

  datatype DocumentStatus = DRAFT | PUBLISHED | IN_TRASH

  /** A row of the `document` table. */
  datatype Document = Document(
    id: Id,
    title: string,
    content: Option<string>,
    userId: Id,
    status: DocumentStatus,
    inTrash: bool,
    createdAt: nat,
    updatedAt: nat)

  /** The fields an update may carry; an absent field keeps its value. */
  datatype DocumentPatch = DocumentPatch(title: Option<string>, content: Option<string>)

  /** The query of `findAll`; an absent page or limit takes its default. */
  datatype DocumentQuery = DocumentQuery(
    userId: Id,
    search: Option<string>,
    status: Option<DocumentStatus>,
    page: Option<nat>,
    limit: Option<nat>)

  /** What `findAll` returns. */
  datatype DocumentPage = DocumentPage(data: seq<Document>, total: nat, page: nat, totalPages: nat)

  /** Each row is stored under its own id. */
  predicate IdKeyed(docs: map<Id, Document>) {
    forall k :: k in docs ==> docs[k].id == k
  }

  /** The table invariant of a store that hands out ids from `bound` on. */
  predicate WellFormed(docs: map<Id, Document>, bound: nat) {
    Tables.Bounded(docs, bound) && IdKeyed(docs)
  }

  /** The document exists and the caller owns it: the only way past `findOne`. */
  predicate Authorised(docs: map<Id, Document>, id: Id, userId: Id) {
    id in docs && docs[id].userId == userId
  }

  /** `findOne`, the authorisation gate every single-document operation passes first. */
  function FindOne(docs: map<Id, Document>, id: Id, userId: Id): (r: Result<Document>)
    ensures r.Ok? <==> Authorised(docs, id, userId)
    ensures r.Ok? ==> r.value == docs[id]
    ensures r == Err(NotFound) <==> id !in docs
    ensures r == Err(Forbidden) <==> id in docs && docs[id].userId != userId
  {
    if id !in docs then Err(NotFound)
    else if docs[id].userId != userId then Err(Forbidden)
    else Ok(docs[id])
  }

  /** A row after `update({ data })`: the supplied fields change, `updatedAt` is stamped, nothing else moves. */
  function Patched(d: Document, patch: DocumentPatch, now: nat): Document {
    d.(title := patch.title.GetOr(d.title),
       content := if patch.content.Some? then patch.content else d.content,
       updatedAt := now)
  }

  /** A patch whose title is present but blank, which `update` rejects. */
  predicate BlankTitle(patch: DocumentPatch) {
    patch.title.Some? && IsBlank(patch.title.value)
  }

  // ----- findAll -----

  /** The `where` of `findAll`: the caller's documents, a title containing the search term when one is
      given (an empty term is falsy and adds no condition), and the status when one is given. There is
      no condition on `inTrash`. */
  predicate MatchesQuery(q: DocumentQuery, d: Document) {
    && d.userId == q.userId
    && (q.search.Some? && q.search.value != "" ==> Contains(d.title, q.search.value))
    && (q.status.Some? ==> d.status == q.status.value)
  }

  function QueryFilter(q: DocumentQuery): Document -> bool {
    (d: Document) => MatchesQuery(q, d)
  }

  ghost function MatchingIds(docs: map<Id, Document>, q: DocumentQuery): set<Id> {
    set k | k in docs && MatchesQuery(q, docs[k])
  }

  /** `orderBy: { createdAt: 'desc' }`. */
  predicate CreatedLater(a: Document, b: Document) {
    a.createdAt >= b.createdAt
  }

  /** `orderBy: { updatedAt: 'desc' }`. */
  predicate UpdatedLater(a: Document, b: Document) {
    a.updatedAt >= b.updatedAt
  }

  function PageOf(q: DocumentQuery): nat {
    q.page.GetOr(1)
  }

  function LimitOf(q: DocumentQuery): nat {
    q.limit.GetOr(10)
  }

  /** Page and limit are at least 1 when given (`@Min(1)` on the query DTO). */
  predicate ValidQuery(q: DocumentQuery) {
    (q.page.Some? ==> q.page.value >= 1) && (q.limit.Some? ==> q.limit.value >= 1)
  }

  /** All documents `findAll` can list for `q`, newest first: the sequence its pages are cut from. */
  function Listing(docs: map<Id, Document>, bound: nat, q: DocumentQuery): (rows: seq<Document>)
    ensures Sorting.SortedBy(rows, CreatedLater)
  {
    Tables.Query(docs, bound, QueryFilter(q), CreatedLater)
  }

  /** The listing holds each stored document matching the query exactly once, and nothing else. */
  lemma ListingExact(docs: map<Id, Document>, bound: nat, q: DocumentQuery)
    requires WellFormed(docs, bound)
    ensures forall d :: d in Listing(docs, bound, q) ==> d.id in docs && docs[d.id] == d && MatchesQuery(q, d)
    ensures forall k :: k in docs && MatchesQuery(q, docs[k]) ==> docs[k] in Listing(docs, bound, q)
    ensures |Listing(docs, bound, q)| == |MatchingIds(docs, q)|
  {
    Tables.QueryExact(docs, bound, QueryFilter(q), CreatedLater, (d: Document) => d.id);
    assert Tables.MatchingKeys(docs, QueryFilter(q)) == MatchingIds(docs, q);
  }

  /** `findAll`: one page of the caller's matching documents, newest first, with the total and the page count. */
  function FindAll(docs: map<Id, Document>, bound: nat, q: DocumentQuery): (r: DocumentPage)
    requires WellFormed(docs, bound) && ValidQuery(q)
    ensures r.page == PageOf(q) && r.total == |MatchingIds(docs, q)|
    ensures Pagination.IsPageCount(r.total, LimitOf(q), r.totalPages)
    ensures |r.data| <= LimitOf(q)
    ensures forall d :: d in r.data ==> d.id in docs && docs[d.id] == d && MatchesQuery(q, d)
    ensures Sorting.SortedBy(r.data, CreatedLater)
    ensures r.data == Pagination.Paginate(Listing(docs, bound, q), PageOf(q), LimitOf(q))
  {
    ListingExact(docs, bound, q);
    var rows := Listing(docs, bound, q);
    var data := Pagination.Paginate(rows, PageOf(q), LimitOf(q));
    Pagination.PageKeepsOrder(rows, PageOf(q), LimitOf(q), CreatedLater);
    DocumentPage(data, |rows|, PageOf(q), Pagination.TotalPages(|rows|, LimitOf(q)))
  }

  /** Reading pages 1 to `totalPages` of `findAll` yields every matching document once, newest first. */
  lemma FindAllPagesCover(docs: map<Id, Document>, bound: nat, q: DocumentQuery)
    requires WellFormed(docs, bound) && ValidQuery(q)
    ensures Pagination.PagesUpTo(Listing(docs, bound, q), LimitOf(q), FindAll(docs, bound, q).totalPages)
            == Listing(docs, bound, q)
  {
    ListingExact(docs, bound, q);
    Pagination.PagesCoverAll(Listing(docs, bound, q), LimitOf(q));
  }

  /** `findAll` lists trashed documents like any other: a trashed document matching the query is in the listing. */
  lemma ListingKeepsTrashed(docs: map<Id, Document>, bound: nat, q: DocumentQuery, id: Id)
    requires WellFormed(docs, bound) && id in docs && docs[id].inTrash && MatchesQuery(q, docs[id])
    ensures docs[id] in Listing(docs, bound, q)
  {
    ListingExact(docs, bound, q);
  }

  // ----- trash -----

  /** The ids of the caller's trashed documents. */
  ghost function TrashedIds(docs: map<Id, Document>, userId: Id): set<Id> {
    set k | k in docs && docs[k].userId == userId && docs[k].inTrash
  }

  /** The ids of all the caller's documents. */
  ghost function OwnedIds(docs: map<Id, Document>, userId: Id): set<Id> {
    set k | k in docs && docs[k].userId == userId
  }

  function TrashFilter(userId: Id): Document -> bool {
    (d: Document) => d.userId == userId && d.inTrash
  }

  function OwnerFilter(userId: Id): Document -> bool {
    (d: Document) => d.userId == userId
  }

  /** `getTrashed`: exactly the caller's trashed documents, most recently updated first. */
  function GetTrashed(docs: map<Id, Document>, bound: nat, userId: Id): (rows: seq<Document>)
    requires WellFormed(docs, bound)
    ensures Sorting.SortedBy(rows, UpdatedLater)
    ensures forall d :: d in rows ==> d.id in docs && docs[d.id] == d && d.userId == userId && d.inTrash
    ensures forall k :: k in TrashedIds(docs, userId) ==> docs[k] in rows
    ensures |rows| == |TrashedIds(docs, userId)|
  {
    Tables.QueryExact(docs, bound, TrashFilter(userId), UpdatedLater, (d: Document) => d.id);
    assert Tables.MatchingKeys(docs, TrashFilter(userId)) == TrashedIds(docs, userId);
    Tables.Query(docs, bound, TrashFilter(userId), UpdatedLater)
  }

  /** The document service over its table. */
  class DocumentService {
    var documents: map<Id, Document>
    var nextId: Id

    ghost predicate Valid()
      reads this
    {
      WellFormed(documents, nextId)
    }

    constructor ()
      ensures Valid() && documents == map[] && nextId == 0
    {
      documents := map[];
      nextId := 0;
    }

    /** `create`: a missing or whitespace-only title is a BadRequest and stores nothing; otherwise a
        new row with the table's defaults (DRAFT, not in trash). */
    method Create(title: string, content: Option<string>, userId: Id, now: nat) returns (r: Result<Document>)
      requires Valid()
      modifies this
      ensures Valid()
      ensures IsBlank(title) ==> r == Err(BadRequest) && documents == old(documents) && nextId == old(nextId)
      ensures !IsBlank(title) ==>
        && r == Ok(Document(old(nextId), title, content, userId, DRAFT, false, now, now))
        && old(nextId) !in old(documents)
        && documents == old(documents)[old(nextId) := r.value]
    {
      TrimEmptyIffBlank(title);
      if Trim(title) == "" {
        return Err(BadRequest);
      }
      var doc := Document(nextId, title, content, userId, DRAFT, false, now, now);
      documents := documents[nextId := doc];
      nextId := nextId + 1;
      r := Ok(doc);
    }

    /** `update`: ownership first, then a present-but-blank title is a BadRequest; otherwise only the
        supplied fields of that one row change. */
    method Update(id: Id, patch: DocumentPatch, userId: Id, now: nat) returns (r: Result<Document>)
      requires Valid()
      modifies this
      ensures Valid() && nextId == old(nextId)
      ensures !Authorised(old(documents), id, userId) ==>
        r == FindOne(old(documents), id, userId) && documents == old(documents)
      ensures Authorised(old(documents), id, userId) && BlankTitle(patch) ==>
        r == Err(BadRequest) && documents == old(documents)
      ensures Authorised(old(documents), id, userId) && !BlankTitle(patch) ==>
        r == Ok(Patched(old(documents)[id], patch, now)) && documents == old(documents)[id := r.value]
    {
      r := FindOne(documents, id, userId);
      if r.Err? {
        return;
      }
      if patch.title.Some? {
        TrimEmptyIffBlank(patch.title.value);
        if Trim(patch.title.value) == "" {
          return Err(BadRequest);
        }
      }
      var doc := Patched(documents[id], patch, now);
      documents := documents[id := doc];
      r := Ok(doc);
    }

    /** `remove`: ownership first, then that one row is deleted and returned. */
    method Remove(id: Id, userId: Id) returns (r: Result<Document>)
      requires Valid()
      modifies this
      ensures Valid() && nextId == old(nextId)
      ensures !Authorised(old(documents), id, userId) ==>
        r == FindOne(old(documents), id, userId) && documents == old(documents)
      ensures Authorised(old(documents), id, userId) ==>
        r == Ok(old(documents)[id]) && documents == old(documents) - {id}
    {
      r := FindOne(documents, id, userId);
      if r.Err? {
        return;
      }
      documents := documents - {id};
    }

    /** `removeAll`: every document of the caller is deleted, trashed or not; other owners' rows stay.
        Returns the count the message reports. */
    method RemoveAll(userId: Id) returns (count: nat)
      requires Valid()
      modifies this
      ensures Valid() && nextId == old(nextId)
      ensures documents.Keys == old(documents).Keys - OwnedIds(old(documents), userId)
      ensures forall k :: k in documents ==> documents[k] == old(documents)[k]
      ensures count == |OwnedIds(old(documents), userId)| && |documents| + count == |old(documents)|
    {
      assert Tables.MatchingKeys(documents, OwnerFilter(userId)) == OwnedIds(documents, userId);
      Tables.DeleteWhereCount(documents, OwnerFilter(userId));
      count := |documents| - |Tables.DeleteWhere(documents, OwnerFilter(userId))|;
      documents := Tables.DeleteWhere(documents, OwnerFilter(userId));
    }

    /** `moveToTrash`: ownership first, then the flag is set (setting it again keeps it set). */
    method MoveToTrash(id: Id, userId: Id, now: nat) returns (r: Result<Document>)
      requires Valid()
      modifies this
      ensures Valid() && nextId == old(nextId)
      ensures !Authorised(old(documents), id, userId) ==>
        r == FindOne(old(documents), id, userId) && documents == old(documents)
      ensures Authorised(old(documents), id, userId) ==>
        && r == Ok(old(documents)[id].(inTrash := true, updatedAt := now))
        && documents == old(documents)[id := r.value]
    {
      r := FindOne(documents, id, userId);
      if r.Err? {
        return;
      }
      var doc := documents[id].(inTrash := true, updatedAt := now);
      documents := documents[id := doc];
      r := Ok(doc);
    }

    /** `restoreFromTrash`: ownership first; a document that is not in the trash is a BadRequest and
        nothing changes; otherwise the flag is cleared. */
    method RestoreFromTrash(id: Id, userId: Id, now: nat) returns (r: Result<Document>)
      requires Valid()
      modifies this
      ensures Valid() && nextId == old(nextId)
      ensures !Authorised(old(documents), id, userId) ==>
        r == FindOne(old(documents), id, userId) && documents == old(documents)
      ensures Authorised(old(documents), id, userId) && !old(documents)[id].inTrash ==>
        r == Err(BadRequest) && documents == old(documents)
      ensures Authorised(old(documents), id, userId) && old(documents)[id].inTrash ==>
        && r == Ok(old(documents)[id].(inTrash := false, updatedAt := now))
        && documents == old(documents)[id := r.value]
    {
      var found := FindOne(documents, id, userId);
      if found.Err? {
        return found;
      }
      if !found.value.inTrash {
        return Err(BadRequest);
      }
      var doc := found.value.(inTrash := false, updatedAt := now);
      documents := documents[id := doc];
      r := Ok(doc);
    }

    /** `emptyTrash`: exactly the caller's trashed documents are deleted; the count reported is the
        number removed. */
    method EmptyTrash(userId: Id) returns (count: nat)
      requires Valid()
      modifies this
      ensures Valid() && nextId == old(nextId)
      ensures documents.Keys == old(documents).Keys - TrashedIds(old(documents), userId)
      ensures forall k :: k in documents ==> documents[k] == old(documents)[k]
      ensures count == |TrashedIds(old(documents), userId)| && |documents| + count == |old(documents)|
    {
      assert Tables.MatchingKeys(documents, TrashFilter(userId)) == TrashedIds(documents, userId);
      Tables.DeleteWhereCount(documents, TrashFilter(userId));
      count := |documents| - |Tables.DeleteWhere(documents, TrashFilter(userId))|;
      documents := Tables.DeleteWhere(documents, TrashFilter(userId));
    }

    /** `changeStatus`: ownership first, then any status may be set. */
    method ChangeStatus(id: Id, status: DocumentStatus, userId: Id, now: nat) returns (r: Result<Document>)
      requires Valid()
      modifies this
      ensures Valid() && nextId == old(nextId)
      ensures !Authorised(old(documents), id, userId) ==>
        r == FindOne(old(documents), id, userId) && documents == old(documents)
      ensures Authorised(old(documents), id, userId) ==>
        && r == Ok(old(documents)[id].(status := status, updatedAt := now))
        && documents == old(documents)[id := r.value]
    {
      r := FindOne(documents, id, userId);
      if r.Err? {
        return;
      }
      var doc := documents[id].(status := status, updatedAt := now);
      documents := documents[id := doc];
      r := Ok(doc);
    }
  }

  /** The lifecycle the service's tests walk through: a blank title is refused; a created document can
      be fetched by its owner and not by anyone else; trashing then restoring clears the flag; restoring
      again is refused; emptying the trash of a user with nothing trashed deletes nothing. */
  method LifecycleScenario()
    returns (blank: Result<Document>, fetched: Result<Document>, foreign: Result<Document>,
             restored: Result<Document>, again: Result<Document>, emptied: nat)
    ensures blank == Err(BadRequest)
    ensures fetched.Ok? && fetched.value.title == "Q3 Plan" && !fetched.value.inTrash && fetched.value.status == DRAFT
    ensures foreign == Err(Forbidden)
    ensures restored.Ok? && !restored.value.inTrash
    ensures again == Err(BadRequest)
    ensures emptied == 0
  {
    var service := new DocumentService();
    blank := service.Create(" \t", None, 1, 0);
    assert IsBlank(" \t");
    assert !IsBlank("Q3 Plan") by {
      assert !IsJsWhitespace("Q3 Plan"[0]);
    }
    var created := service.Create("Q3 Plan", None, 1, 1);
    var id := created.value.id;
    fetched := FindOne(service.documents, id, 1);
    foreign := FindOne(service.documents, id, 2);
    var trashed := service.MoveToTrash(id, 1, 2);
    restored := service.RestoreFromTrash(id, 1, 3);
    again := service.RestoreFromTrash(id, 1, 4);
    assert service.documents == map[id := restored.value];
    assert TrashedIds(service.documents, 1) == {};
    emptied := service.EmptyTrash(1);
  }
}
