/** Folders: named groups of documents owned by a user, fetched, renamed and deleted by id, and listed
    page by page with an optional case-insensitive name search. */
module FolderService {
  import opened Common
  import Text
  import Tables
  import Sorting
  import Pagination

  /** A row of the `folder` table, with the ids of the documents connected to it. */
  datatype Folder = Folder(id: Id, name: string, userId: Id, documents: set<Id>, createdAt: nat, updatedAt: nat)

  /** The arguments of `findFolders`; an absent page or limit takes its default. */
  datatype FolderQuery = FolderQuery(ownerId: Id, search: Option<string>, page: Option<nat>, limit: Option<nat>)

  /** What `findFolders` returns. */
  datatype FolderPage = FolderPage(data: seq<Folder>, page: nat, limit: nat, total: nat, totalPages: nat)

  predicate WellFormed(folders: map<Id, Folder>, bound: nat) {
    Tables.Bounded(folders, bound) && forall k :: k in folders ==> folders[k].id == k
  }

  /** The row `createFolder` inserts, or the error it raises, as the code is written: the document
      list is mapped over unconditionally, so an absent list raises a TypeError before anything is
      stored; connecting a document that does not exist fails in the database. */
  function NewFolderAsWritten(
    id: Id, name: string, ownerId: Id, documents: Option<seq<Id>>, existing: set<Id>, now: nat): (r: Result<Folder>)
    ensures documents.None? ==> r == Err(TypeError)
    ensures documents.Some? ==> r == NewFolder(id, name, ownerId, documents, existing, now)
  {
    if documents.None? then Err(TypeError) else NewFolder(id, name, ownerId, documents, existing, now)
  }

  /** The row `createFolder` is meant to insert: an absent document list connects no documents; the
      creation fails in the database exactly when a listed document does not exist. */
  function NewFolder(
    id: Id, name: string, ownerId: Id, documents: Option<seq<Id>>, existing: set<Id>, now: nat): (r: Result<Folder>)
    ensures r.Ok? <==> forall d :: d in documents.GetOr([]) ==> d in existing
    ensures r.Err? ==> r.error == StoreError
    ensures r.Ok? ==>
      && r.value.id == id && r.value.name == name && r.value.userId == ownerId
      && r.value.createdAt == now && r.value.updatedAt == now
      && forall d :: d in r.value.documents <==> d in documents.GetOr([])
  {
    var ids := set d | d in documents.GetOr([]);
    if ids <= existing then Ok(Folder(id, name, ownerId, ids, now, now)) else Err(StoreError)
  }

  /** The request body `createFolder` receives never carries a document list (the body's declared type
      has only `name` and the validation pipe strips other fields), and without one the written code
      always fails, where the intended creation stores a folder with no documents. The same pipe also
      strips `ownerId`, so over HTTP even the intended creation gets no owner; both functions take the
      owner as the service's own callers pass it. */
  lemma CreateWithoutDocumentsDiffers(id: Id, name: string, ownerId: Id, existing: set<Id>, now: nat)
    ensures NewFolderAsWritten(id, name, ownerId, None, existing, now) == Err(TypeError)
    ensures NewFolder(id, name, ownerId, None, existing, now) == Ok(Folder(id, name, ownerId, {}, now, now))
  {
    assert (set d: Id | d in []) == {};
  }

  /** `getFolderById`: the folder, or NotFound. */
  function GetFolderById(folders: map<Id, Folder>, id: Id): (r: Result<Folder>)
    ensures r.Ok? <==> id in folders
    ensures r.Ok? ==> r.value == folders[id]
    ensures r.Err? ==> r.error == NotFound
  {
    if id in folders then Ok(folders[id]) else Err(NotFound)
  }

  // ----- findFolders -----

  /** The `where` of `findFolders`: the owner's folders, and when a non-empty search term is given,
      a name containing it regardless of case. */
  predicate MatchesQuery(q: FolderQuery, f: Folder) {
    f.userId == q.ownerId && (q.search.Some? && q.search.value != "" ==> Text.ContainsIgnoreCase(f.name, q.search.value))
  }

  function QueryFilter(q: FolderQuery): Folder -> bool {
    (f: Folder) => MatchesQuery(q, f)
  }

  ghost function MatchingIds(folders: map<Id, Folder>, q: FolderQuery): set<Id> {
    set k | k in folders && MatchesQuery(q, folders[k])
  }

  /** `orderBy: { createdAt: 'desc' }`. */
  predicate CreatedLater(a: Folder, b: Folder) {
    a.createdAt >= b.createdAt
  }

  function PageOf(q: FolderQuery): nat {
    q.page.GetOr(1)
  }

  function LimitOf(q: FolderQuery): nat {
    q.limit.GetOr(10)
  }

  predicate ValidQuery(q: FolderQuery) {
    PageOf(q) >= 1 && LimitOf(q) >= 1
  }

  /** All folders the query selects, newest first. */
  function Listing(folders: map<Id, Folder>, bound: nat, q: FolderQuery): (rows: seq<Folder>)
    ensures Sorting.SortedBy(rows, CreatedLater)
  {
    Tables.Query(folders, bound, QueryFilter(q), CreatedLater)
  }

  /** The listing holds each stored folder the query selects exactly once, and nothing else. */
  lemma ListingExact(folders: map<Id, Folder>, bound: nat, q: FolderQuery)
    requires WellFormed(folders, bound)
    ensures forall f :: f in Listing(folders, bound, q) ==> f.id in folders && folders[f.id] == f && MatchesQuery(q, f)
    ensures forall k :: k in folders && MatchesQuery(q, folders[k]) ==> folders[k] in Listing(folders, bound, q)
    ensures |Listing(folders, bound, q)| == |MatchingIds(folders, q)|
  {
    Tables.QueryExact(folders, bound, QueryFilter(q), CreatedLater, (f: Folder) => f.id);
    assert Tables.MatchingKeys(folders, QueryFilter(q)) == MatchingIds(folders, q);
  }

  /** `findFolders`: one page of the owner's matching folders, newest first, with the total and the page count. */
  function FindFolders(folders: map<Id, Folder>, bound: nat, q: FolderQuery): (r: FolderPage)
    requires WellFormed(folders, bound) && ValidQuery(q)
    ensures r.page == PageOf(q) && r.limit == LimitOf(q) && r.total == |MatchingIds(folders, q)|
    ensures Pagination.IsPageCount(r.total, r.limit, r.totalPages)
    ensures |r.data| <= r.limit
    ensures forall f :: f in r.data ==> f.id in folders && folders[f.id] == f && MatchesQuery(q, f)
    ensures Sorting.SortedBy(r.data, CreatedLater)
    ensures r.data == Pagination.Paginate(Listing(folders, bound, q), PageOf(q), LimitOf(q))
  {
    ListingExact(folders, bound, q);
    var rows := Listing(folders, bound, q);
    var data := Pagination.Paginate(rows, PageOf(q), LimitOf(q));
    Pagination.PageKeepsOrder(rows, PageOf(q), LimitOf(q), CreatedLater);
    FolderPage(data, PageOf(q), LimitOf(q), |rows|, Pagination.TotalPages(|rows|, LimitOf(q)))
  }

  /** The search ignores the case of ASCII letters: a folder found with a term is found with the same
      term in any mix of upper and lower case. */
  lemma SearchIgnoresCase(folders: map<Id, Folder>, bound: nat, q: FolderQuery, term: string, id: Id)
    requires WellFormed(folders, bound) && q.search.Some? && q.search.value != "" && id in folders
    requires Text.Lower(term) == Text.Lower(q.search.value)
    requires folders[id] in Listing(folders, bound, q)
    ensures folders[id] in Listing(folders, bound, q.(search := Some(term)))
  {
    ListingExact(folders, bound, q);
    ListingExact(folders, bound, q.(search := Some(term)));
  }

  /** The folder service over its table. */
  class FolderService {
    var folders: map<Id, Folder>
    var nextId: Id

    ghost predicate Valid()
      reads this
    {
      WellFormed(folders, nextId)
    }

    constructor ()
      ensures Valid() && folders == map[] && nextId == 0
    {
      folders := map[];
      nextId := 0;
    }

    /** `createFolder` as intended, with `existing` the ids of the stored documents: the folder is
        stored with its documents connected, or, if one of them does not exist, nothing is stored. */
    method CreateFolder(name: string, ownerId: Id, documents: Option<seq<Id>>, existing: set<Id>, now: nat)
      returns (r: Result<Folder>)
      requires Valid()
      modifies this
      ensures Valid()
      ensures r == NewFolder(old(nextId), name, ownerId, documents, existing, now)
      ensures r.Err? ==> folders == old(folders) && nextId == old(nextId)
      ensures r.Ok? ==> old(nextId) !in old(folders) && folders == old(folders)[r.value.id := r.value]
    {
      r := NewFolder(nextId, name, ownerId, documents, existing, now);
      if r.Ok? {
        folders := folders[nextId := r.value];
        nextId := nextId + 1;
      }
    }

    /** `updateFolder`: a missing folder is NotFound; otherwise only the name changes, when one is given. */
    method UpdateFolder(id: Id, name: Option<string>, now: nat) returns (r: Result<Folder>)
      requires Valid()
      modifies this
      ensures Valid() && nextId == old(nextId)
      ensures id !in old(folders) ==> r == Err(NotFound) && folders == old(folders)
      ensures id in old(folders) ==>
        && r == Ok(old(folders)[id].(name := name.GetOr(old(folders)[id].name), updatedAt := now))
        && folders == old(folders)[id := r.value]
    {
      var found := GetFolderById(folders, id);
      if found.Err? {
        return found;
      }
      var f := found.value.(name := name.GetOr(found.value.name), updatedAt := now);
      folders := folders[id := f];
      r := Ok(f);
    }

    /** `deleteFolder`: a missing folder is NotFound; otherwise that folder alone is deleted and returned. */
    method DeleteFolder(id: Id) returns (r: Result<Folder>)
      requires Valid()
      modifies this
      ensures Valid() && nextId == old(nextId)
      ensures id !in old(folders) ==> r == Err(NotFound) && folders == old(folders)
      ensures id in old(folders) ==> r == Ok(old(folders)[id]) && folders == old(folders) - {id}
    {
      r := GetFolderById(folders, id);
      if r.Ok? {
        folders := folders - {id};
      }
    }
  }

  /** A folder created with two stored documents holds both; renaming keeps them; a folder connecting
      a missing document is not created; once deleted, a folder is NotFound. */
  method FolderScenario()
    returns (created: Result<Folder>, renamed: Result<Folder>, dangling: Result<Folder>, gone: Result<Folder>)
    ensures created.Ok? && created.value.documents == {3, 4} && created.value.name == "Reports"
    ensures renamed.Ok? && renamed.value.name == "Archive" && renamed.value.documents == {3, 4}
    ensures dangling == Err(StoreError)
    ensures gone == Err(NotFound)
  {
    var service := new FolderService();
    created := service.CreateFolder("Reports", 1, Some([3, 4]), {3, 4, 5}, 0);
    renamed := service.UpdateFolder(created.value.id, Some("Archive"), 1);
    assert 9 in Some([9]).GetOr([]) && 9 !in {3, 4, 5};
    dangling := service.CreateFolder("Drafts", 1, Some([9]), {3, 4, 5}, 2);
    var deleted := service.DeleteFolder(created.value.id);
    gone := GetFolderById(service.folders, created.value.id);
  }
}
