/** Document templates of the .NET backend: named block contents listed in name order, fetched,
    created and deleted by id. */
module BackendTemplateService {
  import opened Common
  import Text
  import Tables
  import Sorting
  import B = BackendDocumentService

  /** A row of the `DocumentTemplates` table. */
  datatype DocumentTemplate = DocumentTemplate(
    id: Id,
    name: string,
    description: string,
    content: seq<B.ContentBlock>,
    createdAt: nat,
    updatedAt: nat)

  predicate WellFormed(templates: map<Id, DocumentTemplate>, bound: nat) {
    Tables.Bounded(templates, bound) && forall k :: k in templates ==> templates[k].id == k
  }

  /** `OrderBy(t => t.Name)`: ordinal order of the names. */
  predicate NameOrder(a: DocumentTemplate, b: DocumentTemplate) {
    Text.OrdinalLe(a.name, b.name)
  }

  function Everything(): DocumentTemplate -> bool {
    (t: DocumentTemplate) => true
  }

  /** Any two templates can be placed in name order. */
  lemma NameOrderTotal()
    ensures Sorting.Total(NameOrder)
  {
    forall a: DocumentTemplate, b: DocumentTemplate ensures NameOrder(a, b) || NameOrder(b, a) {
      Text.OrdinalTotal(a.name, b.name);
    }
  }

  /** `GetAllAsync`: every stored template once, in name order. */
  function GetAllAsync(templates: map<Id, DocumentTemplate>, bound: nat): (rows: seq<DocumentTemplate>)
    requires WellFormed(templates, bound)
    ensures Sorting.SortedBy(rows, NameOrder)
    ensures forall t :: t in rows ==> t.id in templates && templates[t.id] == t
    ensures forall k :: k in templates ==> templates[k] in rows
    ensures |rows| == |templates|
  {
    NameOrderTotal();
    Tables.QueryExact(templates, bound, Everything(), NameOrder, (t: DocumentTemplate) => t.id);
    assert Tables.MatchingKeys(templates, Everything()) == templates.Keys;
    Tables.Query(templates, bound, Everything(), NameOrder)
  }

  /** In a name-ordered sequence the first name is the least. */
  lemma {:induction false} HeadHasLeastName(rows: seq<DocumentTemplate>, j: nat)
    requires Sorting.SortedBy(rows, NameOrder) && j < |rows|
    ensures Text.OrdinalLe(rows[0].name, rows[j].name)
  {
    if j == 0 {
      Text.OrdinalReflexive(rows[0].name);
    } else {
      HeadHasLeastName(rows, j - 1);
      Text.OrdinalTransitive(rows[0].name, rows[j - 1].name, rows[j].name);
    }
  }

  /** The first template `GetAllAsync` lists has the least name of all stored templates. */
  lemma FirstListedHasLeastName(templates: map<Id, DocumentTemplate>, bound: nat)
    requires WellFormed(templates, bound) && templates != map[]
    ensures forall k :: k in templates ==> Text.OrdinalLe(GetAllAsync(templates, bound)[0].name, templates[k].name)
  {
    var rows := GetAllAsync(templates, bound);
    forall k | k in templates ensures Text.OrdinalLe(rows[0].name, templates[k].name) {
      var j :| 0 <= j < |rows| && rows[j] == templates[k];
      HeadHasLeastName(rows, j);
    }
  }

  /** `GetByIdAsync`: the template, or `null`. */
  function GetByIdAsync(templates: map<Id, DocumentTemplate>, id: Id): (r: Option<DocumentTemplate>)
    ensures r.Some? <==> id in templates
    ensures r.Some? ==> r.value == templates[id]
  {
    if id in templates then Some(templates[id]) else None
  }

  /** The template service over its table. */
  class DocumentTemplateService {
    var templates: map<Id, DocumentTemplate>
    var nextId: Id

    ghost predicate Valid()
      reads this
    {
      WellFormed(templates, nextId)
    }

    /** Identity columns start at 1. */
    constructor ()
      ensures Valid() && templates == map[] && nextId == 1
    {
      templates := map[];
      nextId := 1;
    }

    /** `CreateAsync`: stores a new template with the given name, description and block content. */
    method CreateAsync(name: string, description: string, content: seq<B.ContentBlock>, now: nat)
      returns (t: DocumentTemplate)
      requires Valid()
      modifies this
      ensures Valid()
      ensures t == DocumentTemplate(old(nextId), name, description, content, now, now)
      ensures old(nextId) !in old(templates) && templates == old(templates)[t.id := t]
    {
      t := DocumentTemplate(nextId, name, description, content, now, now);
      templates := templates[nextId := t];
      nextId := nextId + 1;
    }

    /** `DeleteAsync`: whether the template existed; if it did, it alone is removed. */
    method DeleteAsync(id: Id) returns (deleted: bool)
      requires Valid()
      modifies this
      ensures Valid() && nextId == old(nextId)
      ensures deleted <==> id in old(templates)
      ensures templates == old(templates) - {id}
    {
      deleted := id in templates;
      templates := templates - {id};
    }
  }

  /** A name-ordered listing of two distinct templates puts first the one whose name does not follow
      the other's. */
  lemma TwoInNameOrder(rows: seq<DocumentTemplate>, a: DocumentTemplate, b: DocumentTemplate)
    requires Sorting.SortedBy(rows, NameOrder) && |rows| == 2 && a in rows && b in rows && a != b
    requires !NameOrder(b, a)
    ensures rows == [a, b]
  {
    assert rows == [rows[0], rows[1]];
    assert NameOrder(rows[0], rows[1]);
  }

  /** Templates created out of name order are listed in name order, and a deleted one is gone. */
  method ListingScenario() returns (listed: seq<string>, deleted: bool, remaining: nat)
    ensures listed == ["Invoice", "Memo"]
    ensures deleted && remaining == 1
  {
    var service := new DocumentTemplateService();
    var memo := service.CreateAsync("Memo", "", [], 0);
    var invoice := service.CreateAsync("Invoice", "", [], 1);
    assert service.templates[memo.id] == memo && service.templates[invoice.id] == invoice;
    var rows := GetAllAsync(service.templates, service.nextId);
    assert !NameOrder(memo, invoice) by {
      assert "Invoice"[0] < "Memo"[0];
    }
    TwoInNameOrder(rows, invoice, memo);
    listed := [rows[0].name, rows[1].name];
    deleted := service.DeleteAsync(memo.id);
    remaining := |service.templates|;
  }
}
