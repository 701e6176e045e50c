/** Sharing of documents with other users: a `sharedDocument` table holding at most one grant per
    (document, user) pair, a notification mail to the recipient, and revocation by pair. */
module SharedDocumentsService {
  import opened Common
  import Text
  import Tables
  import D = DocumentsService

  datatype AccessLevel = VIEW | EDIT

  /** A row of the `sharedDocument` table. */
  datatype SharedDocument = SharedDocument(id: Id, documentId: Id, userId: Id, accessLevel: AccessLevel)

  /** The columns of a `user` row the sharing flow reads. */
  datatype Account = Account(id: Id, email: string, name: Option<string>)

  /** The notification sent to the recipient of a share. */
  datatype SharedMail = SharedMail(
    to: string,
    recipientName: Option<string>,
    senderName: Option<string>,
    documentTitle: string,
    documentLink: string)

  const LinkPrefix: string := "https://your-app.com/documents/"

  /** The link to a document that a share notification carries. */
  function DocumentLink(documentId: Id): (link: string)
    ensures Text.StartsWith(link, LinkPrefix)
    ensures Text.IsDigits(link[|LinkPrefix|..]) && Text.DigitsValue(link[|LinkPrefix|..]) == documentId
  {
    Text.DecimalRoundTrip(documentId);
    assert (LinkPrefix + Text.DecimalString(documentId))[|LinkPrefix|..] == Text.DecimalString(documentId);
    LinkPrefix + Text.DecimalString(documentId)
  }

  /** The grant is the one for this (document, user) pair. */
  predicate IsPair(g: SharedDocument, documentId: Id, userId: Id) {
    g.documentId == documentId && g.userId == userId
  }

  function PairFilter(documentId: Id, userId: Id): SharedDocument -> bool {
    (g: SharedDocument) => IsPair(g, documentId, userId)
  }

  function UserFilter(userId: Id): SharedDocument -> bool {
    (g: SharedDocument) => g.userId == userId
  }

  /** The document is shared with the user. */
  predicate Shared(grants: map<Id, SharedDocument>, documentId: Id, userId: Id) {
    exists k :: k in grants && IsPair(grants[k], documentId, userId)
  }

  /** The unique constraint on (documentId, userId): two grants for one pair are one grant. */
  predicate UniquePairs(grants: map<Id, SharedDocument>) {
    forall a, b :: a in grants && b in grants && IsPair(grants[b], grants[a].documentId, grants[a].userId) ==> a == b
  }

  predicate WellFormed(grants: map<Id, SharedDocument>, bound: nat) {
    && Tables.Bounded(grants, bound)
    && (forall k :: k in grants ==> grants[k].id == k)
    && UniquePairs(grants)
  }

  /** `findUnique({ where: { documentId_userId } })`: the key of the pair's grant, if there is one. */
  function FindPair(grants: map<Id, SharedDocument>, bound: nat, documentId: Id, userId: Id): (r: Option<Id>)
    requires Tables.Bounded(grants, bound)
    ensures r.Some? ==> r.value in grants && IsPair(grants[r.value], documentId, userId)
    ensures r.None? <==> !Shared(grants, documentId, userId)
  {
    Tables.FirstWhere(grants, bound, PairFilter(documentId, userId))
  }

  ghost function GrantsOf(grants: map<Id, SharedDocument>, userId: Id): set<Id> {
    set k | k in grants && grants[k].userId == userId
  }

  /** `getSharedDocumentsByUser`: every grant held by the user, each once, and no other. */
  function GetSharedDocumentsByUser(grants: map<Id, SharedDocument>, bound: nat, userId: Id): (rows: seq<SharedDocument>)
    requires WellFormed(grants, bound)
    ensures forall g :: g in rows ==> g.id in grants && grants[g.id] == g && g.userId == userId
    ensures forall k :: k in GrantsOf(grants, userId) ==> grants[k] in rows
    ensures |rows| == |GrantsOf(grants, userId)|
  {
    Tables.ScanExact(grants, bound, UserFilter(userId), (g: SharedDocument) => g.id);
    assert Tables.MatchingKeys(grants, UserFilter(userId)) == GrantsOf(grants, userId);
    Tables.Scan(grants, bound, UserFilter(userId))
  }

  /** The notification for sharing `doc` with `user`, sent by the document's owner `sender`. */
  function ShareMail(user: Account, sender: Account, doc: D.Document): SharedMail {
    SharedMail(user.email, user.name, sender.name, doc.title, DocumentLink(doc.id))
  }

  /** The sharing service: the grant table and the mails sent so far. */
  class SharedDocumentService {
    var grants: map<Id, SharedDocument>
    var nextId: Id
    var outbox: seq<SharedMail>

    ghost predicate Valid()
      reads this
    {
      WellFormed(grants, nextId)
    }

    constructor ()
      ensures Valid() && grants == map[] && nextId == 0 && outbox == []
    {
      grants := map[];
      nextId := 0;
      outbox := [];
    }

    /** `shareDocument`, with the `document` and `user` tables as `documents` and `users`, and
        `mailFails` standing for a mailer that throws. A missing document or user is NotFound and an
        existing grant for the pair a Conflict, with nothing stored. Otherwise the grant is stored;
        when the document's owner is a user, the notification is sent, and if sending fails the call
        reports BadRequest although the grant stays. Anyone may share any document. */
    method ShareDocument(
      documentId: Id, userId: Id, accessLevel: AccessLevel,
      documents: map<Id, D.Document>, users: map<Id, Account>, mailFails: bool)
      returns (r: Result<SharedDocument>)
      requires Valid()
      modifies this
      ensures Valid()
      ensures documentId !in documents || userId !in users || Shared(old(grants), documentId, userId) ==>
        && grants == old(grants) && nextId == old(nextId) && outbox == old(outbox)
        && r == Err(if documentId !in documents || userId !in users then NotFound else Conflict)
      ensures documentId in documents && userId in users && !Shared(old(grants), documentId, userId) ==>
        var doc := documents[documentId];
        var grant := SharedDocument(old(nextId), documentId, userId, accessLevel);
        && old(nextId) !in old(grants)
        && grants == old(grants)[old(nextId) := grant]
        && outbox == old(outbox) + (if doc.userId in users && !mailFails then [ShareMail(users[userId], users[doc.userId], doc)] else [])
        && r == (if doc.userId in users && mailFails then Err(BadRequest) else Ok(grant))
    {
      if documentId !in documents || userId !in users {
        return Err(NotFound);
      }
      var doc := documents[documentId];
      var user := users[userId];
      var existing := FindPair(grants, nextId, documentId, userId);
      if existing.Some? {
        return Err(Conflict);
      }
      var grant := SharedDocument(nextId, documentId, userId, accessLevel);
      grants := grants[nextId := grant];
      nextId := nextId + 1;
      r := Ok(grant);
      if doc.userId in users {
        if mailFails {
          return Err(BadRequest);
        }
        outbox := outbox + [ShareMail(user, users[doc.userId], doc)];
      }
    }

    /** `revokeAccess`: deletes the pair's grant and returns it; with no grant for the pair, NotFound. */
    method RevokeAccess(documentId: Id, userId: Id) returns (r: Result<SharedDocument>)
      requires Valid()
      modifies this
      ensures Valid() && nextId == old(nextId) && outbox == old(outbox)
      ensures !Shared(old(grants), documentId, userId) ==> r == Err(NotFound) && grants == old(grants)
      ensures Shared(old(grants), documentId, userId) ==>
        && r.Ok? && r.value.id in old(grants) && old(grants)[r.value.id] == r.value
        && IsPair(r.value, documentId, userId)
        && grants == old(grants) - {r.value.id}
        && !Shared(grants, documentId, userId)
    {
      var found := FindPair(grants, nextId, documentId, userId);
      if found.None? {
        return Err(NotFound);
      }
      r := Ok(grants[found.value]);
      grants := grants - {found.value};
    }
  }

  /** Sharing a document twice with the same user is a Conflict; once revoked, a second revoke is
      NotFound and the document can be shared again. The recipient is notified once per share. */
  method ShareRevokeScenario()
    returns (first: Result<SharedDocument>, twice: Result<SharedDocument>, revoked: Result<SharedDocument>,
             revokedAgain: Result<SharedDocument>, again: Result<SharedDocument>, mails: nat)
    ensures first.Ok? && first.value.accessLevel == EDIT && twice == Err(Conflict)
    ensures revoked == first && revokedAgain == Err(NotFound)
    ensures again.Ok? && again.value.accessLevel == VIEW
    ensures mails == 2
  {
    var owner := Account(1, "owner@example.com", Some("Owner"));
    var friend := Account(2, "friend@example.com", None);
    var users := map[1 := owner, 2 := friend];
    var doc := D.Document(7, "Plan", None, 1, D.DRAFT, false, 0, 0);
    var documents := map[7 := doc];
    var service := new SharedDocumentService();
    first := service.ShareDocument(7, 2, EDIT, documents, users, false);
    assert Shared(service.grants, 7, 2) by {
      assert IsPair(service.grants[0], 7, 2);
    }
    twice := service.ShareDocument(7, 2, VIEW, documents, users, false);
    revoked := service.RevokeAccess(7, 2);
    revokedAgain := service.RevokeAccess(7, 2);
    again := service.ShareDocument(7, 2, VIEW, documents, users, false);
    mails := |service.outbox|;
  }
}
