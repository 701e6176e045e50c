/** The real-time editing gateway of the NestJS backend: sockets join a per-document room after the
    same ownership check as the REST endpoints, edits are saved and relayed to the other members of
    the room, and a disconnecting socket is removed from every room it was in. Emitted messages are
    recorded, in order, in an event log. */
module DocumentsGateway {
  import opened Common
  import D = DocumentsService
  import Text

  /** A socket.io connection id. */
  type SocketId = string

  /** A message the gateway emits, with the sockets that receive it. */
  datatype Event =
    | Error(to: SocketId, message: string)
    | JoinedDocument(to: SocketId, documentId: Id)
    | UserJoined(room: Id, recipients: set<SocketId>, socketId: SocketId)
    | UserLeft(room: Id, recipients: set<SocketId>, socketId: SocketId)
    | DocumentUpdated(room: Id, recipients: set<SocketId>, documentId: Id, content: string, updatedBy: Id)

  /** The payload of the `error` event, whatever the cause. */
  const AccessDenied: string := "Access denied or document not found"

  /** The sockets in a room; a room never joined has none. */
  function Members(rooms: map<Id, set<SocketId>>, id: Id): set<SocketId> {
    if id in rooms then rooms[id] else {}
  }

  /** Every room without the socket `s`; rooms left empty stay in the map. */
  function WithoutSocket(rooms: map<Id, set<SocketId>>, s: SocketId): (r: map<Id, set<SocketId>>)
    ensures r.Keys == rooms.Keys
    ensures forall d :: d in r ==> s !in r[d] && r[d] + (rooms[d] * {s}) == rooms[d]
  {
    map d | d in rooms :: rooms[d] - {s}
  }

  /** The `userLeft` events a disconnect of `s` emits: one per room of `order` holding `s`, in that
      order, each sent to the members that remain. */
  function LeftEvents(rooms: map<Id, set<SocketId>>, order: seq<Id>, s: SocketId): seq<Event>
    requires forall d :: d in order ==> d in rooms
  {
    if order == [] then
      []
    else
      LeftEvents(rooms, order[..|order| - 1], s) + LeftEvent(rooms, order[|order| - 1], s)
  }

  /** The `userLeft` event room `d` gets when `s` disconnects: one, to the remaining members, if the
      room held `s`; none otherwise. */
  function LeftEvent(rooms: map<Id, set<SocketId>>, d: Id, s: SocketId): seq<Event>
    requires d in rooms
  {
    if s in rooms[d] then [UserLeft(d, rooms[d] - {s}, s)] else []
  }

  /** The rooms of `order` that hold `s`. */
  ghost function HeldRooms(rooms: map<Id, set<SocketId>>, order: seq<Id>, s: SocketId): set<Id>
    requires forall d :: d in order ==> d in rooms
  {
    set d | d in order && s in rooms[d]
  }

  /** The order without its last room still lists only rooms of the map, without duplicates. */
  lemma DropLast(rooms: map<Id, set<SocketId>>, order: seq<Id>)
    requires order != [] && NoDups(order)
    ensures NoDups(order[..|order| - 1])
    ensures order[|order| - 1] !in order[..|order| - 1]
  {
    var init := order[..|order| - 1];
    forall i, j | 0 <= i < j < |init| ensures init[i] != init[j] {
      assert init[i] == order[i] && init[j] == order[j];
    }
    forall i | 0 <= i < |init| ensures init[i] != order[|order| - 1] {
      assert init[i] == order[i];
    }
  }

  /** Every event of a disconnect is a `userLeft` of the socket, from a room of the order that held
      it, sent to the members that remain. */
  lemma {:induction false} LeftEventsSound(rooms: map<Id, set<SocketId>>, order: seq<Id>, s: SocketId)
    requires forall d :: d in order ==> d in rooms
    ensures forall e :: e in LeftEvents(rooms, order, s) ==>
      e.UserLeft? && e.room in order && s in rooms[e.room] && e.recipients == rooms[e.room] - {s} && e.socketId == s
  {
    if order != [] {
      var init := order[..|order| - 1];
      assert order == init + [order[|order| - 1]];
      LeftEventsSound(rooms, init, s);
    }
  }

  /** Every room of the order that held the socket announces its departure. */
  lemma {:induction false} LeftEventsComplete(rooms: map<Id, set<SocketId>>, order: seq<Id>, s: SocketId)
    requires forall d :: d in order ==> d in rooms
    ensures forall d :: d in order && s in rooms[d] ==> UserLeft(d, rooms[d] - {s}, s) in LeftEvents(rooms, order, s)
  {
    if order != [] {
      var init := order[..|order| - 1];
      assert order == init + [order[|order| - 1]];
      LeftEventsComplete(rooms, init, s);
    }
  }

  /** With no room listed twice, there are as many events as rooms that held the socket. */
  lemma {:induction false} LeftEventsCount(rooms: map<Id, set<SocketId>>, order: seq<Id>, s: SocketId)
    requires NoDups(order) && forall d :: d in order ==> d in rooms
    ensures |LeftEvents(rooms, order, s)| == |HeldRooms(rooms, order, s)|
  {
    if order != [] {
      var init := order[..|order| - 1];
      var last := order[|order| - 1];
      assert order == init + [last];
      DropLast(rooms, order);
      LeftEventsCount(rooms, init, s);
      if s in rooms[last] {
        assert HeldRooms(rooms, order, s) == HeldRooms(rooms, init, s) + {last};
      } else {
        assert HeldRooms(rooms, order, s) == HeldRooms(rooms, init, s);
      }
    }
  }

  /** A disconnect announces itself exactly once in each room that held the socket, to the members that
      remain, and nowhere else. */
  lemma LeftEventsExact(rooms: map<Id, set<SocketId>>, order: seq<Id>, s: SocketId)
    requires NoDups(order) && forall d :: d in order ==> d in rooms
    ensures forall e :: e in LeftEvents(rooms, order, s) ==>
      e.UserLeft? && e.room in HeldRooms(rooms, order, s) && e.recipients == rooms[e.room] - {s} && e.socketId == s
    ensures forall d :: d in HeldRooms(rooms, order, s) ==> UserLeft(d, rooms[d] - {s}, s) in LeftEvents(rooms, order, s)
    ensures |LeftEvents(rooms, order, s)| == |HeldRooms(rooms, order, s)|
  {
    LeftEventsSound(rooms, order, s);
    LeftEventsComplete(rooms, order, s);
    LeftEventsCount(rooms, order, s);
  }

  /** One more room of the order adds its `userLeft` event, if it held the socket, at the end. */
  lemma LeftEventsStep(rooms: map<Id, set<SocketId>>, order: seq<Id>, i: nat, s: SocketId)
    requires i < |order| && forall d :: d in order ==> d in rooms
    ensures s in rooms[order[i]] ==>
      LeftEvents(rooms, order[..i + 1], s) == LeftEvents(rooms, order[..i], s) + [UserLeft(order[i], rooms[order[i]] - {s}, s)]
    ensures s !in rooms[order[i]] ==> LeftEvents(rooms, order[..i + 1], s) == LeftEvents(rooms, order[..i], s)
  {
    assert order[..i + 1][..i] == order[..i];
    assert LeftEvents(rooms, order[..i], s) + [] == LeftEvents(rooms, order[..i], s);
  }

  /** The rooms after the socket has left the first `i` rooms of `order`. */
  ghost function LeftFirst(rooms: map<Id, set<SocketId>>, order: seq<Id>, i: nat, s: SocketId): map<Id, set<SocketId>>
    requires i <= |order|
  {
    map d | d in rooms :: if d in order[..i] then rooms[d] - {s} else rooms[d]
  }

  /** Leaving one more room of a duplicate-free order changes that room alone. */
  lemma LeftFirstStep(rooms: map<Id, set<SocketId>>, order: seq<Id>, i: nat, s: SocketId)
    requires NoDups(order) && i < |order| && order[i] in rooms
    ensures order[i] in LeftFirst(rooms, order, i, s) && LeftFirst(rooms, order, i, s)[order[i]] == rooms[order[i]]
    ensures LeftFirst(rooms, order, i + 1, s) == LeftFirst(rooms, order, i, s)[order[i] := rooms[order[i]] - {s}]
    ensures s !in rooms[order[i]] ==> LeftFirst(rooms, order, i + 1, s) == LeftFirst(rooms, order, i, s)
  {
    assert order[..i + 1] == order[..i] + [order[i]];
    assert order[i] !in order[..i] by {
      forall j | 0 <= j < i ensures order[..i][j] != order[i] {
        assert order[..i][j] == order[j];
      }
    }
    if s !in rooms[order[i]] {
      var m := LeftFirst(rooms, order, i, s);
      assert rooms[order[i]] - {s} == rooms[order[i]];
      assert m[order[i] := rooms[order[i]]] == m;
    }
  }

  /** Once the socket has left every room of an order that lists them all, it has left every room. */
  lemma LeftFirstAll(rooms: map<Id, set<SocketId>>, order: seq<Id>, s: SocketId)
    requires forall d :: d in rooms ==> d in order
    ensures LeftFirst(rooms, order, |order|, s) == WithoutSocket(rooms, s)
  {
    assert order[..|order|] == order;
  }

  /** One more room of the order, in the terms of the rooms and events so far: the room still as it
      was loses the socket and announces it, or, without the socket, nothing changes. */
  lemma LeaveStep(rooms: map<Id, set<SocketId>>, order: seq<Id>, i: nat, s: SocketId)
    requires NoDups(order) && i < |order| && forall d :: d in order ==> d in rooms
    ensures order[i] in LeftFirst(rooms, order, i, s)
    ensures var now := LeftFirst(rooms, order, i, s)[order[i]];
      s in now ==>
        && LeftFirst(rooms, order, i + 1, s) == LeftFirst(rooms, order, i, s)[order[i] := now - {s}]
        && LeftEvents(rooms, order[..i + 1], s) == LeftEvents(rooms, order[..i], s) + [UserLeft(order[i], now - {s}, s)]
    ensures var now := LeftFirst(rooms, order, i, s)[order[i]];
      s !in now ==>
        && LeftFirst(rooms, order, i + 1, s) == LeftFirst(rooms, order, i, s)
        && LeftEvents(rooms, order[..i + 1], s) == LeftEvents(rooms, order[..i], s)
  {
    LeftEventsStep(rooms, order, i, s);
    LeftFirstStep(rooms, order, i, s);
  }

  /** One room of `handleDisconnect`'s loop: a room holding the socket loses it and its remaining
      members are told who left; any other room is left alone. */
  method LeaveRoom(rooms: map<Id, set<SocketId>>, left: seq<Event>, d: Id, s: SocketId)
    returns (rooms': map<Id, set<SocketId>>, left': seq<Event>)
    requires d in rooms
    ensures s in rooms[d] ==> rooms' == rooms[d := rooms[d] - {s}] && left' == left + [UserLeft(d, rooms[d] - {s}, s)]
    ensures s !in rooms[d] ==> rooms' == rooms && left' == left
  {
    rooms', left' := rooms, left;
    var clients := rooms[d];
    if s in clients {
      clients := clients - {s};
      rooms' := rooms[d := clients];
      left' := left + [UserLeft(d, clients, s)];
    }
  }

  /** The loop of `handleDisconnect`: walking the rooms in their iteration order, every room holding
      the socket loses it and announces the departure to the members that remain. */
  method LeaveRooms(rooms: map<Id, set<SocketId>>, order: seq<Id>, s: SocketId)
    returns (after: map<Id, set<SocketId>>, left: seq<Event>)
    requires NoDups(order) && forall d :: d in order <==> d in rooms
    ensures after == WithoutSocket(rooms, s)
    ensures left == LeftEvents(rooms, order, s)
  {
    after, left := rooms, [];
    var i := 0;
    while i < |order|
      invariant 0 <= i <= |order|
      invariant after == LeftFirst(rooms, order, i, s)
      invariant left == LeftEvents(rooms, order[..i], s)
    {
      LeaveStep(rooms, order, i, s);
      after, left := LeaveRoom(after, left, order[i], s);
      i := i + 1;
    }
    assert order[..i] == order;
    LeftFirstAll(rooms, order, s);
  }

  /** The gateway's state: the document service it checks access through, the room map (a JS `Map`,
      whose iteration order is the order rooms were first joined, kept in `roomOrder`) and the
      messages emitted so far. */
  class DocumentGateway {
    const documentService: D.DocumentService
    var documentRooms: map<Id, set<SocketId>>
    var roomOrder: seq<Id>
    var events: seq<Event>

    ghost predicate Valid()
      reads this, documentService
    {
      && documentService.Valid()
      && NoDups(roomOrder)
      && (forall d :: d in roomOrder <==> d in documentRooms)
    }

    constructor (documentService: D.DocumentService)
      requires documentService.Valid()
      ensures Valid() && this.documentService == documentService
      ensures documentRooms == map[] && roomOrder == [] && events == []
    {
      this.documentService := documentService;
      documentRooms := map[];
      roomOrder := [];
      events := [];
    }

    /** `handleDisconnect`: the socket leaves every room it was in, and each such room is told who left. */
    method HandleDisconnect(s: SocketId)
      requires Valid()
      modifies this
      ensures Valid()
      ensures documentRooms == WithoutSocket(old(documentRooms), s) && roomOrder == old(roomOrder)
      ensures events == old(events) + LeftEvents(old(documentRooms), old(roomOrder), s)
    {
      var after, left := LeaveRooms(documentRooms, roomOrder, s);
      documentRooms, events := after, events + left;
    }

    /** `joinDocument`: a caller who does not own an existing document gets only an `error`; otherwise
        the socket joins the room (created on first use), is told it joined, and the whole room,
        the newcomer included, is told who joined. */
    method OnJoinDocument(documentId: Id, userId: Id, s: SocketId)
      requires Valid()
      modifies this
      ensures Valid()
      ensures !D.Authorised(documentService.documents, documentId, userId) ==>
        && documentRooms == old(documentRooms) && roomOrder == old(roomOrder)
        && events == old(events) + [Error(s, AccessDenied)]
      ensures D.Authorised(documentService.documents, documentId, userId) ==>
        && documentRooms == old(documentRooms)[documentId := Members(old(documentRooms), documentId) + {s}]
        && roomOrder == (if documentId in old(documentRooms) then old(roomOrder) else old(roomOrder) + [documentId])
        && events == old(events) + [JoinedDocument(s, documentId), UserJoined(documentId, documentRooms[documentId], s)]
    {
      var found := D.FindOne(documentService.documents, documentId, userId);
      if found.Err? {
        events := events + [Error(s, AccessDenied)];
        return;
      }
      var clients := Members(documentRooms, documentId) + {s};
      if documentId !in documentRooms {
        roomOrder := roomOrder + [documentId];
      }
      documentRooms := documentRooms[documentId := clients];
      events := events + [JoinedDocument(s, documentId), UserJoined(documentId, clients, s)];
    }

    /** `editDocument`: a caller who does not own an existing document gets only an `error`; otherwise
        the content is saved through the service and relayed to the room's other members. */
    method OnEditDocument(documentId: Id, content: string, userId: Id, s: SocketId, now: nat)
      requires Valid()
      modifies this, documentService
      ensures Valid() && documentService.nextId == old(documentService.nextId)
      ensures documentRooms == old(documentRooms) && roomOrder == old(roomOrder)
      ensures !D.Authorised(old(documentService.documents), documentId, userId) ==>
        && documentService.documents == old(documentService.documents)
        && events == old(events) + [Error(s, AccessDenied)]
      ensures D.Authorised(old(documentService.documents), documentId, userId) ==>
        && documentService.documents == old(documentService.documents)[documentId :=
             D.Patched(old(documentService.documents)[documentId], D.DocumentPatch(None, Some(content)), now)]
        && events == old(events) + [DocumentUpdated(documentId, Members(documentRooms, documentId) - {s}, documentId, content, userId)]
    {
      var found := D.FindOne(documentService.documents, documentId, userId);
      if found.Err? {
        events := events + [Error(s, AccessDenied)];
        return;
      }
      var saved := documentService.Update(documentId, D.DocumentPatch(None, Some(content)), userId, now);
      events := events + [DocumentUpdated(documentId, Members(documentRooms, documentId) - {s}, documentId, content, userId)];
    }
  }

  /** The owner's document 0 open in two sessions, "A" and "B". */
  method TwoSessions() returns (service: D.DocumentService, gateway: DocumentGateway)
    ensures fresh(service) && fresh(gateway) && gateway.Valid() && gateway.documentService == service
    ensures D.Authorised(service.documents, 0, 1) && service.documents[0].userId == 1
    ensures gateway.documentRooms == map[0 := {"A", "B"}] && gateway.roomOrder == [0]
  {
    service := new D.DocumentService();
    assert !Text.IsBlank("Notes") by {
      assert !Text.IsJsWhitespace("Notes"[0]);
    }
    var created := service.Create("Notes", None, 1, 0);
    gateway := new DocumentGateway(service);
    gateway.OnJoinDocument(0, 1, "A");
    assert Members(map[], 0) == {};
    assert gateway.documentRooms[0] == {"A"};
    gateway.OnJoinDocument(0, 1, "B");
    assert gateway.documentRooms[0] == {"A", "B"};
  }

  /** An edit from one session is saved and reaches only the other session; a user who does not own
      the document is refused with the `error` event. */
  method EditScenario() returns (saved: Option<string>, relayed: Event, refused: Event)
    ensures saved == Some("hello")
    ensures relayed == DocumentUpdated(0, {"B"}, 0, "hello", 1)
    ensures refused == Error("C", AccessDenied)
  {
    var service, gateway := TwoSessions();
    gateway.OnEditDocument(0, "hello", 1, "A", 1);
    relayed := gateway.events[|gateway.events| - 1];
    assert {"A", "B"} - {"A"} == {"B"};
    saved := service.documents[0].content;
    gateway.OnJoinDocument(0, 2, "C");
    refused := gateway.events[|gateway.events| - 1];
  }

  /** A session that disconnects is announced to the session that stays, and leaves the room. */
  method DisconnectScenario() returns (left: seq<Event>, remaining: set<SocketId>)
    ensures left == [UserLeft(0, {"A"}, "B")]
    ensures remaining == {"A"}
  {
    var service, gateway := TwoSessions();
    var before := |gateway.events|;
    gateway.HandleDisconnect("B");
    assert {"A", "B"} - {"B"} == {"A"};
    assert LeftEvents(map[0 := {"A", "B"}], [0], "B") == [UserLeft(0, {"A"}, "B")] by {
      assert [0][..0] == [];
    }
    left := gateway.events[before..];
    remaining := gateway.documentRooms[0];
  }
}
