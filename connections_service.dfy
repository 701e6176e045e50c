/** Connections between users: a request from a requester to a receiver, created PENDING, whose
    status either side may later change, and a paginated listing of the connections a user is part of. */
module ConnectionsService {
  import opened Common
  import Tables
  import Sorting
  import Pagination

  datatype ConnectionStatus = PENDING | ACCEPTED | REJECTED | BLOCKED

  /** A row of the `connection` table. */
  datatype Connection = Connection(id: Id, requesterId: Id, receiverId: Id, status: ConnectionStatus, createdAt: nat)

  /** The arguments of `findUserConnections`; an absent page or limit takes its default. */
  datatype ConnectionQuery = ConnectionQuery(userId: Id, status: Option<ConnectionStatus>, page: Option<nat>, limit: Option<nat>)

  /** What `findUserConnections` returns. */
  datatype ConnectionPage = ConnectionPage(data: seq<Connection>, page: nat, limit: nat, total: nat, totalPages: nat)

  predicate WellFormed(conns: map<Id, Connection>, bound: nat) {
    Tables.Bounded(conns, bound) && forall k :: k in conns ==> conns[k].id == k
  }

  /** The user is on either side of the connection. */
  predicate Involves(c: Connection, userId: Id) {
    c.requesterId == userId || c.receiverId == userId
  }

  /** The `where` of `findUserConnections`: either side is the user, and the status when one is given. */
  predicate MatchesQuery(q: ConnectionQuery, c: Connection) {
    Involves(c, q.userId) && (q.status.Some? ==> c.status == q.status.value)
  }

  function QueryFilter(q: ConnectionQuery): Connection -> bool {
    (c: Connection) => MatchesQuery(q, c)
  }

  ghost function MatchingIds(conns: map<Id, Connection>, q: ConnectionQuery): set<Id> {
    set k | k in conns && MatchesQuery(q, conns[k])
  }

  /** `orderBy: { createdAt: 'desc' }`. */
  predicate CreatedLater(a: Connection, b: Connection) {
    a.createdAt >= b.createdAt
  }

  function PageOf(q: ConnectionQuery): nat {
    q.page.GetOr(1)
  }

  function LimitOf(q: ConnectionQuery): nat {
    q.limit.GetOr(10)
  }

  predicate ValidQuery(q: ConnectionQuery) {
    PageOf(q) >= 1 && LimitOf(q) >= 1
  }

  /** All connections the query selects, newest first. */
  function Listing(conns: map<Id, Connection>, bound: nat, q: ConnectionQuery): (rows: seq<Connection>)
    ensures Sorting.SortedBy(rows, CreatedLater)
  {
    Tables.Query(conns, bound, QueryFilter(q), CreatedLater)
  }

  /** The listing holds each stored connection the query selects exactly once, and nothing else. */
  lemma ListingExact(conns: map<Id, Connection>, bound: nat, q: ConnectionQuery)
    requires WellFormed(conns, bound)
    ensures forall c :: c in Listing(conns, bound, q) ==> c.id in conns && conns[c.id] == c && MatchesQuery(q, c)
    ensures forall k :: k in conns && MatchesQuery(q, conns[k]) ==> conns[k] in Listing(conns, bound, q)
    ensures |Listing(conns, bound, q)| == |MatchingIds(conns, q)|
  {
    Tables.QueryExact(conns, bound, QueryFilter(q), CreatedLater, (c: Connection) => c.id);
    assert Tables.MatchingKeys(conns, QueryFilter(q)) == MatchingIds(conns, q);
  }

  /** `findUserConnections`: one page of the connections the user is part of, newest first, with the
      total and the page count. */
  function FindUserConnections(conns: map<Id, Connection>, bound: nat, q: ConnectionQuery): (r: ConnectionPage)
    requires WellFormed(conns, bound) && ValidQuery(q)
    ensures r.page == PageOf(q) && r.limit == LimitOf(q) && r.total == |MatchingIds(conns, q)|
    ensures Pagination.IsPageCount(r.total, r.limit, r.totalPages)
    ensures |r.data| <= r.limit
    ensures forall c :: c in r.data ==> c.id in conns && conns[c.id] == c && MatchesQuery(q, c)
    ensures Sorting.SortedBy(r.data, CreatedLater)
    ensures r.data == Pagination.Paginate(Listing(conns, bound, q), PageOf(q), LimitOf(q))
  {
    ListingExact(conns, bound, q);
    var rows := Listing(conns, bound, q);
    var data := Pagination.Paginate(rows, PageOf(q), LimitOf(q));
    Pagination.PageKeepsOrder(rows, PageOf(q), LimitOf(q), CreatedLater);
    ConnectionPage(data, PageOf(q), LimitOf(q), |rows|, Pagination.TotalPages(|rows|, LimitOf(q)))
  }

  /** A connection shows up in the listings of both of its sides. */
  lemma ListedForBothSides(conns: map<Id, Connection>, bound: nat, id: Id, status: Option<ConnectionStatus>)
    requires WellFormed(conns, bound) && id in conns
    requires status.Some? ==> conns[id].status == status.value
    ensures conns[id] in Listing(conns, bound, ConnectionQuery(conns[id].requesterId, status, None, None))
    ensures conns[id] in Listing(conns, bound, ConnectionQuery(conns[id].receiverId, status, None, None))
  {
    ListingExact(conns, bound, ConnectionQuery(conns[id].requesterId, status, None, None));
    ListingExact(conns, bound, ConnectionQuery(conns[id].receiverId, status, None, None));
  }

  /** The connection service over its table. */
  class ConnectionService {
    var connections: map<Id, Connection>
    var nextId: Id

    ghost predicate Valid()
      reads this
    {
      WellFormed(connections, nextId)
    }

    constructor ()
      ensures Valid() && connections == map[] && nextId == 0
    {
      connections := map[];
      nextId := 0;
    }

    /** `create`: a new PENDING request from the requester to the receiver; nothing is checked. */
    method Create(requesterId: Id, receiverId: Id, now: nat) returns (c: Connection)
      requires Valid()
      modifies this
      ensures Valid()
      ensures c == Connection(old(nextId), requesterId, receiverId, PENDING, now)
      ensures old(nextId) !in old(connections) && connections == old(connections)[c.id := c]
    {
      c := Connection(nextId, requesterId, receiverId, PENDING, now);
      connections := connections[nextId := c];
      nextId := nextId + 1;
    }

    /** `updateStatus`: a missing connection is NotFound; otherwise only its status changes, to any value. */
    method UpdateStatus(id: Id, status: ConnectionStatus) returns (r: Result<Connection>)
      requires Valid()
      modifies this
      ensures Valid() && nextId == old(nextId)
      ensures id !in old(connections) ==> r == Err(NotFound) && connections == old(connections)
      ensures id in old(connections) ==>
        && r == Ok(old(connections)[id].(status := status))
        && connections == old(connections)[id := r.value]
    {
      if id !in connections {
        return Err(NotFound);
      }
      var c := connections[id].(status := status);
      connections := connections[id := c];
      r := Ok(c);
    }
  }

  /** A request is created PENDING; once accepted, both sides find it among their ACCEPTED connections;
      changing the status of a connection that does not exist is NotFound. */
  method AcceptScenario()
    returns (created: Connection, accepted: Result<Connection>, listedForRequester: bool,
             listedForReceiver: bool, missing: Result<Connection>)
    ensures created.status == PENDING && created.requesterId == 1 && created.receiverId == 2
    ensures accepted.Ok? && accepted.value.status == ACCEPTED && accepted.value.id == created.id
    ensures listedForRequester && listedForReceiver
    ensures missing == Err(NotFound)
  {
    var service := new ConnectionService();
    created := service.Create(1, 2, 0);
    accepted := service.UpdateStatus(created.id, ACCEPTED);
    ListedForBothSides(service.connections, service.nextId, created.id, Some(ACCEPTED));
    var row := service.connections[created.id];
    listedForRequester := row in Listing(service.connections, service.nextId, ConnectionQuery(1, Some(ACCEPTED), None, None));
    listedForReceiver := row in Listing(service.connections, service.nextId, ConnectionQuery(2, Some(ACCEPTED), None, None));
    missing := service.UpdateStatus(created.id + 1, REJECTED);
  }
}
