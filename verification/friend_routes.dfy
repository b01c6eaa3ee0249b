/** The route handlers under `app/api/friends`, each one atomic transition of the
    store. Write routes return `(status, new state)`; read routes return an
    `Answer` and leave the store alone by construction. */
module FriendRoutes {
  import opened Basics
  import opened Store

  /** The row every successful `create` inserts. */
  function NewRequest(s: State, sender: UserId, receiver: UserId): (s': State)
    ensures s'.edges == s.edges && s'.messages == s.messages
    ensures s'.nextMessageId == s.nextMessageId && s'.nextRequestId > s.nextRequestId
    ensures s.nextRequestId in s'.requests
    ensures s'.requests[s.nextRequestId] == FriendRequest(sender, receiver, Pending)
    ensures forall id :: id in s.requests && id != s.nextRequestId ==> id in s'.requests && s'.requests[id] == s.requests[id]
    ensures forall id :: id in s'.requests ==> id in s.requests || id == s.nextRequestId
  {
    s.(requests := s.requests[s.nextRequestId := FriendRequest(sender, receiver, Pending)],
       nextRequestId := s.nextRequestId + 1)
  }

  /** POST /api/friends/request: refuse a duplicate ordered pair first, then an
      existing outgoing friendship, else create a pending request. */
  function SendRequest(session: Option<UserId>, friendId: UserId, s: State): (r: (Status, State))
    ensures SessionUser(session).None? ==> r == (Unauthorized, s)
    ensures r.0 != Ok ==> r.1 == s
    ensures SessionUser(session).Some? && HasPair(s, session.value, friendId) ==>
              r.0 == BadRequest(RequestExists)
    ensures (SessionUser(session).Some? && !HasPair(s, session.value, friendId)
             && (session.value, friendId) in s.edges) ==> r.0 == BadRequest(AlreadyFriends)
    ensures r.0 == Ok <==> SessionUser(session).Some? && !HasPair(s, session.value, friendId)
                           && (session.value, friendId) !in s.edges
    ensures r.0 == Ok ==> r.1 == NewRequest(s, session.value, friendId)
  {
    match SessionUser(session)
    case None => (Unauthorized, s)
    case Some(caller) =>
      if HasPair(s, caller, friendId) then (BadRequest(RequestExists), s)
      else if (caller, friendId) in s.edges then (BadRequest(AlreadyFriends), s)
      else (Ok, NewRequest(s, caller, friendId))
  }

  /** POST /api/friends (the older creation route): only the duplicate-pair
      check; an existing friendship does not stop it. */
  function LegacySendRequest(session: Option<UserId>, friendId: UserId, s: State): (r: (Status, State))
    ensures SessionUser(session).None? ==> r == (Unauthorized, s)
    ensures r.0 != Ok ==> r.1 == s
    ensures r.0 == Ok <==> SessionUser(session).Some? && !HasPair(s, session.value, friendId)
    ensures SessionUser(session).Some? && HasPair(s, session.value, friendId) ==>
              r.0 == BadRequest(RequestExists)
    ensures r.0 == Ok ==> r.1 == NewRequest(s, session.value, friendId)
  {
    match SessionUser(session)
    case None => (Unauthorized, s)
    case Some(caller) =>
      if HasPair(s, caller, friendId) then (BadRequest(RequestExists), s)
      else (Ok, NewRequest(s, caller, friendId))
  }

  /** POST /api/friends/accept: only the receiver may accept. In one
      transaction the row becomes ACCEPTED and both directed edges are
      connected. The status is not checked first. */
  function Accept(session: Option<UserId>, requestId: RequestId, s: State): (r: (Status, State))
    ensures SessionUser(session).None? ==> r == (Unauthorized, s)
    ensures r.0 != Ok ==> r.1 == s
    ensures (SessionUser(session).Some? && (requestId !in s.requests || s.requests[requestId].receiver != session.value))
              ==> r.0 == NotFound
    ensures r.0 == Ok <==> SessionUser(session).Some? && requestId in s.requests
                           && s.requests[requestId].receiver == session.value
    ensures r.0 == Ok ==>
              var q := s.requests[requestId];
              && r.1.requests.Keys == s.requests.Keys
              && r.1.requests[requestId] == FriendRequest(q.sender, q.receiver, Accepted)
              && (forall id :: id in s.requests && id != requestId ==> r.1.requests[id] == s.requests[id])
              && (q.receiver, q.sender) in r.1.edges && (q.sender, q.receiver) in r.1.edges
              && (forall a, b :: (a, b) in r.1.edges <==>
                    (a, b) in s.edges || (a, b) == (q.receiver, q.sender) || (a, b) == (q.sender, q.receiver))
              && r.1.messages == s.messages
              && r.1.nextRequestId == s.nextRequestId && r.1.nextMessageId == s.nextMessageId
  {
    match SessionUser(session)
    case None => (Unauthorized, s)
    case Some(caller) =>
      if requestId !in s.requests || s.requests[requestId].receiver != caller then (NotFound, s)
      else
        var q := s.requests[requestId];
        (Ok, s.(requests := s.requests[requestId := q.(status := Accepted)],
                edges := s.edges + {(caller, q.sender), (q.sender, caller)}))
  }

  /** POST /api/friends/cancel: only the sender may cancel; the row is hard
      deleted whatever its status, and friendship edges are left alone. */
  function Cancel(session: Option<UserId>, requestId: RequestId, s: State): (r: (Status, State))
    ensures SessionUser(session).None? ==> r == (Unauthorized, s)
    ensures r.0 != Ok ==> r.1 == s
    ensures (SessionUser(session).Some? && (requestId !in s.requests || s.requests[requestId].sender != session.value))
              ==> r.0 == NotFound
    ensures r.0 == Ok <==> SessionUser(session).Some? && requestId in s.requests
                           && s.requests[requestId].sender == session.value
    ensures r.0 == Ok ==>
              && r.1.requests.Keys == s.requests.Keys - {requestId}
              && (forall id :: id in r.1.requests ==> r.1.requests[id] == s.requests[id])
              && r.1.edges == s.edges && r.1.messages == s.messages
              && r.1.nextRequestId == s.nextRequestId && r.1.nextMessageId == s.nextMessageId
  {
    match SessionUser(session)
    case None => (Unauthorized, s)
    case Some(caller) =>
      if requestId !in s.requests || s.requests[requestId].sender != caller then (NotFound, s)
      else (Ok, s.(requests := s.requests - {requestId}))
  }

  /** POST /api/friends/remove: disconnect friendId from the caller's
      `friends` and from the caller's `friendsOf`. Request rows stay. */
  function Remove(session: Option<UserId>, friendId: UserId, s: State): (r: (Status, State))
    ensures SessionUser(session).None? ==> r == (Unauthorized, s)
    ensures r.0 == Ok <==> SessionUser(session).Some?
    ensures r.0 == Ok ==>
              && (session.value, friendId) !in r.1.edges && (friendId, session.value) !in r.1.edges
              && (forall a, b :: (a, b) in r.1.edges <==>
                    (a, b) in s.edges && (a, b) != (session.value, friendId) && (a, b) != (friendId, session.value))
              && r.1.requests == s.requests && r.1.messages == s.messages
              && r.1.nextRequestId == s.nextRequestId && r.1.nextMessageId == s.nextMessageId
  {
    match SessionUser(session)
    case None => (Unauthorized, s)
    case Some(caller) => (Ok, s.(edges := s.edges - {(caller, friendId), (friendId, caller)}))
  }

  /** The ids of the PENDING rows from `sender` to `receiver`. */
  function PendingIds(s: State, sender: UserId, receiver: UserId): set<RequestId> {
    set id | id in s.requests && s.requests[id] == FriendRequest(sender, receiver, Pending)
  }

  /** GET /api/friends/pending: the users with some PENDING request to the
      caller, each with its `sentFriendRequests` narrowed to exactly those
      requests. Prisma's `findMany` has no order, so the answer is a map. */
  function ListPending(session: Option<UserId>, s: State): (r: Answer<map<UserId, set<RequestId>>>)
    ensures r.Failure? <==> SessionUser(session).None?
    ensures r.Failure? ==> r.status == Unauthorized
    ensures r.Success? ==> forall u :: u in r.body <==>
              exists id :: id in s.requests && s.requests[id] == FriendRequest(u, session.value, Pending)
    ensures r.Success? ==> forall u, id :: u in r.body ==>
              (id in r.body[u] <==> id in s.requests && s.requests[id] == FriendRequest(u, session.value, Pending))
  {
    match SessionUser(session)
    case None => Failure(Unauthorized)
    case Some(caller) =>
      var senders := set id | id in s.requests && s.requests[id].receiver == caller
                                && s.requests[id].status == Pending :: s.requests[id].sender;
      Success(map u | u in senders :: PendingIds(s, u, caller))
  }

  /** b is in a's `friends` list. */
  function Outgoing(s: State, a: UserId): set<UserId> {
    set e | e in s.edges && e.0 == a :: e.1
  }

  /** b is in a's `friendsOf` list. */
  function Incoming(s: State, a: UserId): set<UserId> {
    set e | e in s.edges && e.1 == a :: e.0
  }

  /** How many of the two directed edges between a and b exist. */
  function EdgeCount(s: State, a: UserId, b: UserId): nat {
    (if (a, b) in s.edges then 1 else 0) + (if (b, a) in s.edges then 1 else 0)
  }

  /** GET /api/friends: `[...friends, ...friendsOf]` with no de-duplication.
      The order inside each half is not fixed by the query, so the answer is
      the multiset of listed user ids. */
  function ListFriends(session: Option<UserId>, s: State): (r: Answer<multiset<UserId>>)
    ensures r.Failure? <==> SessionUser(session).None?
    ensures r.Failure? ==> r.status == Unauthorized
    ensures r.Success? ==> forall u :: r.body[u] == EdgeCount(s, session.value, u)
    ensures r.Success? ==> |r.body| == |Outgoing(s, session.value)| + |Incoming(s, session.value)|
  {
    match SessionUser(session)
    case None => Failure(Unauthorized)
    case Some(caller) => Success(multiset(Outgoing(s, caller)) + multiset(Incoming(s, caller)))
  }
}
