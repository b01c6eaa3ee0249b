/** The database behind the API routes, as one immutable value: the
    `FriendRequest` rows keyed by id, the self-relation `friends`/`friendsOf`
    of `User` as a set of directed edges, and the `Message` rows. */
module Store {
  import opened Basics

  type UserId = string
  type RequestId = nat
  type MessageId = nat

  datatype RequestStatus = Pending | Accepted

  /** A `FriendRequest` row. New rows start `Pending`. */
  datatype FriendRequest = FriendRequest(sender: UserId, receiver: UserId, status: RequestStatus)

  /** A `Message` row; `read` is stored but no route ever sets it (new rows
      are assumed to start unread, the schema's default). */
  datatype Message = Message(
    id: MessageId,
    sender: UserId,
    receiver: UserId,
    content: string,
    createdAt: int,
    read: bool)

  /** The whole store. An edge `(a, b)` means b is in a's `friends` list,
      hence a is in b's `friendsOf` list. The two counters stand in for the
      database's generator of fresh row ids. */
  datatype State = State(
    requests: map<RequestId, FriendRequest>,
    edges: set<(UserId, UserId)>,
    messages: seq<Message>,
    nextRequestId: RequestId,
    nextMessageId: MessageId)

  /** Why a 400 answer was given; the source distinguishes the two by the
      response text. */
  datatype Reason = RequestExists | AlreadyFriends | FriendIdRequired

  /** The HTTP status of a route's answer: 200, 401, 400 and 404. */
  datatype Status = Ok | Unauthorized | BadRequest(reason: Reason) | NotFound

  /** A read route's answer: a body on success, otherwise an error status. */
  datatype Answer<+T> = Success(body: T) | Failure(status: Status)

  /** Every route starts with `if (!session?.user?.id) return 401`: a missing
      session and an empty id are both refused. The friends list route and the
      other routes get the id from different login setups; the model assumes
      both give the same user the same id. */
  function SessionUser(session: Option<UserId>): (caller: Option<UserId>)
    ensures caller.Some? <==> session.Some? && session.value != ""
    ensures caller.Some? ==> caller == session
  {
    if session.Some? && session.value != "" then session else None
  }

  /** Some row holds the ordered pair (sender, receiver), in any status: the
      `senderId_receiverId` unique lookup. */
  predicate HasPair(s: State, sender: UserId, receiver: UserId) {
    exists id :: id in s.requests && s.requests[id].sender == sender && s.requests[id].receiver == receiver
  }

  /** The database's unique constraint on (senderId, receiverId). */
  ghost predicate UniquePairs(requests: map<RequestId, FriendRequest>) {
    forall i, j :: i in requests && j in requests && i != j ==>
      (requests[i].sender, requests[i].receiver) != (requests[j].sender, requests[j].receiver)
  }

  /** Friendship is mutual: every edge has its reverse. */
  ghost predicate Symmetric(edges: set<(UserId, UserId)>) {
    forall a, b :: (a, b) in edges ==> (b, a) in edges
  }

  /** The id generators never hand out an id already in use. */
  ghost predicate FreshCounters(s: State) {
    && (forall id :: id in s.requests ==> id < s.nextRequestId)
    && (forall i :: 0 <= i < |s.messages| ==> s.messages[i].id < s.nextMessageId)
  }

  /** The invariant every route preserves. */
  ghost predicate Valid(s: State) {
    && FreshCounters(s)
    && UniquePairs(s.requests)
    && Symmetric(s.edges)
  }

  /** The store before any user acted. */
  function Empty(): (s: State)
    ensures Valid(s) && s.requests == map[] && s.edges == {} && s.messages == []
  {
    State(map[], {}, [], 0, 0)
  }
}
