/** Properties that relate several route calls: the store invariant every
    route keeps, and the behaviour users see across sequences of calls. */
module FriendLaws {
  import opened Basics
  import opened Store
  import opened FriendRoutes
  import opened MessageRoutes

  /** One call of a state-changing route. */
  datatype Call =
    | SendRequestCall(session: Option<UserId>, friendId: UserId)
    | LegacySendCall(session: Option<UserId>, friendId: UserId)
    | AcceptCall(session: Option<UserId>, requestId: RequestId)
    | CancelCall(session: Option<UserId>, requestId: RequestId)
    | RemoveCall(session: Option<UserId>, friendId: UserId)
    | PostMessageCall(session: Option<UserId>, receiverId: UserId, content: string, now: int)

  function Apply(c: Call, s: State): (Status, State) {
    match c
    case SendRequestCall(session, f) => SendRequest(session, f, s)
    case LegacySendCall(session, f) => LegacySendRequest(session, f, s)
    case AcceptCall(session, id) => Accept(session, id, s)
    case CancelCall(session, id) => Cancel(session, id, s)
    case RemoveCall(session, f) => Remove(session, f, s)
    case PostMessageCall(session, to, content, now) => PostMessage(session, to, content, now, s)
  }

  /** The store after a sequence of calls, each applied to the previous
      result, whatever their statuses. */
  function Run(calls: seq<Call>, s: State): State
    decreases |calls|
  {
    if |calls| == 0 then s else Run(calls[1..], Apply(calls[0], s).1)
  }

  // ---- the invariant -------------------------------------------------------

  /** A successful create inserts exactly one row, under a fresh id, and
      keeps the ordered-pair uniqueness when the pair was not yet present. */
  lemma NewRequestAddsOne(s: State, sender: UserId, receiver: UserId)
    requires Valid(s)
    ensures var s' := NewRequest(s, sender, receiver);
            && s.nextRequestId !in s.requests
            && s'.requests.Keys == s.requests.Keys + {s.nextRequestId}
            && |s'.requests| == |s.requests| + 1
            && FreshCounters(s')
            && (!HasPair(s, sender, receiver) ==> Valid(s'))
  {
  }

  lemma SendRequestPreservesValid(session: Option<UserId>, friendId: UserId, s: State)
    requires Valid(s)
    ensures Valid(SendRequest(session, friendId, s).1)
  {
  }

  lemma LegacySendPreservesValid(session: Option<UserId>, friendId: UserId, s: State)
    requires Valid(s)
    ensures Valid(LegacySendRequest(session, friendId, s).1)
  {
  }

  /** Accept adds the pair's two edges together, so a symmetric edge set
      stays symmetric; the row keeps its sender and receiver. */
  lemma AcceptPreservesValid(session: Option<UserId>, requestId: RequestId, s: State)
    requires Valid(s)
    ensures Valid(Accept(session, requestId, s).1)
  {
  }

  lemma CancelPreservesValid(session: Option<UserId>, requestId: RequestId, s: State)
    requires Valid(s)
    ensures Valid(Cancel(session, requestId, s).1)
  {
  }

  /** Remove takes out the pair's two edges together, so a symmetric edge set
      stays symmetric. */
  lemma RemovePreservesValid(session: Option<UserId>, friendId: UserId, s: State)
    requires Valid(s)
    ensures Valid(Remove(session, friendId, s).1)
  {
  }

  lemma PostMessagePreservesValid(session: Option<UserId>, to: UserId, content: string, now: int, s: State)
    requires Valid(s)
    ensures Valid(PostMessage(session, to, content, now, s).1)
  {
  }

  lemma ApplyPreservesValid(c: Call, s: State)
    requires Valid(s)
    ensures Valid(Apply(c, s).1)
  {
    match c
    case SendRequestCall(session, f) => SendRequestPreservesValid(session, f, s);
    case LegacySendCall(session, f) => LegacySendPreservesValid(session, f, s);
    case AcceptCall(session, id) => AcceptPreservesValid(session, id, s);
    case CancelCall(session, id) => CancelPreservesValid(session, id, s);
    case RemoveCall(session, f) => RemovePreservesValid(session, f, s);
    case PostMessageCall(session, to, content, now) => PostMessagePreservesValid(session, to, content, now, s);
  }

  /** From a valid store, no sequence of calls ever produces two requests
      for one ordered pair or a one-sided friendship. */
  lemma {:induction false} RunPreservesValid(calls: seq<Call>, s: State)
    requires Valid(s)
    ensures Valid(Run(calls, s))
    decreases |calls|
  {
    if |calls| > 0 {
      ApplyPreservesValid(calls[0], s);
      RunPreservesValid(calls[1..], Apply(calls[0], s).1);
    }
  }

  /** From the store before any user acted, every reachable store is valid. */
  lemma RunFromEmptyIsValid(calls: seq<Call>)
    ensures Valid(Run(calls, Empty()))
  {
    RunPreservesValid(calls, Empty());
  }

  /** A request row only moves forward: no call changes its sender or
      receiver, and an ACCEPTED row never goes back to PENDING. Rows are only
      ever created or deleted otherwise. */
  lemma ApplyRowsOnlyMoveForward(c: Call, s: State)
    requires Valid(s)
    ensures var s' := Apply(c, s).1;
            forall id :: id in s.requests && id in s'.requests ==>
              && s'.requests[id].sender == s.requests[id].sender
              && s'.requests[id].receiver == s.requests[id].receiver
              && (s.requests[id].status == Accepted ==> s'.requests[id].status == Accepted)
  {
  }

  // ---- sending ---------------------------------------------------------------

  /** Sending the same request twice fails the second time with 400. */
  lemma SendTwiceConflicts(a: UserId, b: UserId, s: State)
    requires SendRequest(Some(a), b, s).0 == Ok
    ensures var s' := SendRequest(Some(a), b, s).1;
            SendRequest(Some(a), b, s') == (BadRequest(RequestExists), s')
  {
  }

  /** A pending request from b to a does not stop a from sending to b: only
      the ordered pair (a, b) is looked up. */
  lemma ReverseRequestDoesNotBlock(a: UserId, b: UserId, s: State)
    requires Valid(s) && a != "" && b != "" && a != b
    requires !HasPair(s, a, b) && !HasPair(s, b, a) && (a, b) !in s.edges
    ensures var s1 := SendRequest(Some(b), a, s);
            && s1.0 == Ok
            && HasPair(s1.1, b, a)
            && SendRequest(Some(a), b, s1.1).0 == Ok
  {
  }

  /** The older creation route lets a request through between users who are
      already friends, where the newer route answers 400. */
  lemma LegacySendSkipsFriendCheck(a: UserId, b: UserId, s: State)
    requires a != "" && (a, b) in s.edges && !HasPair(s, a, b)
    ensures SendRequest(Some(a), b, s) == (BadRequest(AlreadyFriends), s)
    ensures LegacySendRequest(Some(a), b, s).0 == Ok
  {
  }

  // ---- accepting ---------------------------------------------------------------

  /** After a successful accept both users list each other, and (the list
      concatenating `friends` and `friendsOf`) each lists the other twice. */
  lemma AcceptMakesMutualFriends(b: UserId, requestId: RequestId, s: State)
    requires Accept(Some(b), requestId, s).0 == Ok
    ensures var a := s.requests[requestId].sender;
            var s' := Accept(Some(b), requestId, s).1;
            && ListFriends(Some(b), s').body[a] == 2
            && (a != "" ==> ListFriends(Some(a), s').body[b] == 2)
  {
  }

  /** Once the row is ACCEPTED, it no longer appears among the receiver's
      pending requests: the sender drops out of the list, since the pair has
      no other row. */
  lemma AcceptClearsPending(b: UserId, requestId: RequestId, s: State)
    requires Valid(s) && Accept(Some(b), requestId, s).0 == Ok
    ensures var s' := Accept(Some(b), requestId, s).1;
            s.requests[requestId].sender !in ListPending(Some(b), s').body
  {
  }

  /** Accept does not look at the status: accepting again changes nothing. */
  lemma AcceptIdempotent(session: Option<UserId>, requestId: RequestId, s: State)
    requires Accept(session, requestId, s).0 == Ok
    ensures var s' := Accept(session, requestId, s).1;
            Accept(session, requestId, s') == (Ok, s')
  {
    var s' := Accept(session, requestId, s).1;
    var s'' := Accept(session, requestId, s').1;
    assert s''.requests == s'.requests;
    assert s''.edges == s'.edges;
  }

  /** An ACCEPTED row whose friendship is in place is accepted again with no
      effect. */
  lemma AcceptAcceptedIsNoOp(b: UserId, requestId: RequestId, s: State)
    requires b != "" && requestId in s.requests
    requires s.requests[requestId].receiver == b && s.requests[requestId].status == Accepted
    requires (b, s.requests[requestId].sender) in s.edges && (s.requests[requestId].sender, b) in s.edges
    ensures Accept(Some(b), requestId, s) == (Ok, s)
  {
    var s' := Accept(Some(b), requestId, s).1;
    assert s'.requests == s.requests;
    assert s'.edges == s.edges;
  }

  /** Pending lists each sender with exactly one request, because each ordered
      pair has at most one row. */
  lemma PendingOneRequestEach(b: UserId, s: State)
    requires Valid(s) && b != ""
    ensures forall u :: u in ListPending(Some(b), s).body ==> |ListPending(Some(b), s).body[u]| == 1
  {
    var p := ListPending(Some(b), s).body;
    forall u | u in p ensures |p[u]| == 1 {
      var id :| id in s.requests && s.requests[id] == FriendRequest(u, b, Pending);
      assert p[u] == {id};
    }
  }

  // ---- cancelling ---------------------------------------------------------------

  /** The row is gone after a cancel, so a second cancel answers 404. */
  lemma CancelTwiceNotFound(session: Option<UserId>, requestId: RequestId, s: State)
    requires Cancel(session, requestId, s).0 == Ok
    ensures var s' := Cancel(session, requestId, s).1;
            Cancel(session, requestId, s') == (NotFound, s')
  {
  }

  /** Cancelling leaves no row behind: unless they are friends, the sender may
      send to the same receiver again. */
  lemma CancelThenResend(a: UserId, requestId: RequestId, s: State)
    requires Valid(s) && Cancel(Some(a), requestId, s).0 == Ok
    requires (a, s.requests[requestId].receiver) !in s.edges
    ensures var s' := Cancel(Some(a), requestId, s).1;
            SendRequest(Some(a), s.requests[requestId].receiver, s').0 == Ok
  {
  }

  // ---- removing ---------------------------------------------------------------

  /** Removing twice is removing once. */
  lemma RemoveIdempotent(session: Option<UserId>, friendId: UserId, s: State)
    ensures var s' := Remove(session, friendId, s).1;
            Remove(session, friendId, s') == Remove(session, friendId, s)
  {
    if SessionUser(session).Some? {
      var pair := {(session.value, friendId), (friendId, session.value)};
      assert s.edges - pair - pair == s.edges - pair;
    }
  }

  /** Removing someone who is no friend in either direction changes nothing. */
  lemma RemoveNonFriendIsNoOp(a: UserId, b: UserId, s: State)
    requires a != "" && (a, b) !in s.edges && (b, a) !in s.edges
    ensures Remove(Some(a), b, s) == (Ok, s)
  {
    assert s.edges - {(a, b), (b, a)} == s.edges;
  }

  /** The ACCEPTED row outlives the friendship: after accept and remove, the
      two are no longer friends, yet the original sender cannot send to the
      same receiver again. */
  lemma LeftoverAcceptedBlocksResend(b: UserId, requestId: RequestId, remover: UserId, s: State)
    requires Accept(Some(b), requestId, s).0 == Ok
    requires var a := s.requests[requestId].sender; remover == a || remover == b
    requires remover != ""
    ensures var a := s.requests[requestId].sender;
            var s1 := Accept(Some(b), requestId, s).1;
            var s2 := Remove(Some(remover), if remover == a then b else a, s1).1;
            && (a, b) !in s2.edges && (b, a) !in s2.edges
            && (a != "" ==> SendRequest(Some(a), b, s2) == (BadRequest(RequestExists), s2))
  {
  }

  /** ... and the receiver can restore that friendship alone, by accepting the
      old row again. */
  lemma ReacceptRestoresFriendship(b: UserId, requestId: RequestId, s: State)
    requires Accept(Some(b), requestId, s).0 == Ok
    ensures var a := s.requests[requestId].sender;
            var s1 := Accept(Some(b), requestId, s).1;
            var s2 := Remove(Some(b), a, s1).1;
            var s3 := Accept(Some(b), requestId, s2);
            && s3.0 == Ok && (a, b) in s3.1.edges && (b, a) in s3.1.edges
  {
  }

  // ---- listing friends ---------------------------------------------------------

  /** With symmetric edges the two halves of the friends list coincide, so the
      list names every friend exactly twice. */
  lemma SymmetricListIsDoubled(c: UserId, s: State)
    requires Symmetric(s.edges) && c != ""
    ensures Outgoing(s, c) == Incoming(s, c)
    ensures forall u :: ListFriends(Some(c), s).body[u] == if u in Outgoing(s, c) then 2 else 0
    ensures |ListFriends(Some(c), s).body| == 2 * |Outgoing(s, c)|
  {
  }

  // ---- whole scenarios -----------------------------------------------------------

  /** a sends to b, b accepts: each lists the other, and b's pending list no
      longer names a. */
  lemma SendAcceptScenario(a: UserId, b: UserId, s: State)
    requires Valid(s) && a != "" && b != ""
    requires !HasPair(s, a, b) && (a, b) !in s.edges
    ensures var s1 := SendRequest(Some(a), b, s);
            var s2 := Accept(Some(b), s.nextRequestId, s1.1);
            && s1.0 == Ok
            && a in ListPending(Some(b), s1.1).body
            && s2.0 == Ok
            && ListFriends(Some(a), s2.1).body[b] > 0
            && ListFriends(Some(b), s2.1).body[a] > 0
            && a !in ListPending(Some(b), s2.1).body
  {
    var s1 := SendRequest(Some(a), b, s).1;
    SendRequestPreservesValid(Some(a), b, s);
    assert s1.requests[s.nextRequestId] == FriendRequest(a, b, Pending);
    AcceptClearsPending(b, s.nextRequestId, s1);
  }

  /** a sends to b, then a cancels: b sees nothing pending from a, and a may
      send again. */
  lemma SendCancelScenario(a: UserId, b: UserId, s: State)
    requires Valid(s) && a != "" && b != ""
    requires !HasPair(s, a, b) && (a, b) !in s.edges
    ensures var s1 := SendRequest(Some(a), b, s);
            var s2 := Cancel(Some(a), s.nextRequestId, s1.1);
            && s1.0 == Ok && s2.0 == Ok
            && a !in ListPending(Some(b), s2.1).body
            && SendRequest(Some(a), b, s2.1).0 == Ok
  {
    var s1 := SendRequest(Some(a), b, s).1;
    SendRequestPreservesValid(Some(a), b, s);
    assert s1.requests[s.nextRequestId] == FriendRequest(a, b, Pending);
    CancelThenResend(a, s.nextRequestId, s1);
  }
}
