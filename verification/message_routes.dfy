/** GET and POST of `app/api/messages/route.ts`: the conversation between the
    caller and one friend, oldest first, and appending a message. */
module MessageRoutes {
  import opened Basics
  import opened Store

  /** The message was sent from a to b or from b to a. */
  predicate Between(m: Message, a: UserId, b: UserId) {
    (m.sender == a && m.receiver == b) || (m.sender == b && m.receiver == a)
  }

  predicate SortedByTime(ms: seq<Message>) {
    forall i, j :: 0 <= i < j < |ms| ==> ms[i].createdAt <= ms[j].createdAt
  }

  /** No message in ms is older than t. */
  predicate NotBefore(t: int, ms: seq<Message>) {
    forall x :: x in ms ==> t <= x.createdAt
  }

  lemma PrependSorted(m: Message, ms: seq<Message>)
    requires SortedByTime(ms) && NotBefore(m.createdAt, ms)
    ensures SortedByTime([m] + ms)
  {
    var r := [m] + ms;
    forall i, j | 0 <= i < j < |r| ensures r[i].createdAt <= r[j].createdAt {
      assert r[j] == ms[j - 1];
      if i > 0 {
        assert r[i] == ms[i - 1];
      } else {
        assert ms[j - 1] in ms;
      }
    }
  }

  /** The head of a sorted list is not after anything in its tail. */
  lemma SortedTail(ms: seq<Message>)
    requires SortedByTime(ms) && |ms| > 0
    ensures SortedByTime(ms[1..]) && NotBefore(ms[0].createdAt, ms[1..])
    ensures multiset(ms) == multiset(ms[1..]) + multiset{ms[0]}
  {
    assert ms == [ms[0]] + ms[1..];
    forall x | x in ms[1..] ensures ms[0].createdAt <= x.createdAt {
      var k :| 0 <= k < |ms[1..]| && ms[1..][k] == x;
      assert x == ms[k + 1];
    }
  }

  /** Place m before the first message that is not older than it. */
  function InsertByTime(m: Message, ms: seq<Message>): (r: seq<Message>)
    requires SortedByTime(ms)
    ensures SortedByTime(r)
    ensures multiset(r) == multiset(ms) + multiset{m}
    ensures forall x :: x in r <==> x == m || x in ms
    decreases |ms|
  {
    if |ms| == 0 then [m]
    else if m.createdAt <= ms[0].createdAt then
      PrependSorted(m, ms);
      [m] + ms
    else
      SortedTail(ms);
      var rest := InsertByTime(m, ms[1..]);
      PrependSorted(ms[0], rest);
      [ms[0]] + rest
  }

  /** `orderBy: { createdAt: 'asc' }`. The database's order among equal
      timestamps is not specified; this sort keeps them in storage order. */
  function SortByTime(ms: seq<Message>): (r: seq<Message>)
    ensures SortedByTime(r)
    ensures multiset(r) == multiset(ms)
    decreases |ms|
  {
    if |ms| == 0 then []
    else
      assert ms == [ms[0]] + ms[1..];
      InsertByTime(ms[0], SortByTime(ms[1..]))
  }

  /** The `where: { OR: [...] }` filter of the conversation query. */
  function Conversation(s: State, a: UserId, b: UserId): (r: seq<Message>)
    ensures forall m :: m in r <==> m in s.messages && Between(m, a, b)
    ensures IsSubseq(r, s.messages)
  {
    FilterIsSubseq((m: Message) => Between(m, a, b), s.messages);
    Filter((m: Message) => Between(m, a, b), s.messages)
  }

  /** GET /api/messages?friendId=...: 401 without a session, 400 when the
      parameter is missing or empty, else the conversation oldest first. */
  function GetMessages(session: Option<UserId>, friendId: Option<UserId>, s: State): (r: Answer<seq<Message>>)
    ensures SessionUser(session).None? ==> r == Failure(Unauthorized)
    ensures (SessionUser(session).Some? && (friendId.None? || friendId.value == ""))
              ==> r == Failure(BadRequest(FriendIdRequired))
    ensures r.Success? <==> SessionUser(session).Some? && friendId.Some? && friendId.value != ""
    ensures r.Success? ==> SortedByTime(r.body)
    ensures r.Success? ==> forall m :: m in r.body <==> m in s.messages && Between(m, session.value, friendId.value)
    ensures r.Success? ==> forall m :: multiset(r.body)[m] ==
                             (if Between(m, session.value, friendId.value) then multiset(s.messages)[m] else 0)
  {
    match SessionUser(session)
    case None => Failure(Unauthorized)
    case Some(caller) =>
      if friendId.None? || friendId.value == "" then Failure(BadRequest(FriendIdRequired))
      else
        var conv := Conversation(s, caller, friendId.value);
        assert forall m :: multiset(conv)[m] ==
                           (if Between(m, caller, friendId.value) then multiset(s.messages)[m] else 0) by {
          forall m ensures multiset(conv)[m] ==
            if Between(m, caller, friendId.value) then multiset(s.messages)[m] else 0 {
            FilterCount((m: Message) => Between(m, caller, friendId.value), s.messages, m);
          }
        }
        Success(SortByTime(conv))
  }

  /** POST /api/messages: append one message. The sender is always the caller,
      whatever the body says, and the receiver need not be a friend. The row's
      time stamp comes from the database clock, here the parameter `now`;
      `read` starting false is the assumed schema default. */
  function PostMessage(session: Option<UserId>, receiverId: UserId, content: string, now: int, s: State)
    : (r: (Status, State))
    ensures SessionUser(session).None? ==> r == (Unauthorized, s)
    ensures r.0 == Ok <==> SessionUser(session).Some?
    ensures r.0 == Ok ==>
              && |r.1.messages| == |s.messages| + 1
              && r.1.messages[..|s.messages|] == s.messages
              && var m := r.1.messages[|s.messages|];
              && m.sender == session.value && m.receiver == receiverId
              && m.content == content && m.createdAt == now && !m.read
              && r.1.requests == s.requests && r.1.edges == s.edges
              && r.1.nextRequestId == s.nextRequestId
  {
    match SessionUser(session)
    case None => (Unauthorized, s)
    case Some(caller) =>
      var m := Message(s.nextMessageId, caller, receiverId, content, now, false);
      (Ok, s.(messages := s.messages + [m], nextMessageId := s.nextMessageId + 1))
  }

  /** The same conversation comes back whichever side asks. Both answers
      select the same messages; that they also agree on the order of messages
      with equal time stamps is this model's choice of tie order, which the
      database does not promise. */
  lemma ConversationSymmetric(s: State, a: UserId, b: UserId)
    requires a != "" && b != ""
    ensures GetMessages(Some(a), Some(b), s) == GetMessages(Some(b), Some(a), s)
  {
    FilterExt((m: Message) => Between(m, a, b), (m: Message) => Between(m, b, a), s.messages);
  }

  /** A message posted by a to b shows up in both sides' view of the
      conversation. */
  lemma PostedMessageIsFetched(a: UserId, b: UserId, content: string, now: int, s: State)
    requires a != "" && b != ""
    ensures var s' := PostMessage(Some(a), b, content, now, s).1;
            var m := s'.messages[|s.messages|];
            && m in GetMessages(Some(a), Some(b), s').body
            && m in GetMessages(Some(b), Some(a), s').body
  {
  }
}
