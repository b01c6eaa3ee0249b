/** The list updates of the friends page (`app/friends/page.tsx`): which
    button a search result shows, how typing in the search box clears the
    results, and the local edits made after a successful request. */
module FriendsPage {
  import opened Basics
  import opened Text

  /** A `{ id, status }` entry of a user's request lists. */
  datatype RequestRef = RequestRef(id: string, status: string)

  /** A user as the page holds it. `name` and `email` may be missing. */
  datatype User = User(
    id: string,
    name: Option<string>,
    email: Option<string>,
    image: string,
    receivedFriendRequests: seq<RequestRef>,
    sentFriendRequests: seq<RequestRef>)

  /** The placeholder the page stores after sending, before any reload. */
  const TempPending := RequestRef("temp", "PENDING")

  /** The button under a search result and the id its click sends. */
  datatype Action = AcceptRequest(requestId: string) | CancelRequest(requestId: string) | AddFriend(userId: string)

  function ActionFor(u: User): (a: Action)
    ensures a.AcceptRequest? <==> |u.sentFriendRequests| > 0
    ensures a.CancelRequest? <==> |u.sentFriendRequests| == 0 && |u.receivedFriendRequests| > 0
    ensures a.AddFriend? <==> |u.sentFriendRequests| == 0 && |u.receivedFriendRequests| == 0
    ensures a.AcceptRequest? ==> a.requestId == u.sentFriendRequests[0].id
    ensures a.CancelRequest? ==> a.requestId == u.receivedFriendRequests[0].id
    ensures a.AddFriend? ==> a.userId == u.id
  {
    if |u.sentFriendRequests| > 0 then AcceptRequest(u.sentFriendRequests[0].id)
    else if |u.receivedFriendRequests| > 0 then CancelRequest(u.receivedFriendRequests[0].id)
    else AddFriend(u.id)
  }

  /** An optional field, lower-cased, contains the lower-cased query; a
      missing field never matches. */
  predicate FieldMatches(field: Option<string>, query: string) {
    field.Some? && MatchesIgnoringCase(field.value, query)
  }

  predicate UserMatches(u: User, query: string) {
    FieldMatches(u.name, query) || FieldMatches(u.email, query)
  }

  /** The synchronous part of `handleSearch`: the results left on screen and
      whether the lookup request is sent (its answer, when it arrives,
      replaces the results and is not modelled). */
  datatype SearchStep = SearchStep(results: seq<User>, lookup: bool)

  function HandleSearch(query: string, results: seq<User>): (r: SearchStep)
    ensures r.lookup <==> |query| >= 3
    ensures |query| < 3 ==> r.results == []
    ensures (|results| > 0 && forall u :: u in results ==> !UserMatches(u, query)) ==> r.results == []
    ensures (|query| >= 3 && exists u :: u in results && UserMatches(u, query)) ==> r.results == results
    ensures r.results == [] || r.results == results
  {
    var kept := if |results| > 0 && !(exists u :: u in results && UserMatches(u, query)) then [] else results;
    if |query| < 3 then SearchStep([], false) else SearchStep(kept, true)
  }

  /** A non-empty list left on screen always holds a match for the query. */
  lemma SearchKeepsOnlyMatchingLists(query: string, results: seq<User>)
    ensures var kept := HandleSearch(query, results).results;
            kept != [] ==> |query| >= 3 && exists u :: u in kept && UserMatches(u, query)
  {
  }

  /** Typing the same query again leaves the screen as it is. */
  lemma HandleSearchIdempotent(query: string, results: seq<User>)
    ensures HandleSearch(query, HandleSearch(query, results).results) == HandleSearch(query, results)
  {
  }

  /** After a successful send, the target user (every entry with that id)
      gets the placeholder as its only received request. */
  function MarkRequested(results: seq<User>, friendId: string): (r: seq<User>)
    ensures |r| == |results|
    ensures forall i :: 0 <= i < |r| ==> r[i].(receivedFriendRequests := results[i].receivedFriendRequests) == results[i]
    ensures forall i :: 0 <= i < |r| ==>
              r[i].receivedFriendRequests == if results[i].id == friendId then [TempPending] else results[i].receivedFriendRequests
  {
    seq(|results|, i requires 0 <= i < |results| =>
      if results[i].id == friendId then results[i].(receivedFriendRequests := [TempPending]) else results[i])
  }

  predicate HasRequest(refs: seq<RequestRef>, requestId: string) {
    exists k :: 0 <= k < |refs| && refs[k].id == requestId
  }

  /** After a successful cancel, every entry that listed the cancelled id
      among its received requests has that list emptied. */
  function ClearCancelled(results: seq<User>, requestId: string): (r: seq<User>)
    ensures |r| == |results|
    ensures forall i :: 0 <= i < |r| ==> r[i].(receivedFriendRequests := results[i].receivedFriendRequests) == results[i]
    ensures forall i :: 0 <= i < |r| ==>
              r[i].receivedFriendRequests == if HasRequest(results[i].receivedFriendRequests, requestId) then [] else results[i].receivedFriendRequests
    ensures forall i :: 0 <= i < |r| ==> !HasRequest(r[i].receivedFriendRequests, requestId)
  {
    seq(|results|, i requires 0 <= i < |results| =>
      if HasRequest(results[i].receivedFriendRequests, requestId) then results[i].(receivedFriendRequests := []) else results[i])
  }

  /** After a successful remove, every entry for that user leaves the list. */
  function DropFriend(friends: seq<User>, friendId: string): (r: seq<User>)
    ensures forall u :: u in r <==> u in friends && u.id != friendId
    ensures IsSubseq(r, friends)
    ensures forall u: User :: u.id != friendId ==> multiset(r)[u] == multiset(friends)[u]
  {
    var keep := (u: User) => u.id != friendId;
    FilterIsSubseq(keep, friends);
    assert forall u :: multiset(Filter(keep, friends))[u] == if keep(u) then multiset(friends)[u] else 0 by {
      forall u ensures multiset(Filter(keep, friends))[u] == if keep(u) then multiset(friends)[u] else 0 {
        FilterCount(keep, friends, u);
      }
    }
    Filter(keep, friends)
  }

  /** Once sent, the target's button turns into "Cancel Request" for the
      placeholder id (unless that user had itself sent a request). */
  lemma SendTurnsButtonToCancel(results: seq<User>, friendId: string, i: int)
    requires 0 <= i < |results| && results[i].id == friendId
    requires |results[i].sentFriendRequests| == 0
    ensures ActionFor(MarkRequested(results, friendId)[i]) == CancelRequest("temp")
  {
  }

  /** Once cancelled, an affected entry's button is "Add Friend" again
      (unless that user had itself sent a request). */
  lemma CancelTurnsButtonToAdd(results: seq<User>, requestId: string, i: int)
    requires 0 <= i < |results| && HasRequest(results[i].receivedFriendRequests, requestId)
    requires |results[i].sentFriendRequests| == 0
    ensures ActionFor(ClearCancelled(results, requestId)[i]) == AddFriend(results[i].id)
  {
  }

  /** Cancelling the placeholder undoes the send, when the target had no
      received requests before and no other entry held the placeholder id. */
  lemma CancelUndoesSend(results: seq<User>, friendId: string)
    requires forall i :: 0 <= i < |results| && results[i].id == friendId ==> results[i].receivedFriendRequests == []
    requires forall i :: 0 <= i < |results| ==> !HasRequest(results[i].receivedFriendRequests, "temp")
    ensures ClearCancelled(MarkRequested(results, friendId), "temp") == results
  {
    var m := MarkRequested(results, friendId);
    var c := ClearCancelled(m, "temp");
    forall i | 0 <= i < |results| ensures c[i] == results[i] {
      if results[i].id == friendId {
        assert m[i].receivedFriendRequests[0].id == "temp";
      }
    }
  }

  /** Removing a friend twice is removing once. */
  lemma DropFriendIdempotent(friends: seq<User>, friendId: string)
    ensures DropFriend(DropFriend(friends, friendId), friendId) == DropFriend(friends, friendId)
  {
    FilterIdempotent((u: User) => u.id != friendId, friends);
  }
}
