# Friend relationships, messages and page list updates of a trip planner

This project models the core of a trip-planning social web application in
Dafny. Users send friend requests, accept or cancel them, remove friends and
exchange direct messages, and the client pages keep small local lists: search
results, the friends list, the friends picked for a trip and a filtered list
of airports.

The database is one immutable `Store.State` value. It holds:

- the `FriendRequest` rows, as a map from request id to (sender, receiver,
  status), where the status is PENDING or ACCEPTED;
- the `friends`/`friendsOf` self-relation of users, as a set of directed
  edges `(a, b)`, meaning b is in a's `friends` list;
- the `Message` rows, as a sequence;
- two counters that hand out fresh row ids.

Each route handler is a pure function. It takes the session user
(`Option<UserId>`) and the request body, and returns the HTTP status with the
new store. The three writes of an accept form a single transition, so they
apply together or not at all. Read routes return an `Answer`, which is either
a body or an error status. They return no store, so they are read-only by
construction.

Modules:

- `Basics` (basics.dfy): `Option`, a generic `Filter`, subsequences, and
  duplicate-freedom.
- `Text` (text.dfy): ASCII `toLowerCase` and `includes`.
- `Store` (store.dfy): the rows, the store, the statuses, and the invariant
  `Valid`. `Valid` says ids are fresh, each ordered (sender, receiver) pair has
  at most one row, and the edge set is symmetric.
- `FriendRoutes` (friend_routes.dfy): the handlers under `app/api/friends`.
- `MessageRoutes` (message_routes.dfy): GET and POST of `app/api/messages`.
- `FriendLaws` (friend_laws.dfy): properties that span several calls. Every
  route preserves `Valid`, and so does any sequence of calls. The file also
  proves the observable consequences, such as double listing, the leftover
  ACCEPTED row, idempotence, and whole user scenarios.
- `FriendsPage`, `TripPlanner`, `AirportSelect`: the client list and record
  updates.

Three behaviours of the code are easy to miss:

- A duplicate request and an existing friendship are both refused with
  status 400. `Store.Reason` records which of the two response texts was
  sent.
- `GET /api/friends` concatenates `friends` and `friendsOf` without removing
  duplicates. Friendship is stored as two directed edges, so every friend is
  listed twice (`FriendLaws.SymmetricListIsDoubled`).
  This route and the older `POST /api/friends` read the caller from a
  different login setup than the other routes. The model passes the same
  user id to all of them (see "## Left out").
- Removing a friend does not touch the ACCEPTED request row. That row then
  blocks the original sender from sending again
  (`FriendLaws.LeftoverAcceptedBlocksResend`). It also lets the receiver
  restore the friendship alone (`FriendLaws.ReacceptRestoresFriendship`).

## Model

| member | source | states |
|---|---|---|
| FriendRoutes.SendRequest | app/api/friends/request/route.ts:6-54 | no session gives 401 and no change; an existing row for the ordered pair gives 400 "already exists", checked before the friendship test; an outgoing friend edge gives 400 "already friends"; otherwise exactly the new PENDING row (caller, friendId) is added and nothing else changes |
| FriendRoutes.LegacySendRequest | app/api/friends/route.ts:26-56 | no session gives 401; only a duplicate ordered pair is refused (400, no change); otherwise one PENDING row with the caller as sender is added and the edges are untouched |
| FriendRoutes.Accept | app/api/friends/accept/route.ts:6-52 | no session gives 401; an unknown id or a caller who is not the receiver gives 404 with no change; success marks the row ACCEPTED, keeps its sender and receiver, adds both directed edges, and leaves other rows, other edges and messages alone |
| FriendRoutes.Cancel | app/api/friends/cancel/route.ts:6-28 | no session gives 401; an unknown id or a caller who is not the sender gives 404 with no change; success deletes exactly that row whatever its status and never touches edges |
| FriendRoutes.Remove | app/api/friends/remove/route.ts:6-28 | no session gives 401; otherwise neither (caller, friendId) nor (friendId, caller) remains, every other edge is kept, and request rows and messages are untouched |
| FriendRoutes.ListPending | app/api/friends/pending/route.ts:6-33 | no session gives 401; the listed users are exactly the senders of some PENDING row to the caller, and each carries exactly the ids of its PENDING rows to the caller |
| FriendRoutes.ListFriends | app/api/friends/route.ts:6-24 | no session gives 401; each user is listed once per directed edge between it and the caller, and the length is the size of `friends` plus the size of `friendsOf` |
| FriendRoutes.NewRequest | app/api/friends/request/route.ts:46-51 | the created row is PENDING with the given sender and receiver under the next id; all older rows, edges and messages are unchanged |
| Store.SessionUser | app/api/friends/request/route.ts:9-11 | no caller exactly when the session is missing or its user id is empty; otherwise the caller is the session's user id. The 401 clause of every route is stated through it |
| FriendLaws.NewRequestAddsOne | app/api/friends/request/route.ts:46-51 | on a valid store the new id was unused, the row count grows by exactly one, and ordered-pair uniqueness survives when the pair was absent |
| FriendLaws.SendRequestPreservesValid | app/api/friends/request/route.ts:16-51 | sending keeps fresh ids, at most one row per ordered pair, and symmetric edges |
| FriendLaws.LegacySendPreservesValid | app/api/friends/route.ts:35-53 | the older creation route keeps the same invariant |
| FriendLaws.AcceptPreservesValid | app/api/friends/accept/route.ts:25-49 | accepting keeps pair uniqueness, and a symmetric edge set stays symmetric |
| FriendLaws.CancelPreservesValid | app/api/friends/cancel/route.ts:15-25 | cancelling keeps the invariant |
| FriendLaws.RemovePreservesValid | app/api/friends/remove/route.ts:15-25 | removing both directions keeps a symmetric edge set symmetric |
| FriendLaws.PostMessagePreservesValid | app/api/messages/route.ts:44-50 | posting keeps message ids fresh and the invariant |
| FriendLaws.ApplyPreservesValid | app/api/friends/accept/route.ts:25-49 | every state-changing route, whatever its status, maps a valid store to a valid store |
| FriendLaws.RunPreservesValid | app/api/friends/request/route.ts:16-51 | any sequence of route calls from a valid store ends in a valid store |
| FriendLaws.RunFromEmptyIsValid | app/api/friends/request/route.ts:16-51 | every store reachable by route calls from the empty store is valid |
| FriendLaws.ApplyRowsOnlyMoveForward | app/api/friends/accept/route.ts:27-30 | no route call changes a surviving row's sender or receiver, and an ACCEPTED row never returns to PENDING |
| FriendLaws.SendTwiceConflicts | app/api/friends/request/route.ts:16-27 | a second identical send right after a successful one gives 400 "already exists" and no change |
| FriendLaws.ReverseRequestDoesNotBlock | app/api/friends/request/route.ts:17-22 | after b sends to a, a can still send to b, because only the ordered pair is looked up |
| FriendLaws.LegacySendSkipsFriendCheck | app/api/friends/route.ts:35-55 | between existing friends the newer route answers 400 "already friends", while the older route creates the request |
| FriendLaws.AcceptMakesMutualFriends | app/api/friends/accept/route.ts:32-48 | after a successful accept, sender and receiver each appear twice in the other's friends list |
| FriendLaws.AcceptClearsPending | app/api/friends/pending/route.ts:13-21 | on a valid store, after accept the sender no longer appears among the receiver's pending requests |
| FriendLaws.AcceptIdempotent | app/api/friends/accept/route.ts:20-49 | the status is not checked: accepting the same row again succeeds and changes nothing |
| FriendLaws.AcceptAcceptedIsNoOp | app/api/friends/accept/route.ts:20-49 | accepting an ACCEPTED row whose two edges exist returns success with the store unchanged |
| FriendLaws.PendingOneRequestEach | app/api/friends/pending/route.ts:22-29 | on a valid store every listed sender carries exactly one request |
| FriendLaws.CancelTwiceNotFound | app/api/friends/cancel/route.ts:15-21 | a second cancel of the same id answers 404 |
| FriendLaws.CancelThenResend | app/api/friends/cancel/route.ts:23-25 | after a successful cancel the sender can send to the same receiver again unless already friends |
| FriendLaws.RemoveIdempotent | app/api/friends/remove/route.ts:15-25 | removing twice gives the same status and store as removing once |
| FriendLaws.RemoveNonFriendIsNoOp | app/api/friends/remove/route.ts:18-23 | removing someone with no edge in either direction succeeds and changes nothing |
| FriendLaws.LeftoverAcceptedBlocksResend | app/api/friends/remove/route.ts:15-25 | after accept then remove by either side the pair is no longer connected, yet the original sender's new request gets 400 "already exists" |
| FriendLaws.ReacceptRestoresFriendship | app/api/friends/accept/route.ts:20-49 | after accept then remove, the receiver accepting the old row again restores both edges |
| FriendLaws.SymmetricListIsDoubled | app/api/friends/route.ts:21 | with symmetric edges `friends` and `friendsOf` coincide, every friend is listed exactly twice, and the list is twice as long as the set of friends |
| FriendLaws.SendAcceptScenario | app/api/friends/accept/route.ts:25-49 | a sends to b and b accepts the new id: a was pending for b, each then lists the other, and a is pending no more |
| FriendLaws.SendCancelScenario | app/api/friends/cancel/route.ts:23-25 | a sends to b and cancels: nothing from a is pending for b, and a new send succeeds |
| MessageRoutes.SortByTime | app/api/messages/route.ts:27-29 | the result is ordered by non-decreasing creation time and is a permutation of the input |
| MessageRoutes.Conversation | app/api/messages/route.ts:20-26 | the selected messages are exactly those sent from a to b or from b to a, kept in storage order as a subsequence of the log |
| MessageRoutes.GetMessages | app/api/messages/route.ts:6-33 | no session gives 401; a missing or empty friendId gives 400; otherwise the result is exactly the messages between caller and friend in either direction, with their multiplicities, oldest first |
| MessageRoutes.PostMessage | app/api/messages/route.ts:35-53 | no session gives 401; otherwise exactly one unread message from the caller to the given receiver is appended, with the given content and time; earlier messages, requests and edges are unchanged; no friendship is required |
| MessageRoutes.ConversationSymmetric | app/api/messages/route.ts:20-29 | asking as a about b returns the same conversation as asking as b about a |
| MessageRoutes.PostedMessageIsFetched | app/api/messages/route.ts:44-50 | a posted message appears in both participants' view of the conversation |
| FriendsPage.ActionFor | app/friends/page.tsx:200-221 | Accept with the first sent-request id when the user sent requests; otherwise Cancel with the first received-request id when there is one; otherwise Add Friend with the user's id |
| FriendsPage.HandleSearch | app/friends/page.tsx:43-62 | a query shorter than 3 clears the results and sends no lookup; non-empty results with no case-insensitive name or email match are cleared; otherwise the results stay until the lookup answers |
| FriendsPage.SearchKeepsOnlyMatchingLists | app/friends/page.tsx:47-57 | whenever results stay on screen, the query has at least 3 characters and some listed user's name or email matches it |
| FriendsPage.HandleSearchIdempotent | app/friends/page.tsx:47-57 | handling the same query again leaves the results and the lookup decision as they were |
| FriendsPage.MarkRequested | app/friends/page.tsx:78-88 | same length and order; entries with the target id get exactly the placeholder PENDING request as received list; nothing else changes |
| FriendsPage.ClearCancelled | app/friends/page.tsx:138-148 | same length and order; entries listing the cancelled id get an empty received list, the others are unchanged, and afterwards no entry lists the id |
| FriendsPage.DropFriend | app/friends/page.tsx:168-170 | the result keeps the original order, drops every entry with that id, and keeps every other entry with its multiplicity |
| FriendsPage.SendTurnsButtonToCancel | app/friends/page.tsx:78-88 | after sending, the target's button becomes Cancel for the placeholder id "temp" |
| FriendsPage.CancelTurnsButtonToAdd | app/friends/page.tsx:138-148 | after cancelling, an affected entry's button is Add Friend again |
| FriendsPage.CancelUndoesSend | app/friends/page.tsx:138-148 | cancelling the placeholder after a send restores the original results when the target had no received requests |
| FriendsPage.DropFriendIdempotent | app/friends/page.tsx:168-170 | removing the same friend twice equals removing once |
| TripPlanner.ToggleFriend | app/dashboard/plan/page.tsx:158-164 | membership flips; a present name loses every occurrence while the rest keep order and counts; an absent name is appended and the length grows by one |
| TripPlanner.ToggleTwiceRestores | app/dashboard/plan/page.tsx:158-164 | toggling an absent name twice returns the original list |
| TripPlanner.ToggleKeepsNoDup | app/dashboard/plan/page.tsx:158-164 | a list without repeated names stays without repeats |
| TripPlanner.ChangeDate | app/dashboard/plan/page.tsx:53-58 | the start or the end date, chosen by the field, takes the value; every other field is unchanged |
| TripPlanner.ChangeName | app/dashboard/plan/page.tsx:46-51 | the name takes the value and every other field is unchanged |
| TripPlanner.NameAndDateChangesCommute | app/dashboard/plan/page.tsx:46-58 | the name setter and either date setter commute, and the last name written wins |
| TripPlanner.DateChangesCommute | app/dashboard/plan/page.tsx:53-58 | setting start and end commutes, and the last write to a date wins |
| AirportSelect.FilterAirports | app/components/AirportSelect.tsx:32-38 | the result is a subsequence of the five airports in their order, and contains exactly those whose name, city or code contains the query ignoring case |
| AirportSelect.EmptyQueryKeepsAll | app/components/AirportSelect.tsx:19-25 | the empty query offers all five airports in order |
| AirportSelect.Select | app/components/AirportSelect.tsx:60-64 | a click on an airport reports that airport's code to the parent, shows that code in the box and closes the dropdown |
| AirportSelect.SelectedAirportStaysListed | app/components/AirportSelect.tsx:60-64 | after a click the query is the clicked code, and filtering by it still lists the clicked airport |
| Text.IncludesIffOccurs | app/components/AirportSelect.tsx:34-36 | `includes` holds exactly when the needle occurs at some position of the haystack |
| Text.Lower | app/friends/page.tsx:47-49 | the result has the input's length and each character lower-cased (ASCII letters only); lower-casing again changes nothing (Text.LowerIdempotent) |
| Text.Includes | app/components/AirportSelect.tsx:34-36 | a needle is only found in a haystack at least as long as it; its exact meaning is stated by Text.IncludesIffOccurs |

## Left out

- Authentication (sessions, OAuth, cookies) is not modelled. The session user is a parameter, and an empty id counts as no session, as in `!session?.user?.id`.
- The two login setups are not modelled, and the model assumes they name the same user. `GET` and `POST /api/friends` take the session id from the JWT subject (`app/api/auth/[...nextauth]/route.ts`, no database adapter). The other routes take it from the database user (`lib/auth.ts`, with the Prisma adapter). Every route receives the same `Option<UserId>`, so the lemmas that compare `ListFriends` or `LegacySendRequest` with `SendRequest` or `Accept` for one caller rely on this assumption.
- The `User` table is not modelled. Route ids are assumed to name existing users, and the database errors for missing users (answered with status 500) are not modelled.
- Malformed or missing JSON bodies are not modelled. The source lets these throw and answers 500.
- Database-generated ids and creation times are not modelled. Fresh ids come from counters in the store, and the creation time is a parameter of the message post.
- The database schema is not part of this model. Two of its defaults are assumed: a new request row starts PENDING, and a new message starts with `read` false.
- Concurrency is not modelled: the race between the duplicate check and the insert, and real transaction or locking semantics. Each handler is one atomic step.
- The client side of the lookups is not modelled: the `fetch` calls, the answers that replace the search results, alerts, rendering, navigation, and the 3-second message polling.
- The trips route, flight search, and the budget field's `parseFloat` (floating point) are not modelled.
- `toLowerCase` lower-cases ASCII letters only; Unicode case mapping is not modelled. String lengths count characters, not UTF-16 code units.
- The "temp" placeholder id that the friends page stores after a send is not linked to the server model. A Cancel click on it would reach the cancel route with an id that names no row.
- FriendRoutes.ListFriends: the answer is a multiset. It keeps each user's multiplicity but not that the `friends` half comes before the `friendsOf` half, because the order inside each half is not fixed by the query.
- FriendRoutes.ListPending: the answer is a map from sender to request ids, because the query has no order.
- MessageRoutes.GetMessages: messages with equal timestamps keep their storage order. The database does not promise any particular order among them.
