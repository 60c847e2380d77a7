# Verified models of the exchange's protocol and parsing cores

A Dafny project that models nine pieces of the exchange and proves what they promise, over every
input or every run. `dafny verify dfyconfig.toml` checks all of it.

| files | what they model |
|---|---|
| `Idempotency.dfy`, `IdempotencyProofs.dfy`, `IdempotencyRuns.dfy`, `IdempotencyTheorems.dfy`, `IdempotencyClients.dfy`, `IdempotencyServer.dfy` | the idempotency middleware: any number of requests over one table, every interleaving, crashes and failing writes included |
| `Gateway.dfy`, `GatewayRooms.dfy`, `GatewayTimers.dfy`, `GatewayBooks.dfy`, `GatewayOldBooks.dfy`, `GatewayDepartures.dfy`, `GatewayServer.dfy` | the realtime gateway: rooms, subscriptions, the coalescing order-book scheduler, overlapping database reads |
| `Base32.dfy`, `Totp.dfy` | base32, dynamic truncation, the TOTP generator and the three-step verifier |
| `Redaction.dfy`, `RedactionWalk.dfy`, `RedactionOutput.dfy`, `RedactionLayout.dfy` | the log redactor over object graphs with sharing and cycles |
| `IpAllowlist.dfy` | IPv4 and CIDR recognisers and the 32-bit mask test |
| `Decimals.dfy`, `Matching.dfy`, `MatchingTheorems.dfy`, `OrderLocks.dfy`, `OrderRuns.dfy` | the matching engine with its rounding, the lock of an order, and orders placed, matched and cancelled in any interleaving |
| `OpenOrders.dfy`, `Outbox.dfy`, `WithdrawAmount.dfy` | the open-orders cache, the mailer's outbox, the withdrawal amount check |
| `Text.dfy`, `Bits.dfy` | the few string and 32-bit operations the above rely on |

## How the protocols are modelled

The two protocols are transition systems: a `State`, an `Action` for every step that runs without
waiting, and a total function `Do`. An action that is not enabled leaves the state alone, so every
list of actions is a run and a theorem over all lists is a theorem over all interleavings. States
carry a history of events, which the theorems talk about. Next to each transition system stands the
class that changes its fields in place (`IdempotencyServer`, `GatewayServer`): one method for each
stretch of code between two waits, proved to be exactly one `Do` step on the abstract state. Their
`Valid()` says that this state is reachable, so every theorem about reachable states applies to an
object after any calls; `Promises` spells out the main ones. The mailer's `Valid()` says in the same way
that its outbox is that of its history.

In the idempotency model a request can be lost at any point, the claiming insert can report an error
before or after it has taken effect, and so can the final write. In the gateway model a timer may
fire late, database reads return in any order or fail, and a book is known by the number of signalled
changes it includes.

Loops of the source are loops here (`Base32.Encode`, `Base32.ToBuffer`, `Totp.TrySkews`,
`Redaction.RedactItems`, `Redaction.RedactEntries`, `Matching.MatchOrder`, `Outbox.Mailer.LastTokenFor`), each proved equal
to a function about which the theorems are stated.

## Where the code does not do what its documentation says

Each lemma named first says exactly when the code meets the property, for all inputs or runs; the one
after "for instance" gives an input or a run at which it does not.

- "Replays return the original response": every replay of a run repeats its owner's execution, and is
  what that execution's client received if and only if the first thing sent was JSON and nothing the
  handler did afterwards changed the status or the captured body
  (`IdempotencyClients.ReplayIsOriginal`; for instance `ReplayDiffers`). The wrapper captures before it
  sends, and it also captures bodies that are never sent.
- "Without re-executing": at most one execution of a key ends with a status under 500
  (`IdempotencyTheorems.AtMostOnce`). Clients can be sent more successes than that: what handlers may do
  keeps the bound of one in every run if and only if none of it sends a success and finishes with a 5xx
  (`IdempotencyClients.SeenAtMostOnceIff`; for instance `SentThenFailedMasks`, a handler that fails after
  it has answered: the error handler does not ask whether headers were sent). When one does, the number
  has no bound (`SeenWithoutBound`).
- "409 while the first is still in flight": in every run a request is refused if and only if another one
  owns its key, or the claim is orphaned, or the key is recorded and the request had looked it up before
  (`IdempotencyTheorems.RefusedIff`; the last two are refusals with nobody in flight, for instance
  `FirstRequestLost` and `IdempotencyClients.RefusedThoughRecorded`). An orphaned claim is refused for ever
  (`OrphanedForever`), since a claim can be released or recorded if and only if it is owned
  (`ResolvableIffOwned`); once a key is recorded everybody else gets the recorded answer
  (`AnsweredOnceRecorded`).
- Rooms: the generic `unsubscribe` leaves any room. A push reaches exactly the user's sockets that have
  not left their own room (`GatewayRooms.PushReaches`; for instance `FirstToLeave`), and a socket that
  left cannot come back (`LeftForGood`, `MissesPushes`). A market-data symbol can be subscribed exactly
  under the condition of `AskingForASymbol`; when it is supported and the list is not the obstacle, it is
  asked for in vain if and only if the generic `unsubscribe` left its room since it was listed
  (`AskedInVain`; for instance `LockedOut`), until it is taken off the list (`AskingAfterRemoving`).
- Order book: the last book a socket has been sent is the current one if and only if a read made after the
  last change was sent to it, and no older book after the newest it got (`GatewayBooks.LastBookIsCurrentIff`,
  in every reachable state). At rest a member misses such a read only if the latest snapshot failed
  (`DeliveredUnlessFailed`). So there are two ways to be left with an old book, overlapping snapshots and a
  failed read (`GatewayOldBooks.OverlapShowsAnOldBook` and `FailureShowsAnOldBook`, from any state at rest;
  for instance `OldBooksHappen`). Books broadcast in order are enough when the latest read does not fail
  (`LastBookIsCurrent`), and snapshots that do not overlap are in order (`OneAtATimeIsInOrder`).
- Base32: padding is stripped only at the very end of the text. Whatever '=' signs a respelled encoding
  contains, and wherever, it decodes to its bytes if and only if stripping the run at the very end leaves
  none, or there were no bytes (`Base32.PaddingMustBeLast`; for instance `PaddedThenBlank` and
  `PaddingInside`).
- `verifyTotp` throws instead of answering for well-formed codes in the first 30 seconds of the epoch, and
  beyond 64-bit counters (`Totp.ThrowsExactly`; for instance `ThrowsAtFirst`).
- The redactor writes `[Circular]` for any object it has met before. On every graph its markers stand exactly
  where cycles close if and only if the walk that remembers only its ancestors expands no object twice
  (`RedactionOutput.MarksCyclesIffUnshared`; for instance `OneMarkerIsFalse`, with a false marker next to a
  true one). Without cycles this is agreement with the plain recursion (`SameAsPlainIffTree`; for instance
  `SharingIsCalledCircular`).
- Dropping the invalid entries of an allowlist is harmless if and only if the list was empty or something
  is left; otherwise a list that admits nobody becomes one that admits everybody
  (`IpAllowlist.DroppingInvalidEntries`; for instance `OneEmptyEntry`).
- Locks "always cover execution": an order is in the book, and can be cancelled, from its placing on, before
  its own match, and that match overwrites what was recorded of earlier fills. Whatever the book, a match
  leaves the order's records and lock in balance if and only if nothing of the lock had been used or given
  back before (`OrderRuns.TakerIsKeptIff`; for instance `FilledBeforeItsMatch`), and it stays within the lock
  if and only if the worst case still fits (`OrderLocks.MatchStaysWithinIff`). In runs where matches come
  first every lock is in balance (`OrderRuns.LocksBalance`).
- `lastTokenFor` returns the token of the latest match exactly while fewer than 1000 mails have followed
  it (`Outbox.TokenUntilDropped`).

## Model

| member | source | states |
|---|---|---|
| `IdempotencyTheorems.RefinesAtomicMap` | backend/src/middleware/idempotency.ts:69-135 | in every run of any number of requests, the history of claims, refusals, replays, releases and recordings is one that an atomic map from key to absent, in flight for its owner, or done allows, where only the owner may handle, finish, release or record; and it leads there to the map that the table shows |
| `IdempotencyTheorems.SplitAddsOnlyRefusals` | backend/src/middleware/idempotency.ts:69-103 | in every run each claim, replay or refusal is what one indivisible claim-or-read would have answered at that moment, or a refusal while the row existed |
| `IdempotencyTheorems.UndisturbedAnswer` | backend/src/middleware/idempotency.ts:69-103 | a request whose three steps are not interleaved with others gets exactly the indivisible answer |
| `IdempotencyTheorems.AtMostOnce` | backend/src/middleware/idempotency.ts:88-134 | in every run: claims granted for a key are releases plus one if its row is present, at most one request owns a key, an owned row is a placeholder, and at most one handler execution finishes under 500 |
| `IdempotencyClients.SeenAtMostOnceIff` | backend/src/middleware/idempotency.ts:105-134 | what handlers may do keeps the bound "no key shows its clients two successes" in every run, losses included, if and only if none of it sends a success and finishes with a 5xx |
| `IdempotencyClients.SeenOrMasked` | backend/src/middleware/idempotency.ts:105-134 | in every run the successes sent to a key's clients, by executions that finished or were lost, are at least those masked by a later 5xx and at most one more |
| `IdempotencyClients.SeenWithoutBound` | backend/src/middleware/idempotency.ts:109-125 | for every list of handler operations that masks and every m there is a run in which every finished execution did exactly these and the clients of one key were sent m successes |
| `IdempotencyClients.LateFailureReleases` | backend/src/middleware/idempotency.ts:109-125 | a request whose handler sends a success and ends with a 5xx leaves the table as it found it, and one more success has been sent |
| `IdempotencyClients.SentThenFailedMasks` | backend/src/middleware/idempotency.ts:109-125 | a handler that answers 200 and then fails is one: status 500, the error body captured, 200 on the wire |
| `IdempotencyRuns.HandlesAll` | backend/src/middleware/idempotency.ts:109-114 | an owner left alone reaches the response that is the fold of its operations, the table untouched |
| `IdempotencyRuns.Serves` | backend/src/middleware/idempotency.ts:86-118 | a request served alone ends in its settling phase with a placeholder, and writes exactly its claim, its operations and its finish |
| `IdempotencyTheorems.RecordedStays` | backend/src/middleware/idempotency.ts:116-135 | no step changes a recorded row, although the recording update has no guard |
| `IdempotencyTheorems.WriteOnce` | backend/src/middleware/idempotency.ts:116-135 | a recorded row is the same after any continuation of the run |
| `IdempotencyTheorems.ReplaysTheOwner` | backend/src/middleware/idempotency.ts:73-84 | every replay in a run returns the status of the key's only successful execution and the body that execution last passed to `res.json` |
| `IdempotencyClients.ReplayIsOriginal` | backend/src/middleware/idempotency.ts:14-19 | every replay in a run repeats one execution of its key, and equals what that execution's client received if and only if the first thing its handler sent was JSON and nothing later changed status or captured body |
| `IdempotencyClients.ReplayDiffers` | backend/src/middleware/idempotency.ts:109-133 | a run in which the client received status 200 without JSON and the replay is 200 with a JSON null |
| `IdempotencyClients.ReplayFollows` | backend/src/middleware/idempotency.ts:69-135 | any execution that sends something and finishes under 500 is replayed, with its status and captured body, to a repeated request |
| `IdempotencyTheorems.OrphanedForever` | backend/src/middleware/idempotency.ts:19-19 | a claim whose owner is gone stays, and everything the history adds about its key is a refusal |
| `IdempotencyTheorems.LostAfterClaiming` | backend/src/middleware/idempotency.ts:86-143 | from any reachable state, a request that is lost right after its insert leaves such a claim |
| `IdempotencyTheorems.ReportedAfterClaiming` | backend/src/middleware/idempotency.ts:86-143 | so does one whose insert takes effect but is reported as failed |
| `IdempotencyTheorems.FirstRequestLost` | backend/src/middleware/idempotency.ts:86-143 | in particular the very first request |
| `IdempotencyTheorems.ResolvableIffOwned` | backend/src/middleware/idempotency.ts:116-143 | from a claimed row some continuation releases or records it if and only if a request owns the key |
| `IdempotencyTheorems.RefusedIff` | backend/src/middleware/idempotency.ts:69-103 | in every reachable state a request at its look-up or insert is refused if and only if another owns the key, or the claim is orphaned, or the key is recorded and the request is past its look-up; and the first excludes the others |
| `IdempotencyTheorems.RefusalsAreAsked` | backend/src/middleware/idempotency.ts:69-103 | no other step writes a refusal |
| `IdempotencyTheorems.AnsweredOnceRecorded` | backend/src/middleware/idempotency.ts:69-135 | from a reachable state with a recorded key, all that any continuation adds about it are replays of exactly that row, and refusals of requests that were between look-up and insert at that moment |
| `IdempotencyClients.RefusedThoughRecorded` | backend/src/middleware/idempotency.ts:69-103 | for every request and every handler that succeeds, a run in which a request is refused while the key is recorded and nobody is in flight |
| `IdempotencyTheorems.OwnerCanFinish` | backend/src/middleware/idempotency.ts:116-135 | an owner that sends something, finishes and settles leaves the key free or recorded |
| `IdempotencyTheorems.SettlingDecides` | backend/src/middleware/idempotency.ts:120-135 | in every run, a settled 5xx takes exactly this key out of the atomic map, any other status makes it done with that status and the captured body |
| `IdempotencyTheorems.AdmissionMeans` | backend/src/middleware/idempotency.ts:30-66 | a request is unauthorized without a user, else refused without a header, else admitted exactly when the trimmed header has 8 to 255 characters, under its user, its method and mounted route, and that header |
| `IdempotencyTheorems.DeniedIsOver` | backend/src/middleware/idempotency.ts:44-66 | a request that is not admitted leaves the table alone, is answered with the reason, and takes no further step |
| `IdempotencyTheorems.PaddedHeader` | backend/src/middleware/idempotency.ts:44-66 | white space around the header is ignored |
| `IdempotencyTheorems.SameKeyIff` | backend/src/middleware/idempotency.ts:33-37 | two admitted requests share a key if and only if user, method, mounted route and trimmed header agree |
| `IdempotencyProofs.KeyStep` | backend/src/middleware/idempotency.ts:69-143 | every step of every request keeps, for each key, ownership, the balance of claims, at most one success, what a row may hold, and that all replays agree with the row |
| `IdempotencyProofs.EventIsAtomic` | backend/src/middleware/idempotency.ts:69-135 | the event a step records is allowed by the atomic map, to the owner where it takes one, and has the same effect there as the step has on the table |
| `IdempotencyProofs.RequestStep` | backend/src/middleware/idempotency.ts:105-118 | every step keeps: a request handles nothing before its claim, and finishes with the status, body and sent response its own operations produced |
| `IdempotencyProofs.GoodRun` | backend/src/middleware/idempotency.ts:38-150 | the whole invariant holds after every run |
| `IdempotencyServer.Table.FindUnique` | backend/src/middleware/idempotency.ts:69-71 | finds the row of a key, or none |
| `IdempotencyServer.Table.Create` | backend/src/middleware/idempotency.ts:88-103 | inserts a placeholder, or reports a unique violation and changes nothing |
| `IdempotencyServer.Table.DeletePending` | backend/src/middleware/idempotency.ts:121-123 | deletes the row only while its status is null |
| `IdempotencyServer.Table.Update` | backend/src/middleware/idempotency.ts:126-135 | overwrites the row whatever it holds, or reports that there is none |
| `IdempotencyServer.Middleware.Promises` | backend/src/middleware/idempotency.ts:69-135 | after any calls the table shows the atomic map of the history, claims balance, and at most one execution of a key succeeded |
| `IdempotencyServer.Middleware.Enter` | backend/src/middleware/idempotency.ts:45-66 | the checks of user, header and length, in that order, are the protocol's arrival step; who passes them looks up the key of its user, method, route and trimmed header |
| `IdempotencyServer.Middleware.LookedUp` | backend/src/middleware/idempotency.ts:69-84 | the code after the look-up is the protocol's look-up step and replays what it records |
| `IdempotencyServer.Middleware.ClaimReturned` | backend/src/middleware/idempotency.ts:88-103 | the code around the insert is the claiming step, or its failing variant before or after taking effect |
| `IdempotencyServer.Middleware.HandlerDoes` | backend/src/middleware/idempotency.ts:109-114 | setting a status, the wrapped `res.json` and any other answer are the protocol's handler steps |
| `IdempotencyServer.Middleware.OnFinish` | backend/src/middleware/idempotency.ts:116-118 | the `finish` callback up to its wait is the finishing step |
| `IdempotencyServer.Middleware.SettleReturned` | backend/src/middleware/idempotency.ts:118-142 | the final write is the settling step, errors swallowed |
| `IdempotencyServer.Middleware.Lost` | backend/src/middleware/idempotency.ts:116-143 | losing a request is the crash step and leaves the table alone |
| `GatewayTimers.OneTimerPerSymbol` | backend/src/realtime/socket-server.ts:224-234 | in every reachable state at most one timer a symbol is armed, one is armed exactly when the symbol is pending, and it is due within 150 ms |
| `GatewayTimers.TimedSnapshotRate` | backend/src/realtime/socket-server.ts:44-44 | in every run the timer-driven snapshots of a symbol number at most T/150 + 1 in any T ms, and never exceed its signals |
| `GatewayTimers.SpacedCount` | backend/src/realtime/socket-server.ts:226-233 | times at least 150 ms apart of which n lie in a window: one of them lies at least 150 (n - 1) ms after its start |
| `GatewayBooks.MembersAreCovered` | backend/src/realtime/socket-server.ts:112-118 | with no timer pending, each member of a market room has had a snapshot start after both its latest subscription and the latest change |
| `GatewayBooks.MembersWereSentTheBook` | backend/src/realtime/socket-server.ts:236-245 | with nothing under way and the latest snapshot not failed, each member has been sent a book with every signalled change, whatever became of earlier reads |
| `GatewayBooks.LastBookIsCurrentIff` | backend/src/realtime/socket-server.ts:236-245 | in every reachable state the last book a socket has been sent is the current one if and only if a read made after the last signal was sent to it, and no older book after the newest it got |
| `GatewayBooks.SentIffDelivered` | backend/src/realtime/socket-server.ts:236-245 | a book with every signalled change has been sent to a socket if and only if some read made after the last signal was sent to it |
| `GatewayBooks.BroadcastReaches` | backend/src/realtime/socket-server.ts:240-241 | a book is sent to exactly the sockets whose history of joins and leaves has them in the room `market:` of its symbol |
| `GatewayBooks.DeliveredUnlessFailed` | backend/src/realtime/socket-server.ts:236-245 | with nothing under way, a member to which no such read was sent has seen the latest snapshot fail |
| `GatewayBooks.HistoryStep` | backend/src/realtime/socket-server.ts:112-245 | every step keeps: a snapshot under way holds the book its own read put into the history, and every broadcast carries the book of its own finished read |
| `GatewayBooks.LastBookIsCurrent` | backend/src/realtime/socket-server.ts:236-245 | so a member has the current book, with nothing under way and the latest snapshot not failed, when the symbol's books were broadcast in order, however much the snapshots overlapped |
| `GatewayBooks.OneAtATimeIsInOrder` | backend/src/realtime/socket-server.ts:236-245 | and books are broadcast in order when no snapshot starts while another is being made |
| `GatewayOldBooks.OverlapShowsAnOldBook` | backend/src/realtime/socket-server.ts:236-245 | from any reachable state at rest a member can be led, by two changes with overlapping snapshots, to a state at rest in which it is left with the older book |
| `GatewayOldBooks.FailureShowsAnOldBook` | backend/src/realtime/socket-server.ts:236-245 | from any such state with the current book, one change whose read fails leads to rest with the old book, although no older book was ever sent |
| `GatewayOldBooks.OldBooksHappen` | backend/src/realtime/socket-server.ts:236-245 | both happen for every pair, supported set and user |
| `GatewayBooks.BookStep` | backend/src/realtime/socket-server.ts:112-245 | every step keeps the coverage, delivery and order invariants of every symbol and socket |
| `GatewayTimers.RateStep` | backend/src/realtime/socket-server.ts:224-234 | every step keeps the spacing of timed snapshots and their number below the signals |
| `GatewayTimers.TimerStep` | backend/src/realtime/socket-server.ts:224-234 | every step keeps pending symbols and armed timers in one-to-one correspondence |
| `GatewayBooks.GatewayRun` | backend/src/realtime/socket-server.ts:106-245 | all of these hold after every run |
| `GatewayRooms.RoomsArePrivate` | backend/src/realtime/socket-server.ts:106-145 | in every run a socket is in `user:X` only if it authenticated as X, its market-data rooms are on its own list, the list holds at most 20 symbols, all supported, and nothing pushed for another user reached it |
| `GatewayRooms.PushReaches` | backend/src/realtime/socket-server.ts:172-180 | a push for a user reaches exactly the user's connected sockets that have not left the user's room |
| `GatewayRooms.LeftForGood` | backend/src/realtime/socket-server.ts:120-122 | a socket outside a user's room, having left it or gone, stays outside in every continuation |
| `GatewayRooms.MissesPushes` | backend/src/realtime/socket-server.ts:120-122 | a socket that has left its own user room is not reached by pushes for its user in any continuation |
| `GatewayRooms.FirstToLeave` | backend/src/realtime/socket-server.ts:120-122 | a run of three steps in which a connected socket of the user misses a push |
| `GatewayRooms.LockedOut` | backend/src/realtime/socket-server.ts:120-134 | a listed symbol whose room was left by the generic `unsubscribe` is not joined by asking again |
| `GatewayRooms.AskingForASymbol` | backend/src/realtime/socket-server.ts:127-134 | a subscription request puts the socket into the room exactly when it is in it, or the symbol is supported, not on the list, and the list is not full |
| `GatewayRooms.ListedMeans` | backend/src/realtime/socket-server.ts:127-140 | in every run a symbol is on a socket's list exactly when the latest addition or removal of it was an addition, and the room of a listed symbol is not joined exactly when it was left since |
| `GatewayRooms.AskedInVain` | backend/src/realtime/socket-server.ts:120-134 | a supported symbol, listed or with space on the list, is asked for in vain exactly when it is listed and its room was left since |
| `GatewayRooms.AskingAfterRemoving` | backend/src/realtime/socket-server.ts:127-140 | after `md:unsubscribe` a listed symbol can always be subscribed again |
| `GatewayRooms.MarketRoomMeans` | backend/src/realtime/socket-server.ts:42-42 | the gateway accepts exactly the names `market:A-B` with A and B of capitals and digits |
| `GatewayRooms.MarketRoomNames` | backend/src/realtime/socket-server.ts:42-64 | the room of a well-formed pair is accepted, and its symbol is read back |
| `GatewayRooms.RoomNames` | backend/src/realtime/socket-server.ts:54-73 | the three kinds of room never share a name, and each name determines its user or symbol |
| `GatewayRooms.RoomStep` | backend/src/realtime/socket-server.ts:106-180 | every step keeps: rooms are what the history of joins and leaves says, each is permitted to its socket, and all pushes went to their user |
| `GatewayDepartures.DisconnectRemoves` | backend/src/realtime/socket-server.ts:142-144 | disconnecting takes a socket out of every room and changes nothing else |
| `GatewayDepartures.GoneForGood` | backend/src/realtime/socket-server.ts:142-144 | from any reachable state, a socket that disconnects is in no room and does not come back in any continuation, and no broadcast and no push from then on reaches it |
| `GatewayDepartures.LastMemberGone` | backend/src/realtime/socket-server.ts:236-238 | when the last member of a market room disconnects, no snapshot is started for it in any continuation in which nobody subscribes to it |
| `GatewayDepartures.DesertedRun` | backend/src/realtime/socket-server.ts:236-238 | the same for any room without members |
| `GatewayServer.Server.Promises` | backend/src/realtime/socket-server.ts:106-245 | after any calls rooms and pushes are private and members of a room without a pending timer are covered |
| `GatewayServer.Server.OnConnection` | backend/src/realtime/socket-server.ts:106-109 | connecting is the protocol's connect step with a new socket of that user |
| `GatewayServer.Server.OnSubscribe` | backend/src/realtime/socket-server.ts:112-118 | the handler is the subscribe step: check the name, join, start a snapshot |
| `GatewayServer.Server.OnUnsubscribe` | backend/src/realtime/socket-server.ts:120-122 | the handler is the unsubscribe step, for any room |
| `GatewayServer.Server.OnMdSubscribe` | backend/src/realtime/socket-server.ts:127-134 | the handler is the market-data subscribe step with its three refusals |
| `GatewayServer.Server.OnMdUnsubscribe` | backend/src/realtime/socket-server.ts:136-140 | the handler is the market-data unsubscribe step |
| `GatewayServer.Server.OnDisconnect` | backend/src/realtime/socket-server.ts:142-144 | disconnecting removes the socket, its rooms and its list, and leaves all other sockets as they are |
| `GatewayServer.Server.ScheduleOrderbookSnapshot` | backend/src/realtime/socket-server.ts:226-234 | a signal arms one timer unless the symbol is pending |
| `GatewayServer.Server.OnTimer` | backend/src/realtime/socket-server.ts:228-231 | the timer's callback is the fire step: no longer pending, then a snapshot |
| `GatewayServer.Server.EmitOrderbookSnapshot` | backend/src/realtime/socket-server.ts:236-240 | a snapshot starts exactly when the room has a member |
| `GatewayServer.Server.OnBook` | backend/src/realtime/socket-server.ts:240-241 | the book goes to the room's members at that moment |
| `GatewayServer.Server.OnBookFailed` | backend/src/realtime/socket-server.ts:242-244 | a failed read ends the snapshot and sends nothing |
| `GatewayServer.Server.OnUserEvent` | backend/src/realtime/socket-server.ts:172-180 | an event of a user goes to the members of the user's room |
| `Base32.Encode` | backend/src/lib/totp.ts:21-33 | the two passes produce the characters of the bytes' bits, filled with zeros to groups of five |
| `Base32.SpellGroups` | backend/src/lib/totp.ts:25-28 | the second pass spells the bits in groups of five, up to fewer than five at the end |
| `Base32.ToBuffer` | backend/src/lib/totp.ts:40-52 | the decoder produces the whole bytes in the normalized characters' bits, nothing on a foreign character |
| `Base32.EncodedLength` | backend/src/lib/totp.ts:25-31 | an encoding of n bytes has ceil(8n/5) characters |
| `Base32.OnlyEncoding` | backend/src/lib/totp.ts:16-33 | a string is the encoding of some bytes if and only if it has that length, is over the alphabet, and its base-32 number is the bytes' base-256 number shifted by the fill |
| `Base32.DecodedBits` | backend/src/lib/totp.ts:40-52 | decoded bytes spell all the characters' bits but fewer than eight at the end |
| `Base32.RoundTrip` | backend/src/lib/totp.ts:21-52 | every respelling of an encoding, letters in either case and white space anywhere, decodes to the bytes, with any run of '=' after it |
| `Base32.RespellsKept` | backend/src/lib/totp.ts:36-38 | a text is a respelling of characters of the alphabet if and only if removing white space and upper-casing gives them back |
| `Base32.PlainRoundTrip` | backend/src/lib/totp.ts:21-52 | in particular as it is, in lower case, and split by white space at any place |
| `Base32.PaddingMustBeLast` | backend/src/lib/totp.ts:36-38 | a text that without its '=' signs respells the encoding of some bytes decodes to them if and only if there are none, or no '=' is left when the run at the very end is stripped |
| `Base32.BlanksAfterPadding` | backend/src/lib/totp.ts:36-38 | a respelling, some '=' signs and white space decode to the bytes if and only if the white space is empty |
| `Base32.PaddedThenBlank` | backend/src/lib/totp.ts:36-38 | one '=' and one space after any non-empty encoding spoil it |
| `Base32.PaddingInside` | backend/src/lib/totp.ts:36-38 | so does one '=' before any character of an encoding |
| `Base32.IndexInAlphabet` | backend/src/lib/totp.ts:43-44 | the index of a character is its position in the alphabet, -1 exactly when it is not there |
| `Totp.TruncateIsBigEndian` | backend/src/lib/totp.ts:66-72 | truncation reads inside every 20-byte digest, and its shifts, masks and ORs give the big-endian number of four bytes without the sign bit, below 2^31 |
| `Totp.CodeIsSixDigits` | backend/src/lib/totp.ts:66-73 | the code is always six digits whose value is that number modulo 10^6 |
| `Totp.Rfc4226Example` | backend/src/lib/totp.ts:66-73 | the worked example of section 5.4 of RFC 4226 has the code 872921 |
| `Totp.BigEndianValue` | backend/src/lib/totp.ts:63-64 | the message bytes denote the counter, so different counters make different messages |
| `Totp.WriteUInt64BE` | backend/src/lib/totp.ts:63-64 | the eight-byte buffer holds the counter in big-endian order |
| `Totp.TotpCode` | backend/src/lib/totp.ts:60-74 | the generator computes the code of the step's counter, "" without a secret, and throws when the counter does not fit |
| `Totp.CodeOfItsStep` | backend/src/lib/totp.ts:60-74 | with a secret, the code at t is that of the step t / 30000, and there is none exactly when that number is negative or of more than 64 bits |
| `Totp.NoSecretNoCode` | backend/src/lib/totp.ts:60-85 | without a secret the code is empty and nothing is accepted |
| `Totp.CodeAtSkew` | backend/src/lib/totp.ts:92-92 | each skewed call of the generator yields the code at the shifted time, from the one table of codes of the secret |
| `Totp.TrySkews` | backend/src/lib/totp.ts:90-100 | the loop over the three skews stops at the first hit or the first error |
| `Totp.VerifyTotp` | backend/src/lib/totp.ts:81-101 | the verifier computes the acceptance function the next lemmas are about |
| `Totp.AcceptsThreeSteps` | backend/src/lib/totp.ts:86-100 | from 30000 ms on a code is accepted exactly when, trimmed, it is the code of the current step, the one before or the one after |
| `Totp.CodeByNumber` | backend/src/lib/totp.ts:73-73 | six digits are a step's code exactly when they denote the number of its digest |
| `Totp.AcceptedFor30Seconds` | backend/src/lib/totp.ts:76-101 | a code made at t0 is accepted, padded or not, at every t with abs(t - t0) at most 30000 |
| `Totp.ThrowsExactly` | backend/src/lib/totp.ts:86-97 | at every timestamp the verifier throws exactly on well-formed codes with a secret for which a skew it comes to has a negative counter or one of more than 64 bits |
| `Totp.ThrowsAtFirst` | backend/src/lib/totp.ts:86-97 | in the first 30 seconds it throws on the very code the generator gives |
| `Redaction.RedactSensitive` | backend/src/lib/redaction.ts:14-31 | the recursion with its shared `seen` set terminates on every finite graph and computes the tree and the set the lemmas are about |
| `Redaction.RedactItems` | backend/src/lib/redaction.ts:22-24 | an array's children are redacted in order with the shared set |
| `Redaction.RedactEntries` | backend/src/lib/redaction.ts:26-30 | an object's entries keep their keys and order; values under sensitive keys are not walked |
| `RedactionWalk.ExpandsOnce` | backend/src/lib/redaction.ts:19-20 | the output has one array or object for each node newly seen |
| `RedactionWalk.ExpandsAtMostTheGraph` | backend/src/lib/redaction.ts:14-31 | a call expands at most as many nodes as the graph has |
| `RedactionWalk.WalksTheReached` | backend/src/lib/redaction.ts:14-31 | a call walks exactly the nodes that are reached without passing a sensitive key, cycles or not, and the output has one array or object for each of them |
| `RedactionOutput.OutputFits` | backend/src/lib/redaction.ts:15-30 | every expanded array keeps its length and every expanded object its keys; buffers and sensitive values become the marker; everything else is unchanged, or `[Circular]` |
| `RedactionOutput.OutputIsClean` | backend/src/lib/redaction.ts:10-31 | the output is a finite tree without buffers whose every value under a sensitive key is the marker |
| `RedactionOutput.MarksCyclesIffUnshared` | backend/src/lib/redaction.ts:14-31 | on every graph the result is that of the recursion that remembers only its own ancestors, where markers stand exactly where cycles close, if and only if that recursion expands no node twice |
| `RedactionOutput.SameAsPlainIffTree` | backend/src/lib/redaction.ts:14-30 | when no cycle is reached from the value, the result is that of the recursion without `seen` if and only if that recursion never meets a node twice |
| `RedactionOutput.SameAsPlainIffFresh` | backend/src/lib/redaction.ts:14-30 | the same for any rank of what is followed, along which the recursion without `seen` ends |
| `RedactionOutput.AcyclicIsRanked` | backend/src/lib/redaction.ts:14-30 | a value from which no cycle is reached has such a rank |
| `RedactionOutput.RankedIsAcyclic` | backend/src/lib/redaction.ts:14-30 | and only such a value |
| `RedactionOutput.SharingIsCalledCircular` | backend/src/lib/redaction.ts:19-19 | an acyclic graph of two nodes whose output contains `[Circular]` |
| `RedactionOutput.OneMarkerIsFalse` | backend/src/lib/redaction.ts:19-19 | a graph with a cycle whose output has one marker where the cycle closes and one where nothing does |
| `RedactionLayout.RedactingAgain` | backend/src/lib/redaction.ts:14-31 | the output of every call can be laid out as a graph that spells it, and redacting that returns it unchanged |
| `RedactionOutput.RedactingAnyLayout` | backend/src/lib/redaction.ts:14-31 | the same for every other layout of it as a tree |
| `Redaction.SensitiveInside` | backend/src/lib/redaction.ts:1-12 | a key that contains a sensitive key is sensitive |
| `Redaction.SensitivePair` | backend/src/lib/redaction.ts:1-12 | two words of an alternative match in any letter case with nothing between them, or one character that is no line end and a single UTF-16 unit |
| `Redaction.SensitiveIff` | backend/src/lib/redaction.ts:1-12 | a key is sensitive if and only if one of the thirteen words stands in it in any letter case, or one of the six pairs of words with nothing or one character of the line between them |
| `IpAllowlist.ExecIpv4Means` | backend/src/lib/ip-allowlist.ts:14-14 | the address recogniser accepts exactly four dotted groups of one to three digits, with one reading |
| `IpAllowlist.ExecCidrMeans` | backend/src/lib/ip-allowlist.ts:15-15 | the block recogniser accepts exactly such an address, a slash and one or two digits, with one reading |
| `IpAllowlist.GroupsAre` | backend/src/lib/ip-allowlist.ts:14-15 | the groups have one to three digits, the prefix length one or two |
| `IpAllowlist.NotBoth` | backend/src/lib/ip-allowlist.ts:14-15 | no string is both |
| `IpAllowlist.ToIntMeans` | backend/src/lib/ip-allowlist.ts:27-34 | the shifts and ORs give the base-256 number of the octets, exactly when all are below 256 |
| `IpAllowlist.BlockIsInterval` | backend/src/lib/ip-allowlist.ts:57-60 | the mask test holds exactly inside the aligned block of 2^(32-p) addresses, p = 0 and p = 32 included |
| `IpAllowlist.ShorterPrefixIsWider` | backend/src/lib/ip-allowlist.ts:57-60 | shortening the prefix never loses a match |
| `IpAllowlist.CidrMatches` | backend/src/lib/ip-allowlist.ts:47-61 | a padded block entry with valid base and prefix matches exactly the addresses of its block |
| `IpAllowlist.ExactMatches` | backend/src/lib/ip-allowlist.ts:47-50 | a padded address entry matches exactly its address, and nothing when an octet exceeds 255 |
| `IpAllowlist.EntryMeans` | backend/src/lib/ip-allowlist.ts:47-61 | an entry matches an address if and only if, padded or not, it is that address or a valid block that holds it |
| `IpAllowlist.AllowedIff` | backend/src/lib/ip-allowlist.ts:68-77 | an empty list admits everybody; any other admits exactly the clients whose address is a dotted quad, plain or mapped and padded or not, that is an entry of the list or in a block of it |
| `IpAllowlist.ValidIffMatchable` | backend/src/lib/ip-allowlist.ts:37-61 | an entry passes validation if and only if it is some address, or a block that holds one |
| `IpAllowlist.QuadNormalizes` | backend/src/lib/ip-allowlist.ts:18-25 | a dotted quad is looked up by its number plain, padded, or with the mapped prefix in either letter case |
| `IpAllowlist.NormalizesMapped` | backend/src/lib/ip-allowlist.ts:18-25 | text from digit to digit loses its padding and its mapped prefix, nothing else |
| `IpAllowlist.InvalidEntriesAreInert` | backend/src/lib/ip-allowlist.ts:68-77 | in a non-empty list only the entries that pass validation count: a client is admitted if and only if its address is one of these or in a block of these |
| `IpAllowlist.DroppingInvalidEntries` | backend/src/lib/ip-allowlist.ts:68-77 | removing them from a list changes no verdict if and only if the list was empty or something is left |
| `IpAllowlist.OneEmptyEntry` | backend/src/lib/ip-allowlist.ts:68-77 | the list of one empty entry admits nobody, and everybody once its invalid entry is dropped |
| `Matching.MatchOrder` | backend/src/modules/trading/trading.engine.ts:65-135 | the loop over the book computes the fills the theorems are about, and their totals |
| `MatchingTheorems.MatchFollowsTheBook` | backend/src/modules/trading/trading.engine.ts:65-135 | a list is that of the fills of a match if and only if: its makers are in book order, none of them or before them beyond the limit; only makers with nothing left are passed over; each fill is at the maker's price, a whole number of steps, worth the rounded-down amount, and the largest that the maker and what is left of quantity or budget allow; and behind the last the book ends, the limit is reached, or nothing more fits |
| `MatchingTheorems.FillsFollow` | backend/src/modules/trading/trading.engine.ts:65-135 | the same for the rest of a book with what is left |
| `MatchingTheorems.OnlyFills` | backend/src/modules/trading/trading.engine.ts:65-135 | and nothing but the computed fills follows it so |
| `MatchingTheorems.FillIsFair` | backend/src/modules/trading/trading.engine.ts:94-111 | one fill is fair and no larger whole number of steps is possible |
| `MatchingTheorems.EndsMeans` | backend/src/modules/trading/trading.engine.ts:94-111 | the walk gives up at a maker only if no possible quantity is worth a unit |
| `MatchingTheorems.FillsFit` | backend/src/modules/trading/trading.engine.ts:76-128 | fills never cost more than what was left of the quantity or budget |
| `MatchingTheorems.FillsKeepTheLimit` | backend/src/modules/trading/trading.engine.ts:54-83 | every fill of a limit buy is at or below its limit, every fill of a limit sell at or above it |
| `MatchingTheorems.FillsAreWorth` | backend/src/modules/trading/trading.engine.ts:113-121 | every fill is worth its quantity at its price, rounded down to the quote scale |
| `MatchingTheorems.NothingToFill` | backend/src/modules/trading/trading.engine.ts:76-81 | without a quantity, or without a budget to buy at the market, nothing is filled |
| `Decimals.FloorToSteps` | backend/src/modules/trading/trading.types.ts:208-210 | rounding down gives the greatest number of so many places, and sums and differences of such numbers are such numbers |
| `Decimals.FloorToUnits` | backend/src/modules/trading/trading.types.ts:208-210 | rounding down to n places keeps the whole part of 10^n times the number |
| `Decimals.RoundsAlike` | backend/src/modules/trading/trading.types.ts:207-215 | both roundings treat a number below zero as its opposite |
| `Decimals.CeilToIsLeast` | backend/src/modules/trading/trading.types.ts:213-215 | rounding up gives the least one that is no less |
| `OrderLocks.Covers` | backend/src/modules/trading/trading.types.ts:216-250 | the lock of every well-formed order covers the worst case; it is the quantity times the limit, rounded up, to buy with a limit, and otherwise exactly the quantity or budget the engine starts with |
| `OrderLocks.MatchTakesAtMost` | backend/src/modules/trading/trading.types.ts:216-250 | no match, whatever the book, takes more than the worst case |
| `OrderLocks.WorstCaseHappens` | backend/src/modules/trading/trading.types.ts:216-250 | some book takes all of it |
| `OrderLocks.MatchStaysWithinIff` | backend/src/modules/trading/trading.types.ts:216-250 | a match of an order that has used some of its lock stays within it for every book if and only if that and the worst case fit in; so it does when nothing was used |
| `OrderRuns.TakerIsKeptIff` | backend/src/modules/trading/trading.service.ts:265-373 | whatever the book, a match leaves its order with records that say what was debited, within the lock, and given back what is left if it closes, if and only if nothing of the lock had been used or given back before |
| `OrderRuns.MakersAreKept` | backend/src/modules/trading/trading.service.ts:300-337 | a match leaves the same true of all its makers, and touches nobody else |
| `OrderRuns.MatchTouches` | backend/src/modules/trading/trading.service.ts:270-337 | a match changes its own order, and of the others only open ones of other users on the other side that it lists |
| `OrderRuns.PlacesIff` | backend/src/modules/trading/trading.service.ts:130-198 | an order is placed exactly when its id is new and it has the price, quantity or budget its kind needs, above zero, and no other |
| `OrderRuns.MatchClosesIff` | backend/src/modules/trading/trading.service.ts:338-361 | a match closes a limit order exactly when all of it is filled, a market order always |
| `OrderRuns.FillClosesIff` | backend/src/modules/trading/trading.service.ts:308-324 | a fill closes a maker exactly when it fills the rest of it |
| `OrderRuns.CancelGivesBack` | backend/src/modules/trading/trading.service.ts:500-522 | cancelling an open order closes it and gives back what was not debited of its lock |
| `OrderRuns.RunReleasesOnce` | backend/src/modules/trading/trading.service.ts:459-494 | in every run, touched matches included, what an order gives back of its lock is given back once |
| `OrderRuns.LocksBalance` | backend/src/modules/trading/trading.service.ts:130-542 | over any run in which matches find their orders untouched, every order's debits are as recorded and within its lock, a closed order's lock is used up or given back, and nothing of an open one is given back |
| `OrderRuns.DecimalLocksBalance` | backend/src/modules/trading/trading.service.ts:130-542 | in particular with decimal rounding at any scales, from no orders at all |
| `OrderRuns.FilledBeforeItsMatch` | backend/src/modules/trading/trading.service.ts:195-228 | a run in which an order is filled as a maker between its placing and its match, and twice its lock is debited |
| `OpenOrders.QueryCache.OnOrderUpdated` | frontend/lib/use-realtime.ts:61-67 | every open-orders query with data takes the update, every other query is unchanged |
| `OpenOrders.Filtered` | frontend/lib/use-realtime.ts:64-64 | the filter keeps the other orders in their order |
| `OpenOrders.ClosedForm` | frontend/lib/use-realtime.ts:61-69 | after any updates the list is the orders last updated to an open status, newest update first with their latest value, then the orders never mentioned in their original order |
| `OpenOrders.LastOpenMeans` | frontend/lib/use-realtime.ts:19-19 | an order is in the first part exactly when it is the last update of its id and open |
| `OpenOrders.NewestFirst` | frontend/lib/use-realtime.ts:61-69 | of two orders in the first part the one in front has the later last update |
| `OpenOrders.LastIndexFinds` | frontend/lib/use-realtime.ts:61-69 | no update of an id comes after its last one |
| `OpenOrders.StaysDistinct` | frontend/lib/use-realtime.ts:61-69 | no id ever appears twice |
| `Outbox.Mailer.Promises` | backend/src/lib/mailer.ts:166-252 | after any calls the outbox holds the last 1000 mails since the last clear, and there is no token exactly when none of these matches |
| `Outbox.Mailer.Dispatch` | backend/src/lib/mailer.ts:166-194 | only the log provider outside production adds to the outbox, dropping the oldest beyond 1000 |
| `Outbox.Mailer.SendNotification` | backend/src/lib/mailer.ts:213-229 | the same for notifications, with the subject and an empty token |
| `Outbox.Mailer.LastTokenFor` | backend/src/lib/mailer.ts:243-248 | the backward loop finds the latest retained match |
| `Outbox.Mailer.ClearOutbox` | backend/src/lib/mailer.ts:250-252 | clearing empties the outbox |
| `Outbox.KeepsTheLast` | backend/src/lib/mailer.ts:180-183 | after any sends and clears the outbox is exactly the last 1000 mails since the last clear, or all of them |
| `Outbox.LatestTokenMeans` | backend/src/lib/mailer.ts:243-248 | the token is that of the last match, and there is none exactly when nothing matches |
| `Outbox.TokenUntilDropped` | backend/src/lib/mailer.ts:180-248 | the token of the latest match is returned exactly while fewer than 1000 mails have followed it |
| `WithdrawAmount.MatchesAmountMeans` | frontend/app/inr-withdraw/page.tsx:19-19 | the first expression accepts exactly the decimal grammar without leading zeros and with at most two decimals |
| `WithdrawAmount.MatchesZeroMeans` | frontend/app/inr-withdraw/page.tsx:34-34 | the second expression matches an amount of the grammar exactly when it is worth nothing |
| `WithdrawAmount.PaiseAre` | frontend/app/inr-withdraw/page.tsx:19-19 | what an amount of the grammar is worth, digit by digit |
| `WithdrawAmount.AcceptsPositiveAmounts` | frontend/app/inr-withdraw/page.tsx:34-36 | the form accepts exactly the trimmed amounts of the grammar worth at least one paisa |
| `WithdrawAmount.OneReading` | frontend/app/inr-withdraw/page.tsx:19-19 | no string is two amounts |
| `Text.TrimPadded` | backend/src/lib/ip-allowlist.ts:20-20 | trimming recovers a text that neither starts nor ends with white space from any padding |
| `Text.TrimSplits` | backend/src/lib/ip-allowlist.ts:38-38 | every text is its trimmed core, which neither starts nor ends with white space, between two runs of white space |
| `Text.SpacesAre` | backend/src/lib/ip-allowlist.ts:20-20 | white space is that of ECMAScript, by code point |

## Left out

- Ledger, conversion, withdrawal, scanner and auth services, and of trading everything but the matching engine, the lock and the steps that change an order: their modules are not part of this model.
- Matching.MatchOrder: numbers are exact; the decimal library rounds quotients and products to 20 significant digits. Prices, quantities and totals are numbers where the source has decimal strings.
- OrderRuns.LocksBalance: orders are database rows, modelled as a map that each step replaces. Placing is one step together with its lock; fees, the ledger's own check of balances, its failures and retries, and tick and step sizes are left out. A match reads any page of different open orders of others on the other side, in any order, so price-time sorting and the page limit are left out.
- Everything that would delete idempotency rows besides the middleware, such as the time-to-live sweep the schema hints at: rows disappear only by a release.
- JSON: a body is a token, `JsonNull` is one of them; how Prisma would treat a captured JavaScript `null` is not modelled.
- Prisma, Redis, Socket.IO, Express, React Query and Node timers: the table is a map with a unique key, rooms are sets of names, a timer fires when its due time has come or later, a join takes effect at once.
- The `Idempotent-Replayed` header, error messages and logging.
- Authentication of a socket: a connection arrives with the user its token was checked for; the room named after its own id, which Socket.IO joins by itself, is left out.
- `isSupportedSymbol` is a fixed set of symbols, and the contents of a book are the number of signalled changes it includes. The source makes a book of two reads, bids and asks, at once; its number is that of the earlier one.
- Trades, tickers, candles and acknowledgements sent to sockets; `balance.updated` is a push at the moment its wallet read returns, and the check that the room is not empty before the read, and a failing read, are left out.
- HMAC-SHA-1 is a parameter returning 20 bytes; the comparison in constant time, `generateTotpSecret` and `otpauthUri` are left out.
- Totp.AcceptsThreeSteps: timestamps are whole milliseconds whose step counters fit in 64 bits; fractional timestamps are not modelled, and numbers are exact where JavaScript rounds beyond 2^53, far before any such counter.
- Strings are sequences of characters, and a character beyond the basic plane counts once where JavaScript counts two units; only the redactor's pattern makes the difference.
- Upper and lower case are those of ASCII: JavaScript also maps a few other letters to ASCII ones when it changes or ignores case.
- Redaction.RedactSensitive: the graph is a finite map from identities to nodes, so getters, array holes, `__proto__` keys and objects without enumerable entries are not told apart; `undefined`, functions and numbers are opaque leaves.
- OpenOrders: the envelope and page around the items are one opaque rest; the query invalidations that follow an update are left out.
- Mail templates, links, and the sending itself: a provider's answer is a parameter.
- The other fields of the withdrawal form, and all rendering.
- `config/env.ts`, `lib/prod-safety.ts`, seed scripts and thin validation middleware: they would add only members that a reading of each branch settles.
